/** The client's encrypted archive (electron/archive.ts): stored rows, and what they say once decrypted. */
module ArchiveRows {
  import opened Common

  type RowId = string

  datatype Json =
    | Null
    | Flag(flag: bool)
    | Number(number: int)
    | Text(text: string)
    | Items(items: seq<Json>)
    | Object(fields: seq<(string, Json)>)

  datatype Sealed = Sealed(iv: nat, tag: nat, cipher: string)

  /** JSON text and authenticated encryption, as pairs of functions. */
  datatype Codec = Codec(
    show: Json -> string,
    read: string -> Json,
    seal: (nat, string) -> Sealed,
    unseal: Sealed -> string)

  ghost predicate Inverse(cx: Codec) {
    (forall j :: cx.read(cx.show(j)) == j && cx.show(j) != "") &&
    cx.show(Object([])) == "{}" &&
    forall iv, text :: cx.unseal(cx.seal(iv, text)) == text
  }

  /** A message as the renderer hands it over and gets it back; None is an absent field. */
  datatype Message = Message(
    id: RowId, conv: string, sender: string, kind: string, content: Option<Json>, seqNo: int,
    mentions: Option<seq<string>>, replyTo: Option<string>, recalled: bool,
    editedAt: Option<string>, editCount: Option<int>, createdAt: string)

  /** The columns an upsert never touches on an existing row. */
  datatype Fixed = Fixed(conv: string, sender: string, kind: string, seqNo: int, createdAt: string)

  /** The unencrypted columns an upsert overwrites. */
  datatype Meta = Meta(
    mentions: Option<string>, replyTo: Option<string>, recalled: int, editedAt: Option<string>, editCount: int)

  datatype Row = Row(fixed: Fixed, sealed: Sealed, meta: Meta)

  type Table = map<RowId, Row>

  // ---- writing and reading rows -------------------------------------------------------------

  function Texts(names: seq<string>): seq<Json> {
    seq(|names|, i requires 0 <= i < |names| => Text(names[i]))
  }

  /** The strings of a JSON array; anything else has none. */
  function Names(j: Json): seq<string> {
    if j.Items? then seq(|j.items|, i requires 0 <= i < |j.items| => if j.items[i].Text? then j.items[i].text else "")
    else []
  }

  function FixedOf(m: Message): Fixed {
    Fixed(m.conv, m.sender, m.kind, m.seqNo, m.createdAt)
  }

  function MetaOf(cx: Codec, m: Message): Meta {
    Meta(if m.mentions.Some? && |m.mentions.value| > 0 then Some(cx.show(Items(Texts(m.mentions.value)))) else None,
         m.replyTo,
         if m.recalled then 1 else 0,
         m.editedAt,
         if m.editCount.Some? then m.editCount.value else 0)
  }

  /** An absent or null body is stored as an empty object. */
  function ContentOf(m: Message): Json {
    if m.content.Some? && m.content.value != Null then m.content.value else Object([])
  }

  function TextOf(cx: Codec, m: Message): string {
    cx.show(ContentOf(m))
  }

  function Stored(cx: Codec, m: Message, iv: nat): Row {
    Row(FixedOf(m), cx.seal(iv, TextOf(cx, m)), MetaOf(cx, m))
  }

  function Read(cx: Codec, id: RowId, r: Row): Message {
    var text := cx.unseal(r.sealed);
    Message(id, r.fixed.conv, r.fixed.sender, r.fixed.kind,
            Some(cx.read(if text == "" then "{}" else text)),
            r.fixed.seqNo,
            if r.meta.mentions.Some? && r.meta.mentions.value != ""
            then Some(Names(cx.read(r.meta.mentions.value))) else None,
            r.meta.replyTo,
            r.meta.recalled != 0,
            r.meta.editedAt,
            if r.meta.editCount == 0 then None else Some(r.meta.editCount),
            r.fixed.createdAt)
  }

  function Upsert(cx: Codec, t: Table, m: Message, iv: nat): Table {
    if m.id in t
    then t[m.id := Row(t[m.id].fixed, cx.seal(iv, TextOf(cx, m)), MetaOf(cx, m))]
    else t[m.id := Stored(cx, m, iv)]
  }

  function MarkRecalled(cx: Codec, t: Table, id: RowId, iv: nat): Table {
    if id in t then t[id := t[id].(sealed := cx.seal(iv, "{}"), meta := t[id].meta.(recalled := 1))] else t
  }

  function Remove(t: Table, id: RowId): Table {
    t - {id}
  }

  // ---- the archive as entries ---------------------------------------------------------------

  /** What a row says: the part an upsert can change. */
  datatype Body = Body(
    content: Json, mentions: seq<string>, replyTo: Option<string>, recalled: bool,
    editedAt: Option<string>, editCount: int)

  datatype Entry = Entry(fixed: Fixed, body: Body)

  function BodyOf(m: Message): Body {
    Body(ContentOf(m),
         if m.mentions.Some? then m.mentions.value else [],
         m.replyTo, m.recalled, m.editedAt,
         if m.editCount.Some? then m.editCount.value else 0)
  }

  function EntryOf(m: Message): Entry {
    Entry(FixedOf(m), BodyOf(m))
  }

  /** The decrypted archive. */
  function View(cx: Codec, t: Table): map<RowId, Entry> {
    map id | id in t :: EntryOf(Read(cx, id, t[id]))
  }

  /** The upsert on entries: an existing entry keeps its fixed part. */
  function Put(v: map<RowId, Entry>, m: Message): map<RowId, Entry> {
    if m.id in v then v[m.id := Entry(v[m.id].fixed, BodyOf(m))] else v[m.id := EntryOf(m)]
  }

  lemma NamesOfTexts(names: seq<string>)
    ensures Names(Items(Texts(names))) == names
  {
    assert |Names(Items(Texts(names)))| == |names|;
  }

  /** Reading back what was written gives the same message, up to defaults for absent fields. */
  lemma ReadAfterStore(cx: Codec, m: Message, iv: nat)
    requires Inverse(cx)
    ensures EntryOf(Read(cx, m.id, Stored(cx, m, iv))) == EntryOf(m)
    ensures var back := Read(cx, m.id, Stored(cx, m, iv));
      back == m <==> m.content.Some? && m.content.value != Null && m.mentions != Some([]) && m.editCount != Some(0)
  {
    var j := ContentOf(m);
    assert cx.read(cx.show(j)) == j && cx.show(j) != "";
    if m.mentions.Some? {
      var list := Items(Texts(m.mentions.value));
      assert cx.read(cx.show(list)) == list && cx.show(list) != "";
      NamesOfTexts(m.mentions.value);
    }
  }

  /** Encrypting and decrypting do not show: the stored upsert is the upsert on entries. */
  lemma UpsertIsPut(cx: Codec, t: Table, m: Message, iv: nat)
    requires Inverse(cx)
    ensures View(cx, Upsert(cx, t, m, iv)) == Put(View(cx, t), m)
  {
    ReadAfterStore(cx, m, iv);
    var s := Upsert(cx, t, m, iv);
    forall id | id in s ensures View(cx, s)[id] == Put(View(cx, t), m)[id] {
      if id == m.id && id in t {
        var inserted := Read(cx, id, Stored(cx, m, iv));
        assert BodyOf(Read(cx, id, s[id])) == BodyOf(inserted);
      }
    }
    assert View(cx, s).Keys == Put(View(cx, t), m).Keys;
  }

  // ---- stored columns -----------------------------------------------------------------------

  /** A row as the upsert and the recall write it. */
  ghost predicate Canonical(cx: Codec, r: Row) {
    var text := cx.unseal(r.sealed);
    text != "" && cx.show(cx.read(text)) == text && cx.read(text) != Null &&
    (r.meta.mentions.Some? ==> ListsNames(cx, r.meta.mentions.value)) &&
    r.meta.recalled in {0, 1}
  }

  ghost predicate ListsNames(cx: Codec, text: string) {
    exists names: seq<string> :: names != [] && text == cx.show(Items(Texts(names)))
  }

  ghost predicate AllCanonical(cx: Codec, t: Table) {
    forall id :: id in t ==> Canonical(cx, t[id])
  }

  lemma StoredIsCanonical(cx: Codec, m: Message, iv: nat)
    requires Inverse(cx)
    ensures Canonical(cx, Stored(cx, m, iv))
  {
    assert cx.read(cx.show(ContentOf(m))) == ContentOf(m) && TextOf(cx, m) != "";
    assert m.mentions.Some? && |m.mentions.value| > 0 ==>
      ListsNames(cx, cx.show(Items(Texts(m.mentions.value))));
  }

  lemma RecalledIsCanonical(cx: Codec, t: Table, id: RowId, iv: nat)
    requires Inverse(cx) && AllCanonical(cx, t)
    ensures AllCanonical(cx, MarkRecalled(cx, t, id, iv))
  {
    assert cx.read(cx.show(Object([]))) == Object([]);
  }

  /** Recalling empties one entry's body and flags it; its fixed part, its other details and every
      other entry stay. */
  lemma RecallMeaning(cx: Codec, t: Table, id: RowId, iv: nat)
    requires Inverse(cx) && id in t
    ensures var before, after := View(cx, t), View(cx, MarkRecalled(cx, t, id, iv));
      after == before[id := before[id].(body := before[id].body.(content := Object([]), recalled := true))]
  {
    var before, after := View(cx, t), View(cx, MarkRecalled(cx, t, id, iv));
    assert cx.read(cx.show(Object([]))) == Object([]);
    assert after[id] == before[id].(body := before[id].body.(content := Object([]), recalled := true));
  }

  /** Canonical rows that say the same agree in every plain column and in their decrypted text. */
  lemma SameEntrySameColumns(cx: Codec, id: RowId, a: Row, b: Row)
    requires Inverse(cx) && Canonical(cx, a) && Canonical(cx, b)
    requires EntryOf(Read(cx, id, a)) == EntryOf(Read(cx, id, b))
    ensures a.fixed == b.fixed && a.meta == b.meta && cx.unseal(a.sealed) == cx.unseal(b.sealed)
  {
    SameMentions(cx, a, b, id);
  }

  lemma SameMentions(cx: Codec, a: Row, b: Row, id: RowId)
    requires Inverse(cx) && Canonical(cx, a) && Canonical(cx, b)
    requires BodyOf(Read(cx, id, a)).mentions == BodyOf(Read(cx, id, b)).mentions
    ensures a.meta.mentions == b.meta.mentions
  {
    MentionsRead(cx, a, id);
    MentionsRead(cx, b, id);
  }

  lemma MentionsRead(cx: Codec, r: Row, id: RowId)
    requires Inverse(cx) && Canonical(cx, r)
    ensures var names := BodyOf(Read(cx, id, r)).mentions;
      r.meta.mentions == if names == [] then None else Some(cx.show(Items(Texts(names))))
  {
    if r.meta.mentions.Some? {
      var names :| names != [] && r.meta.mentions.value == cx.show(Items(Texts(names)));
      assert cx.read(cx.show(Items(Texts(names)))) == Items(Texts(names));
      NamesOfTexts(names);
    }
  }
}
