/** Exporting the archive to a plain file and importing it, here or on another device. */
module ArchiveTransfer {
  import opened ArchiveRows

  /** Upserting a file's messages in order; each encryption takes its own nonce. */
  function Import(cx: Codec, t: Table, file: seq<Message>, ivs: seq<nat>): Table
    requires |ivs| == |file|
    decreases |file|
  {
    if file == [] then t else Import(cx, Upsert(cx, t, file[0], ivs[0]), file[1..], ivs[1..])
  }

  /** A file that holds every row once, in any order. */
  ghost predicate IsExport(cx: Codec, t: Table, file: seq<Message>) {
    (forall i, j :: 0 <= i < j < |file| ==> file[i].id != file[j].id) &&
    (forall m :: m in file ==> m.id in t && m == Read(cx, m.id, t[m.id])) &&
    (forall id :: id in t ==> Holds(file, id))
  }

  predicate Holds(file: seq<Message>, id: RowId) {
    exists m :: m in file && m.id == id
  }

  // ---- what an import does --------------------------------------------------------------------

  function Puts(v: map<RowId, Entry>, file: seq<Message>): map<RowId, Entry>
    decreases |file|
  {
    if file == [] then v else Puts(Put(v, file[0]), file[1..])
  }

  lemma {:induction false} ImportIsPuts(cx: Codec, t: Table, file: seq<Message>, ivs: seq<nat>)
    requires Inverse(cx) && |ivs| == |file|
    ensures View(cx, Import(cx, t, file, ivs)) == Puts(View(cx, t), file)
    decreases |file|
  {
    if file != [] {
      UpsertIsPut(cx, t, file[0], ivs[0]);
      ImportIsPuts(cx, Upsert(cx, t, file[0], ivs[0]), file[1..], ivs[1..]);
    }
  }

  function FirstOf(file: seq<Message>, id: RowId): (m: Message)
    requires Holds(file, id)
    ensures m in file && m.id == id
  {
    if file[0].id == id then file[0] else FirstOf(file[1..], id)
  }

  function LastOf(file: seq<Message>, id: RowId): (m: Message)
    requires Holds(file, id)
    ensures m in file && m.id == id
  {
    if Holds(file[1..], id) then LastOf(file[1..], id) else file[0]
  }

  /** An import adds the ids it holds and loses none; an id's fixed part is the one it had, or the
      file's first for it, and its body is the file's last. */
  lemma {:induction false} PutsEffect(v: map<RowId, Entry>, file: seq<Message>, id: RowId)
    ensures id in Puts(v, file) <==> id in v || Holds(file, id)
    ensures id in v ==> Puts(v, file)[id].fixed == v[id].fixed
    ensures id in v && !Holds(file, id) ==> Puts(v, file)[id] == v[id]
    ensures Holds(file, id) ==> Puts(v, file)[id].body == BodyOf(LastOf(file, id))
    ensures Holds(file, id) && id !in v ==> Puts(v, file)[id].fixed == FixedOf(FirstOf(file, id))
    decreases |file|
  {
    if file != [] {
      PutsEffect(Put(v, file[0]), file[1..], id);
      assert Holds(file, id) <==> file[0].id == id || Holds(file[1..], id);
    }
  }

  /** Importing any file a second time changes nothing. */
  lemma ImportTwice(cx: Codec, t: Table, file: seq<Message>, ivs: seq<nat>, again: seq<nat>)
    requires Inverse(cx) && |ivs| == |file| == |again|
    ensures var once := Import(cx, t, file, ivs);
      View(cx, Import(cx, once, file, again)) == View(cx, once)
  {
    var once := Import(cx, t, file, ivs);
    var v := View(cx, t);
    ImportIsPuts(cx, t, file, ivs);
    ImportIsPuts(cx, once, file, again);
    forall id ensures id in Puts(Puts(v, file), file) <==> id in Puts(v, file)
      ensures id in Puts(v, file) ==> Puts(Puts(v, file), file)[id] == Puts(v, file)[id]
    {
      PutsEffect(v, file, id);
      PutsEffect(Puts(v, file), file, id);
    }
  }

  /** Putting an export over some of its own entries gives all of them. */
  lemma ExportPuts(cx: Codec, t: Table, file: seq<Message>, v: map<RowId, Entry>)
    requires IsExport(cx, t, file)
    requires forall id :: id in v ==> id in t && v[id] == View(cx, t)[id]
    ensures Puts(v, file) == View(cx, t)
  {
    forall id ensures id in Puts(v, file) <==> id in t
      ensures id in t ==> Puts(v, file)[id] == View(cx, t)[id]
    {
      PutsEffect(v, file, id);
      if id in t {
        assert Holds(file, id);
        assert LastOf(file, id) == Read(cx, id, t[id]);
      }
    }
  }

  /** Importing an export into an empty archive gives back every entry and no other. */
  lemma ExportThenImport(cx: Codec, t: Table, file: seq<Message>, ivs: seq<nat>)
    requires Inverse(cx) && IsExport(cx, t, file) && |ivs| == |file|
    ensures View(cx, Import(cx, map[], file, ivs)) == View(cx, t)
  {
    ImportIsPuts(cx, map[], file, ivs);
    ExportPuts(cx, t, file, map[]);
    assert View(cx, map[]) == map[];
  }

  /** Importing an export into the archive it came from changes no entry. */
  lemma ExportThenReimport(cx: Codec, t: Table, file: seq<Message>, ivs: seq<nat>)
    requires Inverse(cx) && IsExport(cx, t, file) && |ivs| == |file|
    ensures View(cx, Import(cx, t, file, ivs)) == View(cx, t)
  {
    ImportIsPuts(cx, t, file, ivs);
    ExportPuts(cx, t, file, View(cx, t));
  }
}
