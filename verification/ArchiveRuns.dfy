/** Every archive a run of its operations can leave, and what a transfer keeps of it down to the columns. */
module ArchiveRuns {
  import opened ArchiveRows
  import opened ArchiveTransfer

  datatype Event =
    | Appends(message: Message, iv: nat)
    | Recalls(id: RowId, iv: nat)
    | Removes(id: RowId)
    | Imports(file: seq<Message>, ivs: seq<nat>)

  /** Each imported message is encrypted with its own nonce. */
  predicate Possible(e: Event) {
    e.Imports? ==> |e.ivs| == |e.file|
  }

  function Apply(cx: Codec, t: Table, e: Event): Table
    requires Possible(e)
  {
    match e
    case Appends(m, iv) => Upsert(cx, t, m, iv)
    case Recalls(id, iv) => MarkRecalled(cx, t, id, iv)
    case Removes(id) => Remove(t, id)
    case Imports(file, ivs) => Import(cx, t, file, ivs)
  }

  function After(cx: Codec, t: Table, run: seq<Event>): Table
    requires forall e :: e in run ==> Possible(e)
    decreases |run|
  {
    if run == [] then t else After(cx, Apply(cx, t, run[0]), run[1..])
  }

  lemma UpsertCanonical(cx: Codec, t: Table, m: Message, iv: nat)
    requires Inverse(cx) && AllCanonical(cx, t)
    ensures AllCanonical(cx, Upsert(cx, t, m, iv))
  {
    StoredIsCanonical(cx, m, iv);
  }

  lemma {:induction false} ImportCanonical(cx: Codec, t: Table, file: seq<Message>, ivs: seq<nat>)
    requires Inverse(cx) && AllCanonical(cx, t) && |ivs| == |file|
    ensures AllCanonical(cx, Import(cx, t, file, ivs))
    decreases |file|
  {
    if file != [] {
      UpsertCanonical(cx, t, file[0], ivs[0]);
      ImportCanonical(cx, Upsert(cx, t, file[0], ivs[0]), file[1..], ivs[1..]);
    }
  }

  /** Over every run the archive holds only rows of the form the upsert and the recall write. */
  lemma {:induction false} AlwaysCanonical(cx: Codec, t: Table, run: seq<Event>)
    requires Inverse(cx) && AllCanonical(cx, t) && forall e :: e in run ==> Possible(e)
    ensures AllCanonical(cx, After(cx, t, run))
    decreases |run|
  {
    if run != [] {
      assert run[0] in run && forall e :: e in run[1..] ==> e in run;
      match run[0] {
        case Appends(m, iv) => UpsertCanonical(cx, t, m, iv);
        case Recalls(id, iv) => RecalledIsCanonical(cx, t, id, iv);
        case Removes(id) =>
        case Imports(file, ivs) => ImportCanonical(cx, t, file, ivs);
      }
      AlwaysCanonical(cx, Apply(cx, t, run[0]), run[1..]);
    }
  }

  /** The same rows in every plain column and in plaintext; only the encryption may differ. */
  ghost predicate SameColumns(cx: Codec, t: Table, s: Table) {
    s.Keys == t.Keys &&
    forall id :: id in t ==>
      s[id].fixed == t[id].fixed && s[id].meta == t[id].meta && cx.unseal(s[id].sealed) == cx.unseal(t[id].sealed)
  }

  lemma SameViewSameColumns(cx: Codec, t: Table, s: Table)
    requires Inverse(cx) && AllCanonical(cx, t) && AllCanonical(cx, s) && View(cx, s) == View(cx, t)
    ensures SameColumns(cx, t, s)
  {
    assert s.Keys == View(cx, s).Keys && t.Keys == View(cx, t).Keys;
    forall id | id in t
      ensures s[id].fixed == t[id].fixed && s[id].meta == t[id].meta
        && cx.unseal(s[id].sealed) == cx.unseal(t[id].sealed)
    {
      assert View(cx, s)[id] == View(cx, t)[id];
      SameEntrySameColumns(cx, id, s[id], t[id]);
    }
  }

  /** Exporting any archive a run can leave and importing the file into an empty one gives back every
      column as it was, empty mentions as NULL and a zero edit count as zero. */
  lemma ExportThenImportColumns(cx: Codec, run: seq<Event>, file: seq<Message>, ivs: seq<nat>)
    requires Inverse(cx) && (forall e :: e in run ==> Possible(e))
    requires IsExport(cx, After(cx, map[], run), file) && |ivs| == |file|
    ensures SameColumns(cx, After(cx, map[], run), Import(cx, map[], file, ivs))
  {
    var t := After(cx, map[], run);
    AlwaysCanonical(cx, map[], run);
    ExportThenImport(cx, t, file, ivs);
    ImportCanonical(cx, map[], file, ivs);
    SameViewSameColumns(cx, t, Import(cx, map[], file, ivs));
  }

  /** Importing it back into its own archive changes no column. */
  lemma ExportThenReimportColumns(cx: Codec, run: seq<Event>, file: seq<Message>, ivs: seq<nat>)
    requires Inverse(cx) && (forall e :: e in run ==> Possible(e))
    requires IsExport(cx, After(cx, map[], run), file) && |ivs| == |file|
    ensures var t := After(cx, map[], run);
      SameColumns(cx, t, Import(cx, t, file, ivs))
  {
    var t := After(cx, map[], run);
    AlwaysCanonical(cx, map[], run);
    ExportThenReimport(cx, t, file, ivs);
    ImportCanonical(cx, t, file, ivs);
    SameViewSameColumns(cx, t, Import(cx, t, file, ivs));
  }
}
