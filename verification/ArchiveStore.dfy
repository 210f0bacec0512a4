/** The archive's operations over its table. Nonces are parameters. */
module ArchiveStore {
  import opened Common
  import opened ArchiveRows
  import opened ArchiveTransfer
  import opened ArchivePaging
  import opened ArchiveOrder

  function Ids(messages: seq<Message>): seq<RowId> {
    seq(|messages|, i requires 0 <= i < |messages| => messages[i].id)
  }

  class Archive {
    var rows: Table
    const cx: Codec

    constructor (cx: Codec)
      ensures rows == map[] && this.cx == cx
    {
      rows := map[];
      this.cx := cx;
    }

    /** Inserts a row, or overwrites everything but the fixed columns of the one there is. */
    method AppendMessage(m: Message, iv: nat)
      modifies this
      ensures rows == Upsert(cx, old(rows), m, iv)
    {
      var sealed := cx.seal(iv, TextOf(cx, m));
      if m.id in rows {
        rows := rows[m.id := rows[m.id].(sealed := sealed, meta := MetaOf(cx, m))];
      } else {
        rows := rows[m.id := Row(FixedOf(m), sealed, MetaOf(cx, m))];
      }
    }

    method MarkRecalled(id: RowId, iv: nat)
      modifies this
      ensures rows == ArchiveRows.MarkRecalled(cx, old(rows), id, iv)
    {
      if id in rows {
        rows := rows[id := rows[id].(sealed := cx.seal(iv, "{}"), meta := rows[id].meta.(recalled := 1))];
      }
    }

    method Remove(id: RowId)
      modifies this
      ensures rows == ArchiveRows.Remove(old(rows), id)
    {
      rows := rows - {id};
    }

    method HighestOf(ids: set<RowId>) returns (top: RowId)
      requires ids != {}
      ensures top in ids && forall id :: id in ids ==> SeqAt(rows, id) <= SeqAt(rows, top)
    {
      top :| top in ids;
      var rest := ids - {top};
      while rest != {}
        invariant rest <= ids && top in ids
        invariant forall id :: id in ids && id !in rest ==> SeqAt(rows, id) <= SeqAt(rows, top)
        decreases |rest|
      {
        var id :| id in rest;
        if SeqAt(rows, id) > SeqAt(rows, top) {
          top := id;
        }
        rest := rest - {id};
      }
    }

    /** The newest rows of a conversation before a cursor, decrypted. */
    method QueryByConv(c: string, limit: int, before: Option<int>) returns (page: seq<Message>)
      ensures IsPage(rows, c, limit, before, Ids(page))
      ensures forall m :: m in page ==> m.id in rows && m == Read(cx, m.id, rows[m.id])
    {
      page := [];
      ghost var taken: seq<RowId> := [];
      var left := Eligible(rows, c, before);
      while |page| < Clamp(limit) && left != {}
        invariant |page| <= Clamp(limit) && taken == Ids(page)
        invariant LeftOf(rows, c, before, taken, left)
        invariant forall m :: m in page ==> m.id in rows && m == Read(cx, m.id, rows[m.id])
        decreases |left|
      {
        var top := HighestOf(left);
        LeftStep(rows, c, before, taken, left, top);
        page := page + [Read(cx, top, rows[top])];
        taken := taken + [top];
        left := left - {top};
        assert Ids(page) == taken;
      }
      LeftIsPage(rows, c, limit, before, taken, left);
    }

    /** The highest seq held for a conversation, or 0 when there is none. */
    method MaxSeq(c: string) returns (n: int)
      ensures Eligible(rows, c, None) == {} ==> n == 0
      ensures forall id :: id in Eligible(rows, c, None) ==> rows[id].fixed.seqNo <= n
      ensures Eligible(rows, c, None) != {} ==> exists id :: id in Eligible(rows, c, None) && rows[id].fixed.seqNo == n
    {
      var ids := Eligible(rows, c, None);
      if ids == {} {
        return 0;
      }
      var top := HighestOf(ids);
      n := rows[top].fixed.seqNo;
      assert forall id :: id in ids ==> SeqAt(rows, id) <= n;
    }

    /** A row that none of the others belongs before. */
    method LeastOf(ids: set<RowId>) returns (least: RowId)
      requires ids != {} && ids <= rows.Keys
      ensures least in ids && forall id :: id in ids ==> !Before(rows[id].fixed, rows[least].fixed)
    {
      least :| least in ids;
      var rest := ids;
      while rest != {}
        invariant rest <= ids && least in ids
        invariant forall id :: id in ids && id !in rest ==> !Before(rows[id].fixed, rows[least].fixed)
        decreases |rest|
      {
        var id :| id in rest;
        if Before(rows[id].fixed, rows[least].fixed) {
          forall x | x in ids && x !in rest ensures !Before(rows[x].fixed, rows[id].fixed) {
            if Before(rows[x].fixed, rows[id].fixed) {
              BeforeTransitive(rows[x].fixed, rows[id].fixed, rows[least].fixed);
            }
          }
          Irreflexive(rows[id].fixed);
          least := id;
        } else {
          assert !Before(rows[id].fixed, rows[least].fixed);
        }
        rest := rest - {id};
      }
    }

    /** Every row once, decrypted, by conversation and seq, as the file's message list. */
    method ExportAll() returns (file: seq<Message>)
      ensures IsExport(cx, rows, file) && InExportOrder(file)
      ensures |file| == |rows|
    {
      file := [];
      var todo := rows.Keys;
      while todo != {}
        invariant |file| + |todo| == |rows| && Written(cx, rows, todo, file)
        decreases |todo|
      {
        var id := LeastOf(todo);
        WriteNext(cx, rows, todo, file, id);
        file := file + [Read(cx, id, rows[id])];
        todo := todo - {id};
      }
    }

    /** Upserts a file's messages; a file without a message list imports nothing. */
    method ImportMessages(file: Option<seq<Message>>, ivs: seq<nat>) returns (n: nat)
      requires file.Some? ==> |ivs| == |file.value|
      modifies this
      ensures file.None? ==> n == 0 && rows == old(rows)
      ensures file.Some? ==> n == |file.value| && rows == Import(cx, old(rows), file.value, ivs)
    {
      n := 0;
      if file.None? {
        return;
      }
      var messages := file.value;
      while n < |messages|
        invariant 0 <= n <= |messages|
        invariant Import(cx, rows, messages[n..], ivs[n..]) == Import(cx, old(rows), messages, ivs)
      {
        assert messages[n..][1..] == messages[n + 1..] && ivs[n..][1..] == ivs[n + 1..];
        AppendMessage(messages[n], ivs[n]);
        n := n + 1;
      }
    }
  }

  /** The file so far: every row not left to do, once, and none that a remaining one belongs before. */
  ghost predicate Written(cx: Codec, t: Table, todo: set<RowId>, file: seq<Message>) {
    todo <= t.Keys && InExportOrder(file) &&
    (forall i, j :: 0 <= i < j < |file| ==> file[i].id != file[j].id) &&
    (forall m :: m in file ==> m.id in t && m.id !in todo && m == Read(cx, m.id, t[m.id])) &&
    (forall id :: id in t && id !in todo ==> Holds(file, id)) &&
    (forall m, id :: m in file && id in todo ==> !Before(t[id].fixed, FixedOf(m)))
  }

  lemma WriteNext(cx: Codec, t: Table, todo: set<RowId>, file: seq<Message>, id: RowId)
    requires Written(cx, t, todo, file) && id in todo
    requires forall other :: other in todo ==> !Before(t[other].fixed, t[id].fixed)
    ensures Written(cx, t, todo - {id}, file + [Read(cx, id, t[id])])
  {
    var m := Read(cx, id, t[id]);
    var more := file + [m];
    assert FixedOf(m) == t[id].fixed;
    HoldsMore(file, m);
    OrderMore(file, m);
    assert forall k :: k in more <==> k in file || k == m;
    forall i, j | 0 <= i < j < |more| ensures more[i].id != more[j].id {
      assert more[i] in file;
    }
  }

  lemma HoldsMore(file: seq<Message>, m: Message)
    ensures forall id :: Holds(file + [m], id) <==> Holds(file, id) || id == m.id
  {
    assert m in file + [m];
    forall id | Holds(file, id) ensures Holds(file + [m], id) {
      assert FirstOf(file, id) in file + [m];
    }
  }

  lemma OrderMore(file: seq<Message>, m: Message)
    requires InExportOrder(file) && forall k :: k in file ==> !Before(FixedOf(m), FixedOf(k))
    ensures InExportOrder(file + [m])
  {
    assert forall i :: 0 <= i < |file| ==> file[i] in file;
  }
}
