/** The store's actions over its fields, writing through to the encrypted archive. */
module ChatStore {
  import opened Common
  import opened Paging
  import opened ArchiveRows
  import ArchiveStore
  import opened ChatState
  import ChatMerge
  import Reactions

  class Store {
    var mem: map<ConvId, seq<ChatMessage>>
    var cache: map<ConvId, seq<ChatMessage>>
    var last: map<ConvId, int>
    const archive: ArchiveStore.Archive
    const dates: Dates

    ghost function View(): State
      reads this, archive
    {
      State(mem, cache, ArchiveRows.View(archive.cx, archive.rows), last)
    }

    constructor (archive: ArchiveStore.Archive, dates: Dates)
      ensures this.archive == archive && this.dates == dates
      ensures mem == map[] && cache == map[] && last == map[]
    {
      mem, cache, last := map[], map[], map[];
      this.archive := archive;
      this.dates := dates;
    }

    /** Writes one message through; its nonce is arbitrary. */
    method ArchiveAppend(m: Message)
      requires Inverse(archive.cx)
      modifies archive
      ensures ArchiveRows.View(archive.cx, archive.rows) == Put(old(ArchiveRows.View(archive.cx, archive.rows)), m)
    {
      var iv: nat := *;
      UpsertIsPut(archive.cx, archive.rows, m, iv);
      archive.AppendMessage(m, iv);
    }

    method ArchiveRemove(id: RowId)
      modifies archive
      ensures ArchiveRows.View(archive.cx, archive.rows) == old(ArchiveRows.View(archive.cx, archive.rows)) - {id}
    {
      archive.Remove(id);
    }

    method ArchiveAll(list: seq<ChatMessage>)
      requires Inverse(archive.cx)
      modifies archive
      ensures ArchiveRows.View(archive.cx, archive.rows) ==
        PutAll(old(ArchiveRows.View(archive.cx, archive.rows)), list)
    {
      var i := 0;
      ghost var before := ArchiveRows.View(archive.cx, archive.rows);
      while i < |list|
        invariant 0 <= i <= |list|
        invariant PutAll(ArchiveRows.View(archive.cx, archive.rows), list[i..]) == PutAll(before, list)
      {
        assert list[i..][1..] == list[i + 1..];
        ArchiveAppend(list[i].core);
        i := i + 1;
      }
    }

    method CacheMessages(c: ConvId, list: seq<ChatMessage>)
      modifies this`cache
      ensures cache == old(cache)[c := Last(list, CACHE_LIMIT)]
    {
      cache := cache[c := if |list| <= CACHE_LIMIT then list else list[|list| - CACHE_LIMIT..]];
    }

    method SetMessages(c: ConvId, list: seq<ChatMessage>)
      requires Inverse(archive.cx)
      modifies this, archive
      ensures View() == ChatState.SetMessages(old(View()), c, list)
    {
      var ordered := Reverse(list);
      CacheMessages(c, ordered);
      ArchiveAll(ordered);
      mem := mem[c := ordered];
    }

    /** Adds the messages not listed yet, then sorts. */
    method MergeMessages(c: ConvId, list: seq<ChatMessage>)
      requires Inverse(archive.cx)
      modifies this, archive
      ensures View() == ChatState.MergeMessages(old(View()), c, list)
      ensures c in mem && ChatMerge.Sorted(mem[c])
      ensures forall id :: HasId(mem[c], id) <==> HasId(ListOf(old(View()), c), id) || HasId(list, id)
      ensures forall m :: m in ListOf(old(View()), c) ==> m in mem[c]
    {
      var existing := if c in mem then mem[c] else [];
      var seen := IdSet(existing);
      var merged := existing;
      var i := 0;
      ghost var before := ArchiveRows.View(archive.cx, archive.rows);
      while i < |list|
        invariant 0 <= i <= |list| && mem == old(mem) && cache == old(cache) && last == old(last)
        invariant merged + Unseen(seen, list[i..]) == existing + Unseen(IdSet(existing), list)
        invariant PutAll(ArchiveRows.View(archive.cx, archive.rows), Unseen(seen, list[i..])) ==
          PutAll(before, Unseen(IdSet(existing), list))
      {
        var m := list[i];
        UnseenStep(seen, list[i..]);
        assert list[i..][1..] == list[i + 1..];
        if m.core.id !in seen {
          merged := merged + [m];
          seen := seen + {m.core.id};
          ArchiveAppend(m.core);
        }
        i := i + 1;
      }
      assert merged + [] == merged;
      merged := Sort(merged);
      assert merged == Merged(existing, list);
      ChatMerge.MergedElements(existing, list);
      ChatMerge.IdsOfUnion(existing, list);
      CacheMessages(c, merged);
      mem := mem[c := merged];
    }

    method AppendMessage(m: ChatMessage)
      requires Inverse(archive.cx)
      modifies this, archive
      ensures View() == ChatState.AppendMessage(old(View()), m)
    {
      var c := m.core.conv;
      if m.core.seqNo > (if c in last then last[c] else 0) {
        last := last[c := m.core.seqNo];
      }
      ArchiveAppend(m.core);
      var existing := if c in mem then mem[c] else [];
      if exists k :: k in existing && k.core.id == m.core.id {
        return;
      }
      CacheMessages(c, existing + [m]);
      mem := mem[c := existing + [m]];
    }

    /** The position of the first message with an id, or -1. */
    static method FindIndex(list: seq<ChatMessage>, id: RowId) returns (i: int)
      ensures i == IndexOf(list, id)
    {
      i := 0;
      while i < |list|
        invariant 0 <= i <= |list|
        invariant IndexOf(list, id) == if IndexOf(list[i..], id) < 0 then -1 else i + IndexOf(list[i..], id)
      {
        if list[i].core.id == id {
          return;
        }
        assert list[i..][1..] == list[i + 1..];
        i := i + 1;
      }
      i := -1;
    }

    method ReplaceMessage(m: ChatMessage, now: Time)
      requires Inverse(archive.cx)
      modifies this, archive
      ensures View() == ChatState.ReplaceMessage(dates, old(View()), m, now)
    {
      if PastWindow(dates, m.core.createdAt, now) {
        return;
      }
      ArchiveAppend(m.core);
      var c := m.core.conv;
      if c in mem {
        var i := FindIndex(mem[c], m.core.id);
        if i >= 0 {
          var next := mem[c][i := m];
          CacheMessages(c, next);
          mem := mem[c := next];
        }
      }
    }

    static method Filtered(list: seq<ChatMessage>, id: RowId) returns (next: seq<ChatMessage>)
      ensures next == Without(list, id)
    {
      next := [];
      var i := 0;
      while i < |list|
        invariant 0 <= i <= |list| && next + Without(list[i..], id) == Without(list, id)
      {
        assert list[i..][1..] == list[i + 1..];
        if list[i].core.id != id {
          next := next + [list[i]];
        }
        i := i + 1;
      }
    }

    method RemoveMessage(c: ConvId, id: RowId, now: Time)
      modifies this, archive
      ensures View() == ChatState.RemoveMessage(dates, old(View()), c, id, now)
    {
      if c in mem {
        var i := FindIndex(mem[c], id);
        if i >= 0 && !PastWindow(dates, mem[c][i].core.createdAt, now) {
          ArchiveRemove(id);
        }
        var next := Filtered(mem[c], id);
        if |next| != |mem[c]| {
          CacheMessages(c, next);
          mem := mem[c := next];
        }
      }
    }

    method ApplyReactionUpdate(c: ConvId, id: RowId, reactions: seq<Reactions.ReactionCount>)
      modifies this
      ensures View() == ChatState.ApplyReactionUpdate(old(View()), c, id, reactions)
    {
      if c in mem {
        var i := FindIndex(mem[c], id);
        if i >= 0 {
          var next := mem[c][i := mem[c][i].(reactions := reactions)];
          CacheMessages(c, next);
          mem := mem[c := next];
        }
      }
    }

    method HydrateFromCache()
      modifies this`mem
      ensures View() == ChatState.HydrateFromCache(old(View()))
    {
      mem := cache + mem;
    }
  }

  lemma UnseenStep(seen: set<RowId>, list: seq<ChatMessage>)
    requires list != []
    ensures Unseen(seen, list) ==
      if list[0].core.id in seen then Unseen(seen, list[1..])
      else [list[0]] + Unseen(seen + {list[0].core.id}, list[1..])
    ensures list[0].core.id !in seen ==> (forall archive ::
      PutAll(archive, Unseen(seen, list)) ==
      PutAll(Put(archive, list[0].core), Unseen(seen + {list[0].core.id}, list[1..])))
  {
    if list[0].core.id !in seen {
      var tail := Unseen(seen + {list[0].core.id}, list[1..]);
      assert ([list[0]] + tail)[1..] == tail;
    }
  }
}
