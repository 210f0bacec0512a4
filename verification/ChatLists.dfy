/** No list ever shows a message twice. */
module ChatLists {
  import opened Paging
  import opened ArchiveRows
  import opened ChatState
  import opened ChatMerge
  import ChatArchive

  ghost predicate NoRepeats(s: State) {
    (forall c :: c in s.mem ==> DistinctIds(s.mem[c])) && (forall c :: c in s.cache ==> DistinctIds(s.cache[c]))
  }

  lemma {:induction false} WithoutDistinct(list: seq<ChatMessage>, id: RowId)
    requires DistinctIds(list)
    ensures DistinctIds(Without(list, id))
  {
    if list != [] {
      var rest := Without(list[1..], id);
      WithoutDistinct(list[1..], id);
      ChatArchive.WithoutElements(list[1..], id);
      forall j | 0 <= j < |rest| ensures rest[j].core.id != list[0].core.id {
        assert rest[j] in rest;
      }
      assert Without(list, id) == if list[0].core.id == id then rest else [list[0]] + rest;
    }
  }

  lemma ReverseDistinct(list: seq<ChatMessage>)
    requires DistinctIds(list)
    ensures DistinctIds(Reverse(list))
  {
    var r := Reverse(list);
    if list != [] {
      ReverseAt(list, 0);
    }
    forall i, j | 0 <= i < j < |r| ensures r[i].core.id != r[j].core.id {
      ReverseAt(list, i);
      ReverseAt(list, j);
    }
  }

  lemma SnocDistinct(list: seq<ChatMessage>, m: ChatMessage)
    requires DistinctIds(list) && !HasId(list, m.core.id)
    ensures DistinctIds(list + [m])
  {
    assert forall i :: 0 <= i < |list| ==> list[i] in list;
  }

  /** The list an action shows. */
  lemma ShowNoRepeats(s: State, c: ConvId, list: seq<ChatMessage>)
    requires NoRepeats(s) && DistinctIds(list)
    ensures NoRepeats(Show(s, c, list))
  {
  }

  lemma NoRepeatsStep(dates: Dates, s: State, e: Event)
    requires NoRepeats(s) && (e.Sets? ==> DistinctIds(e.list))
    ensures NoRepeats(Apply(dates, s, e))
  {
    match e
    case Sets(c, list) =>
      ReverseDistinct(list);
      ShowNoRepeats(s, c, Reverse(list));
    case Merges(c, list) =>
      MergeIsUnion(ListOf(s, c), list);
      ShowNoRepeats(s, c, Merged(ListOf(s, c), list));
    case Appends(m) =>
      var list := ListOf(s, m.core.conv);
      if !HasId(list, m.core.id) {
        SnocDistinct(list, m);
        ShowNoRepeats(s, m.core.conv, list + [m]);
      }
    case Replaces(m, now) =>
      var i := IndexOf(ListOf(s, m.core.conv), m.core.id);
      if i >= 0 {
        ShowNoRepeats(s, m.core.conv, ListOf(s, m.core.conv)[i := m]);
      }
    case Removes(c, id, now) =>
      WithoutDistinct(ListOf(s, c), id);
      ShowNoRepeats(s, c, Without(ListOf(s, c), id));
    case Reacts(c, id, reactions) =>
      var i := IndexOf(ListOf(s, c), id);
      if i >= 0 {
        ShowNoRepeats(s, c, ListOf(s, c)[i := ListOf(s, c)[i].(reactions := reactions)]);
      }
    case Hydrates =>
    case Restarts =>
  }

  /** If the fetched windows repeat no message, no list does, in memory or cache, after any run. */
  lemma {:induction false} AlwaysNoRepeats(dates: Dates, s: State, run: seq<Event>)
    requires NoRepeats(s) && forall e :: e in run && e.Sets? ==> DistinctIds(e.list)
    ensures NoRepeats(After(dates, s, run))
    decreases |run|
  {
    if run != [] {
      assert run[0] in run && forall e :: e in run[1..] ==> e in run;
      NoRepeatsStep(dates, s, run[0]);
      AlwaysNoRepeats(dates, Apply(dates, s, run[0]), run[1..]);
    }
  }
}
