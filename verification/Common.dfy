/** Shared vocabulary. */
module Common {

  datatype Option<+T> = None | Some(value: T)

  /** Time on one clock, in seconds. */
  type Time = int

  ghost predicate Distinct<T>(s: seq<T>) {
    forall i, j :: 0 <= i < j < |s| ==> s[i] != s[j]
  }

  lemma SomeElement<T>(s: set<T>) returns (x: T)
    requires s != {}
    ensures x in s
  {
    x :| x in s;
  }
}
