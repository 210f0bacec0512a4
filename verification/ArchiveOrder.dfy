/** The order of an export: by conversation, then by seq. */
module ArchiveOrder {
  import opened ArchiveRows

  /** Character by character, a prefix first. */
  predicate TextBefore(a: string, b: string) {
    b != "" && (a == "" || a[0] < b[0] || (a[0] == b[0] && TextBefore(a[1..], b[1..])))
  }

  predicate Before(a: Fixed, b: Fixed) {
    TextBefore(a.conv, b.conv) || (a.conv == b.conv && a.seqNo < b.seqNo)
  }

  /** No message comes after one it belongs before. */
  ghost predicate InExportOrder(file: seq<Message>) {
    forall i, j :: 0 <= i < j < |file| ==> !Before(FixedOf(file[j]), FixedOf(file[i]))
  }

  lemma {:induction false} TextBeforeTransitive(a: string, b: string, c: string)
    requires TextBefore(a, b) && TextBefore(b, c)
    ensures TextBefore(a, c)
  {
    if a != "" && a[0] == b[0] == c[0] {
      TextBeforeTransitive(a[1..], b[1..], c[1..]);
    }
  }

  lemma BeforeTransitive(a: Fixed, b: Fixed, c: Fixed)
    requires Before(a, b) && Before(b, c)
    ensures Before(a, c)
  {
    if TextBefore(a.conv, b.conv) && TextBefore(b.conv, c.conv) {
      TextBeforeTransitive(a.conv, b.conv, c.conv);
    }
  }

  lemma {:induction false} TextNotBeforeItself(a: string)
    ensures !TextBefore(a, a)
  {
    if a != "" {
      TextNotBeforeItself(a[1..]);
    }
  }

  lemma Irreflexive(a: Fixed)
    ensures !Before(a, a)
  {
    TextNotBeforeItself(a.conv);
  }
}
