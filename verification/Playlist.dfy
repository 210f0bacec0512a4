/** The edge's HLS text handling (njs/hls.js): playlist rewriting and segment names. */
module Playlist {

  // ---- lines ------------------------------------------------------------------------------------

  function Split(s: string): (lines: seq<string>)
    ensures lines != []
  {
    if s == [] then [""]
    else
      var rest := Split(s[1..]);
      if s[0] == '\n' then [""] + rest else [[s[0]] + rest[0]] + rest[1..]
  }

  function Join(lines: seq<string>): string {
    if lines == [] then "" else if |lines| == 1 then lines[0] else lines[0] + "\n" + Join(lines[1..])
  }

  predicate OneLine(s: string) {
    '\n' !in s
  }

  predicate Lines(lines: seq<string>) {
    lines != [] && forall l :: l in lines ==> OneLine(l)
  }

  lemma {:induction false} SplitGivesLines(s: string)
    ensures Lines(Split(s))
  {
    if s != [] {
      SplitGivesLines(s[1..]);
      var rest := Split(s[1..]);
      assert rest[0] in rest && forall l :: l in rest[1..] ==> l in rest;
    }
  }

  lemma {:induction false} JoinOfSplit(s: string)
    ensures Join(Split(s)) == s
  {
    if s != [] {
      JoinOfSplit(s[1..]);
      var rest := Split(s[1..]);
      if s[0] == '\n' {
        assert ([""] + rest)[1..] == rest;
      } else {
        assert ([[s[0]] + rest[0]] + rest[1..])[1..] == rest[1..];
      }
      assert s == [s[0]] + s[1..];
    }
  }

  lemma {:induction false} SplitOfLine(l: string)
    requires OneLine(l)
    ensures Split(l) == [l]
  {
    if l != [] {
      SplitOfLine(l[1..]);
      assert l == [l[0]] + l[1..];
    }
  }

  lemma {:induction false} SplitAfterLine(l: string, rest: string)
    requires OneLine(l)
    ensures Split(l + "\n" + rest) == [l] + Split(rest)
  {
    var s := l + "\n" + rest;
    if l == [] {
      assert s[1..] == rest;
    } else {
      SplitAfterLine(l[1..], rest);
      assert s[1..] == l[1..] + "\n" + rest;
      assert l == [l[0]] + l[1..];
      assert ([l[1..]] + Split(rest))[1..] == Split(rest);
    }
  }

  lemma {:induction false} SplitOfJoin(lines: seq<string>)
    requires Lines(lines)
    ensures Split(Join(lines)) == lines
  {
    assert lines[0] in lines;
    if |lines| == 1 {
      SplitOfLine(lines[0]);
    } else {
      assert forall l :: l in lines[1..] ==> l in lines;
      SplitOfJoin(lines[1..]);
      SplitAfterLine(lines[0], Join(lines[1..]));
    }
  }

  // ---- rewriting ----------------------------------------------------------------------------------

  predicate HasCR(raw: string) {
    |raw| > 0 && raw[|raw| - 1] == '\r'
  }

  function Trimmed(raw: string): string {
    if HasCR(raw) then raw[..|raw| - 1] else raw
  }

  function Ending(raw: string): string {
    if HasCR(raw) then "\r" else ""
  }

  /** A URI line; the others are blank or start with '#' (section 4.1 of RFC 8216). */
  predicate IsUri(raw: string) {
    var t := Trimmed(raw);
    t != "" && t[0] != '#'
  }

  function RewriteLine(raw: string, qs: string): string {
    if !IsUri(raw) then raw
    else Trimmed(raw) + (if '?' in Trimmed(raw) then "&" else "?") + qs + Ending(raw)
  }

  function RewriteLines(lines: seq<string>, qs: string): seq<string> {
    seq(|lines|, i requires 0 <= i < |lines| => RewriteLine(lines[i], qs))
  }

  function Rewrite(body: string, qs: string): string {
    Join(RewriteLines(Split(body), qs))
  }

  /** The source's loop: each line is replaced in place. */
  method RewritePlaylist(body: string, qs: string) returns (text: string)
    ensures text == Rewrite(body, qs)
  {
    var all := Split(body);
    var lines := new string[|all|](i requires 0 <= i < |all| => all[i]);
    var i := 0;
    while i < lines.Length
      invariant 0 <= i <= lines.Length
      invariant forall k :: 0 <= k < i ==> lines[k] == RewriteLine(all[k], qs)
      invariant forall k :: i <= k < lines.Length ==> lines[k] == all[k]
    {
      var raw := lines[i];
      var hasCR := |raw| > 0 && raw[|raw| - 1] == '\r';
      var trimmed := if hasCR then raw[..|raw| - 1] else raw;
      assert hasCR == HasCR(raw) && trimmed == Trimmed(raw);
      if trimmed != "" && trimmed[0] != '#' {
        var sep := if '?' in trimmed then "&" else "?";
        lines[i] := trimmed + sep + qs + (if hasCR then "\r" else "");
      }
      i := i + 1;
    }
    assert lines[..] == RewriteLines(all, qs);
    text := Join(lines[..]);
  }

  /** Taking the last n characters off a URI line, before its CR. */
  function StripLine(raw: string, n: nat): string {
    var t := Trimmed(raw);
    if !IsUri(raw) then raw
    else (if |t| >= n then t[..|t| - n] else "") + Ending(raw)
  }

  function StripLines(lines: seq<string>, n: nat): seq<string> {
    seq(|lines|, i requires 0 <= i < |lines| => StripLine(lines[i], n))
  }

  function Strip(text: string, n: nat): string {
    Join(StripLines(Split(text), n))
  }

  /** A query string that adds no line and does not look like a line ending. */
  predicate Clean(qs: string) {
    OneLine(qs) && !HasCR(qs)
  }

  lemma RewrittenIsLine(raw: string, qs: string)
    requires OneLine(raw) && OneLine(qs)
    ensures OneLine(RewriteLine(raw, qs))
  {
  }

  /** Line by line: the count stays, blank and '#' lines are untouched, a URI keeps its text and its
      line ending around the added query. */
  lemma RewriteKeepsLines(body: string, qs: string)
    requires OneLine(qs)
    ensures var was, now := Split(body), Split(Rewrite(body, qs));
      && |now| == |was|
      && forall i :: 0 <= i < |was| ==>
        && now[i] == RewriteLine(was[i], qs)
        && (!IsUri(was[i]) ==> now[i] == was[i])
        && (Clean(qs) ==> HasCR(now[i]) == HasCR(was[i]) && IsUri(now[i]) == IsUri(was[i]))
        && (IsUri(was[i]) ==>
             now[i] == Trimmed(was[i]) + [if '?' in Trimmed(was[i]) then '&' else '?'] + qs + Ending(was[i]))
  {
    var was := Split(body);
    var lines := RewriteLines(was, qs);
    SplitGivesLines(body);
    forall l | l in lines ensures OneLine(l) {
      var i :| 0 <= i < |lines| && lines[i] == l;
      assert was[i] in was;
      RewrittenIsLine(was[i], qs);
    }
    SplitOfJoin(lines);
    forall i | 0 <= i < |was| && Clean(qs)
      ensures HasCR(lines[i]) == HasCR(was[i]) && IsUri(lines[i]) == IsUri(was[i])
    {
      RewrittenKind(was[i], qs);
    }
  }

  /** A URI cut at its first question mark: what is before it, and the query after it if there is one. */
  function PathOf(uri: string): string {
    if uri == "" || uri[0] == '?' then "" else [uri[0]] + PathOf(uri[1..])
  }

  function QueryOf(uri: string): string
    requires '?' in uri
  {
    if uri[0] == '?' then uri[1..] else QueryOf(uri[1..])
  }

  lemma {:induction false} CutLonger(uri: string, more: string)
    ensures '?' in uri ==> PathOf(uri + more) == PathOf(uri) && QueryOf(uri + more) == QueryOf(uri) + more
    ensures '?' !in uri && more != "" && more[0] == '?' ==> PathOf(uri + more) == uri && QueryOf(uri + more) == more[1..]
  {
    if uri == "" {
      assert uri + more == more;
    } else {
      assert (uri + more)[1..] == uri[1..] + more;
      assert uri == [uri[0]] + uri[1..];
      if uri[0] != '?' {
        CutLonger(uri[1..], more);
      }
    }
  }

  lemma TrimmedRewrite(raw: string, qs: string)
    requires IsUri(raw) && Clean(qs)
    ensures Trimmed(RewriteLine(raw, qs)) == Trimmed(raw) + ((if '?' in Trimmed(raw) then "&" else "?") + qs)
  {
    var body := Trimmed(raw) + ((if '?' in Trimmed(raw) then "&" else "?") + qs);
    assert RewriteLine(raw, qs) == body + Ending(raw);
    assert body[|body| - 1] != '\r';
  }

  /** The added parameters end the URI's query, or are it if there was none; the path is as it was. */
  lemma QueryIsAdded(raw: string, qs: string)
    requires IsUri(raw) && Clean(qs)
    ensures var was, now := Trimmed(raw), Trimmed(RewriteLine(raw, qs));
      && '?' in now && PathOf(now) == PathOf(was)
      && QueryOf(now) == if '?' in was then QueryOf(was) + "&" + qs else qs
  {
    var was := Trimmed(raw);
    var more := (if '?' in was then "&" else "?") + qs;
    TrimmedRewrite(raw, qs);
    CutLonger(was, more);
    if '?' in was {
      assert QueryOf(was) + more == QueryOf(was) + "&" + qs;
    } else {
      assert more[1..] == qs && more[0] == '?';
      assert more[0] in was + more;
      NoQueryPath(was);
    }
  }

  lemma {:induction false} NoQueryPath(uri: string)
    requires '?' !in uri
    ensures PathOf(uri) == uri
  {
    if uri != "" {
      assert uri == [uri[0]] + uri[1..];
      NoQueryPath(uri[1..]);
    }
  }

  lemma RewrittenKind(raw: string, qs: string)
    requires Clean(qs)
    ensures HasCR(RewriteLine(raw, qs)) == HasCR(raw) && IsUri(RewriteLine(raw, qs)) == IsUri(raw)
    ensures StripLine(RewriteLine(raw, qs), |qs| + 1) == raw
  {
    if IsUri(raw) {
      var body := Trimmed(raw) + (if '?' in Trimmed(raw) then "&" else "?") + qs;
      var line := RewriteLine(raw, qs);
      assert line == body + Ending(raw);
      assert body[|body| - 1] != '\r';
      assert Trimmed(line) == body;
      assert body[..|body| - (|qs| + 1)] == Trimmed(raw);
      assert raw == Trimmed(raw) + Ending(raw);
    }
  }

  /** A clean query string is undone by stripping it and its separator from the URI lines. */
  lemma StripUndoes(body: string, qs: string)
    requires Clean(qs)
    ensures Strip(Rewrite(body, qs), |qs| + 1) == body
  {
    var was, now := Split(body), Split(Rewrite(body, qs));
    RewriteKeepsLines(body, qs);
    forall i | 0 <= i < |was| ensures StripLine(now[i], |qs| + 1) == was[i] {
      RewrittenKind(was[i], qs);
    }
    assert StripLines(now, |qs| + 1) == was;
    JoinOfSplit(body);
  }

  lemma {:induction false} SplitCount(s: string)
    ensures !OneLine(s) ==> |Split(s)| > 1
  {
    if s != [] {
      SplitCount(s[1..]);
      assert s == [s[0]] + s[1..];
    }
  }

  lemma JoinHasBreak(lines: seq<string>)
    requires |lines| > 1
    ensures !OneLine(Join(lines))
  {
    assert Join(lines)[|lines[0]|] == '\n';
  }

  /** Every playlist is recovered exactly when the query string is clean. */
  lemma StripUndoesIff(qs: string)
    ensures (forall body :: Strip(Rewrite(body, qs), |qs| + 1) == body) <==> Clean(qs)
  {
    if Clean(qs) {
      forall body ensures Strip(Rewrite(body, qs), |qs| + 1) == body {
        StripUndoes(body, qs);
      }
    } else {
      UncleanIsNotUndone(qs);
    }
  }

  lemma UncleanIsNotUndone(qs: string)
    requires !Clean(qs)
    ensures Strip(Rewrite("a", qs), |qs| + 1) != "a"
  {
    var line := "a" + "?" + qs;
    SplitOfLine("a");
    assert !HasCR("a") && Trimmed("a") == "a" && '?' !in "a" && IsUri("a");
    assert RewriteLine("a", qs) == line;
    assert RewriteLines(["a"], qs) == [line];
    assert Rewrite("a", qs) == line;
    if OneLine(qs) {
      SplitOfLine(line);
      assert StripLines([line], |qs| + 1) == [StripLine(line, |qs| + 1)];
      assert line[|line| - 1] == '\r';
      assert HasCR(StripLine(line, |qs| + 1));
    } else {
      var k :| 0 <= k < |qs| && qs[k] == '\n';
      assert line[k + 2] == '\n';
      SplitCount(line);
      JoinHasBreak(StripLines(Split(line), |qs| + 1));
    }
  }

  // ---- segment names ------------------------------------------------------------------------------

  predicate IsDigit(c: char) {
    '0' <= c <= '9'
  }

  predicate Digits(s: string) {
    s != "" && forall c :: c in s ==> IsDigit(c)
  }

  /** What `.` does not match in a regular expression. */
  predicate IsTerminator(c: char) {
    c == '\n' || c == '\r' || c == '\U{2028}' || c == '\U{2029}'
  }

  predicate NoTerminators(s: string) {
    forall c :: c in s ==> !IsTerminator(c)
  }

  /** The name ends, from i on, in a dash and digits. */
  predicate DashDigits(name: string, i: nat) {
    i < |name| && name[i] == '-' && Digits(name[i + 1..])
  }

  /** The shortest first group of /^(.+?)-\\d+$/ that is at least n long, or -1. */
  function Group(name: string, n: nat): (i: int)
    requires n > 0
    ensures i == -1 || (n <= i < |name| && DashDigits(name, i) && NoTerminators(name[..i]))
    ensures i == -1 ==> forall k: nat :: n <= k < |name| && DashDigits(name, k) ==> !NoTerminators(name[..k])
    decreases |name| - n
  {
    if n >= |name| then -1
    else if DashDigits(name, n) && NoTerminators(name[..n]) then n
    else Group(name, n + 1)
  }

  /** The stream key a segment's name is verified against. */
  function BaseKey(name: string): string {
    var i := Group(name, 1);
    if i < 0 then name else name[..i]
  }

  lemma DashIsLast(name: string, i: nat, k: nat)
    requires DashDigits(name, i) && i < k < |name|
    ensures name[k] != '-'
  {
    assert name[i + 1..][k - i - 1] == name[k];
    assert IsDigit(name[i + 1..][k - i - 1]);
  }

  /** A name ends in a dash and digits in at most one way. */
  lemma OneDash(name: string, i: nat, k: nat)
    requires DashDigits(name, i) && DashDigits(name, k)
    ensures i == k
  {
    if i < k {
      DashIsLast(name, i, k);
    } else if k < i {
      DashIsLast(name, k, i);
    }
  }

  lemma SegmentName(key: string, n: string)
    requires Digits(n)
    ensures DashDigits(key + "-" + n, |key|) && (key + "-" + n)[..|key|] == key
  {
    var name := key + "-" + n;
    assert name[|key|] == '-' && name[|key| + 1..] == n;
  }

  /** The key of segment N of a stream is that stream's key, exactly for the non-empty keys without
      line terminators; a key may itself end in a dash and digits. */
  lemma BaseKeyRecoversIff(key: string, n: string)
    requires Digits(n)
    ensures BaseKey(key + "-" + n) == key <==> key != "" && NoTerminators(key)
  {
    var name := key + "-" + n;
    var i := Group(name, 1);
    SegmentName(key, n);
    if i >= 0 {
      OneDash(name, i, |key|);
    }
  }
}
