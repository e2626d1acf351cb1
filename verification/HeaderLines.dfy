/** The in-place deletion seen on whole header lines, and exactly when it filters them. */
module HeaderLines {
  import opened CStrings
  import opened HeaderEdit

  function Join(lines: seq<string>): string {
    if lines == [] then [] else lines[0] + CRLF + Join(lines[1..])
  }

  predicate Carries(line: string, name: string) {
    AtNoCase(line, 0, name)
  }

  function Without(lines: seq<string>, name: string): seq<string> {
    if lines == [] then []
    else if Carries(lines[0], name) then Without(lines[1..], name)
    else [lines[0]] + Without(lines[1..], name)
  }

  function Carriers(lines: seq<string>, name: string): nat {
    if lines == [] then 0
    else (if Carries(lines[0], name) then 1 else 0) + Carriers(lines[1..], name)
  }

  /** The lines that carry none of the three names. */
  function Kept(lines: seq<string>): seq<string> {
    if lines == [] then []
    else if Carries(lines[0], MESSAGE_ID) || Carries(lines[0], DATE) || Carries(lines[0], LINES)
    then Kept(lines[1..])
    else [lines[0]] + Kept(lines[1..])
  }

  /** When one pass takes out the lines that carry the name and nothing else: the first line that
      holds the name anywhere starts with it and no later line carries it; or that line holds it
      further on, the next line repeats it from there, and no line after that carries it. */
  predicate FiltersExactly(lines: seq<string>, name: string) {
    if lines == [] then true
    else
      match FindNoCase(lines[0], name, 0)
      case None => FiltersExactly(lines[1..], name)
      case Some(p) =>
        if p == 0 then Carriers(lines[1..], name) == 0
        else |lines| > 1 && lines[1] == lines[0][p..] && Carriers(lines[2..], name) == 0
  }

  ghost predicate OneLineEach(lines: seq<string>) {
    forall i :: 0 <= i < |lines| ==> OneLine(lines[i])
  }

  // ---------- One line in front ----------

  lemma MatchInLine(line: string, rest: string, q: nat, name: string)
    requires AtNoCase(line, q, name)
    ensures AtNoCase(line + CRLF + rest, q, name)
  {
  }

  lemma MatchInRest(line: string, rest: string, k: nat, name: string)
    requires AtNoCase(rest, k, name)
    ensures AtNoCase(line + CRLF + rest, |line| + 2 + k, name)
  {
    var s := line + CRLF + rest;
    forall i | 0 <= i < |name| ensures Lower(s[|line| + 2 + k + i]) == Lower(name[i]) {
      assert s[|line| + 2 + (k + i)] == rest[k + i];
    }
  }

  /** A one-line name found in line + CRLF + rest lies in the line or in the rest. */
  lemma MatchIsInside(line: string, rest: string, q: nat, name: string)
    requires OneLine(name) && name != [] && AtNoCase(line + CRLF + rest, q, name)
    ensures AtNoCase(line, q, name) || (q >= |line| + 2 && AtNoCase(rest, q - |line| - 2, name))
  {
    var s := line + CRLF + rest;
    assert s[|line|] == '\r' && s[|line| + 1] == '\n';
    if q <= |line| < q + |name| {
      MatchedChar(s, q, name, |line| - q);
    }
    MatchedChar(s, q, name, 0);
    if q >= |line| + 2 {
      forall i | 0 <= i < |name| ensures Lower(rest[q - |line| - 2 + i]) == Lower(name[i]) {
        MatchedChar(s, q, name, i);
        assert s[q + i] == rest[q - |line| - 2 + i];
      }
    }
  }

  lemma MatchSplits(line: string, rest: string, q: nat, name: string)
    requires OneLine(name) && name != []
    ensures AtNoCase(line + CRLF + rest, q, name) <==>
            AtNoCase(line, q, name) || (q >= |line| + 2 && AtNoCase(rest, q - |line| - 2, name))
  {
    if AtNoCase(line + CRLF + rest, q, name) {
      MatchIsInside(line, rest, q, name);
    }
    if AtNoCase(line, q, name) {
      MatchInLine(line, rest, q, name);
    }
    if q >= |line| + 2 && AtNoCase(rest, q - |line| - 2, name) {
      MatchInRest(line, rest, q - |line| - 2, name);
    }
  }

  /** The occurrences in s are those in rest, k further on. */
  ghost predicate Shifted(s: string, k: nat, rest: string, name: string) {
    forall q: nat :: AtNoCase(s, q, name) <==> q >= k && AtNoCase(rest, q - k, name)
  }

  lemma FindShifted(s: string, k: nat, rest: string, name: string)
    requires Shifted(s, k, rest, name)
    ensures var r := FindNoCase(rest, name, 0);
            FindNoCase(s, name, 0) == if r.None? then None else Some(r.value + k)
  {
    var r, f := FindNoCase(rest, name, 0), FindNoCase(s, name, 0);
    if r.Some? {
      assert r.value + k - k == r.value;
      assert AtNoCase(s, r.value + k, name);
    }
    assert f.Some? ==> AtNoCase(rest, f.value - k, name);
  }

  lemma ShiftedByLine(line: string, rest: string, name: string)
    requires OneLine(name) && name != [] && forall q: nat :: !AtNoCase(line, q, name)
    ensures Shifted(line + CRLF + rest, |line| + 2, rest, name)
  {
    forall q: nat
      ensures AtNoCase(line + CRLF + rest, q, name)
              <==> q >= |line| + 2 && AtNoCase(rest, q - (|line| + 2), name)
    {
      MatchSplits(line, rest, q, name);
    }
  }

  lemma {:induction false} LineEndInRest(a: string, b: string, k: nat)
    requires k <= |b|
    ensures LineEnd(a + b, |a| + k) == |a| + LineEnd(b, k)
    decreases |b| - k
  {
    if k < |b| {
      LineEndInRest(a, b, k + 1);
    }
  }

  lemma {:induction false} LineEndOfFirst(line: string, rest: string, k: nat)
    requires OneLine(line) && k <= |line|
    ensures LineEnd(line + CRLF + rest, k) == |line| + 2
    decreases |line| - k
  {
    var s := line + CRLF + rest;
    assert s[|line|] == '\r' && s[|line| + 1] == '\n';
    if k < |line| {
      assert s[k] == line[k] && (k + 1 < |line| ==> s[k + 1] == line[k + 1]);
      LineEndOfFirst(line, rest, k + 1);
    }
  }

  /** The first occurrence in a line is the first in the whole text. */
  lemma FirstInLine(line: string, rest: string, name: string, p: nat)
    requires FieldName(name) && FindNoCase(line, name, 0) == Some(p)
    ensures FindNoCase(line + CRLF + rest, name, 0) == Some(p)
  {
    var f := FindNoCase(line + CRLF + rest, name, 0);
    MatchSplits(line, rest, p, name);
    MatchSplits(line, rest, f.value, name);
  }

  /** The name is matched wherever it stands: the tail of the line goes from there, the break behind
      it too, and the next line is glued on.  At the start of a line, the whole line goes. */
  lemma NameInsideALine(line: string, rest: string, name: string, p: nat)
    requires FieldName(name) && OneLine(line) && FindNoCase(line, name, 0) == Some(p)
    ensures DeleteFirst(line + CRLF + rest, name) == line[..p] + rest
  {
    FirstInLine(line, rest, name, p);
    CutToLineEnd(line, rest, p, |name|);
  }

  lemma CutToLineEnd(line: string, rest: string, p: nat, n: nat)
    requires OneLine(line) && n > 0 && p + n <= |line|
    ensures CutLine(line + CRLF + rest, p, n) == line[..p] + rest
  {
    var s := line + CRLF + rest;
    LineEndOfFirst(line, rest, p + n - 1);
    assert s[..p] == line[..p] && s[|line| + 2..] == rest;
  }

  lemma {:induction false} EndAtFeed(line: string, rest: string, k: nat)
    requires OneLine(line) && k < |line|
    ensures LineEnd(line + "\n" + rest, k) == |line| + 1
    decreases |line| - k
  {
    var s := line + "\n" + rest;
    assert s[|line|] == '\n' && s[k] == line[k] && (k + 1 < |line| ==> s[k + 1] == line[k + 1]);
    if k + 1 < |line| {
      EndAtFeed(line, rest, k + 1);
    }
  }

  lemma {:induction false} EndAtReturn(line: string, next: char, rest: string, k: nat)
    requires OneLine(line) && k <= |line|
    ensures LineEnd(line + ['\r', next] + rest, k) == |line| + 2
    decreases |line| - k
  {
    var s := line + ['\r', next] + rest;
    assert s[|line|] == '\r';
    if k < |line| {
      assert s[k] == line[k] && (k + 1 < |line| ==> s[k + 1] == line[k + 1]);
      EndAtReturn(line, next, rest, k + 1);
    }
  }

  lemma CutToFeed(line: string, rest: string, p: nat, n: nat)
    requires OneLine(line) && n > 0 && p + n <= |line|
    ensures CutLine(line + "\n" + rest, p, n) == line[..p] + rest
  {
    var s := line + "\n" + rest;
    EndAtFeed(line, rest, p + n - 1);
    assert s[..p] == line[..p] && s[|line| + 1..] == rest;
  }

  lemma CutToReturn(line: string, next: char, rest: string, p: nat, n: nat)
    requires OneLine(line) && n > 0 && p + n <= |line|
    ensures CutLine(line + ['\r', next] + rest, p, n) == line[..p] + rest
  {
    var s := line + ['\r', next] + rest;
    EndAtReturn(line, next, rest, p + n - 1);
    assert s[..p] == line[..p] && s[|line| + 2..] == rest;
  }

  /** A line that ends in a bare LF is cut like one that ends in CRLF. */
  lemma BareFeed(line: string, rest: string, name: string, p: nat)
    requires FieldName(name) && OneLine(line) && p + |name| <= |line|
    requires FindNoCase(line + "\n" + rest, name, 0) == Some(p)
    ensures DeleteFirst(line + "\n" + rest, name) == line[..p] + rest
  {
    CutToFeed(line, rest, p, |name|);
  }

  /** Behind a bare CR one more byte goes. */
  lemma BareReturn(line: string, next: char, rest: string, name: string, p: nat)
    requires FieldName(name) && OneLine(line) && p + |name| <= |line|
    requires FindNoCase(line + ['\r', next] + rest, name, 0) == Some(p)
    ensures DeleteFirst(line + ['\r', next] + rest, name) == line[..p] + rest
  {
    CutToReturn(line, next, rest, p, |name|);
  }

  lemma CutLineShifted(head: string, rest: string, p: nat, n: nat)
    requires n > 0 && p + n <= |rest|
    ensures CutLine(head + rest, |head| + p, n) == head + CutLine(rest, p, n)
  {
    var s, e := head + rest, LineEnd(rest, p + n - 1);
    LineEndInRest(head, rest, p + n - 1);
    assert s[..|head| + p] == head + rest[..p];
    assert s[|head| + e..] == rest[e..];
  }

  /** With the first occurrence |head| further on, so is the deleted slice. */
  lemma DeleteShifted(head: string, rest: string, name: string, s: string)
    requires name != [] && s == head + rest
    requires var r := FindNoCase(rest, name, 0);
             FindNoCase(s, name, 0) == if r.None? then None else Some(r.value + |head|)
    ensures DeleteFirst(s, name) == head + DeleteFirst(rest, name)
  {
    var r := FindNoCase(rest, name, 0);
    if r.Some? {
      CutLineShifted(head, rest, r.value, |name|);
    }
  }

  /** A line without the name stays, and the deletion happens behind it. */
  lemma DeleteBehindLine(line: string, rest: string, name: string)
    requires FieldName(name) && forall q: nat :: !AtNoCase(line, q, name)
    ensures DeleteFirst(line + CRLF + rest, name) == line + CRLF + DeleteFirst(rest, name)
  {
    var s := line + CRLF + rest;
    ShiftedByLine(line, rest, name);
    FindShifted(s, |line| + 2, rest, name);
    DeleteShifted(line + CRLF, rest, name, s);
  }

  // ---------- All lines ----------

  lemma {:induction false} WithoutAbsent(lines: seq<string>, name: string)
    requires Carriers(lines, name) == 0
    ensures Without(lines, name) == lines
  {
    if lines != [] {
      WithoutAbsent(lines[1..], name);
    }
  }

  lemma {:induction false} WithoutIsShorter(lines: seq<string>, name: string)
    ensures |Join(Without(lines, name))| + 2 * Carriers(lines, name) <= |Join(lines)|
  {
    if lines != [] {
      WithoutIsShorter(lines[1..], name);
      var rest := Without(lines[1..], name);
      if !Carries(lines[0], name) {
        assert ([lines[0]] + rest)[1..] == rest;
      }
    }
  }

  /** Filtering changes the text exactly when there is something to filter out. */
  lemma NothingToFilter(lines: seq<string>, name: string)
    ensures Join(lines) == Join(Without(lines, name)) <==> Carriers(lines, name) == 0
  {
    WithoutIsShorter(lines, name);
    if Carriers(lines, name) == 0 {
      WithoutAbsent(lines, name);
    }
  }

  lemma JoinFirst(line: string, lines: seq<string>)
    ensures Join([line] + lines) == line + CRLF + Join(lines)
  {
    assert ([line] + lines)[1..] == lines;
  }

  lemma FirstBreak(line: string, rest: string)
    requires OneLine(line)
    ensures Find(line + CRLF + rest, "\r", 0) == Some(|line|)
  {
    var s := line + CRLF + rest;
    assert s[|line|] == '\r' && At(s, |line|, "\r");
    assert forall i :: 0 <= i < |line| ==> s[i] == line[i];
    forall q: nat | At(s, q, "\r") ensures s[q] == '\r' {
      assert s[q] == s[q..q + 1][0];
    }
  }

  /** Two texts are the same only if their first lines are, and what follows these. */
  lemma SameFirstLine(a: string, x: string, b: string, y: string)
    requires OneLine(a) && OneLine(b)
    ensures a + CRLF + x == b + CRLF + y <==> a == b && x == y
  {
    var s, t := a + CRLF + x, b + CRLF + y;
    FirstBreak(a, x);
    FirstBreak(b, y);
    assert a == s[..|a|] && x == s[|a| + 2..];
    assert b == t[..|b|] && y == t[|b| + 2..];
  }

  lemma SamePrefix(head: string, x: string, y: string)
    ensures head + x == head + y <==> x == y
  {
    assert (head + x)[|head|..] == x && (head + y)[|head|..] == y;
  }

  lemma RestRepeats(rest: seq<string>, tail: string, name: string)
    requires OneLineEach(rest) && OneLine(tail) && Carries(tail, name)
    ensures Join(rest) == tail + CRLF + Join(Without(rest, name))
            <==> rest != [] && rest[0] == tail && Carriers(rest[1..], name) == 0
  {
    if rest != [] {
      SameFirstLine(rest[0], Join(rest[1..]), tail, Join(Without(rest, name)));
      NothingToFilter(rest[1..], name);
    }
  }

  lemma SplitLine(line: string, p: nat, rest: string)
    requires p <= |line|
    ensures line + CRLF + rest == line[..p] + (line[p..] + CRLF + rest)
  {
    assert line == line[..p] + line[p..];
  }

  /** The case of a name further inside the first line that holds it. */
  lemma CutInsideFilters(lines: seq<string>, name: string, p: nat)
    requires FieldName(name) && OneLineEach(lines) && lines != []
    requires FindNoCase(lines[0], name, 0) == Some(p) && p > 0
    ensures lines[0][..p] + Join(lines[1..]) == Join(Without(lines, name)) <==> FiltersExactly(lines, name)
  {
    var line, rest := lines[0], lines[1..];
    var tail, left := line[p..], Join(Without(rest, name));
    JoinFirst(line, Without(rest, name));
    SplitLine(line, p, left);
    SamePrefix(line[..p], Join(rest), tail + CRLF + left);
    TailCarries(line, name, p);
    RestRepeats(rest, tail, name);
    FiltersHere(lines, name, p);
  }

  lemma FiltersHere(lines: seq<string>, name: string, p: nat)
    requires lines != [] && FindNoCase(lines[0], name, 0) == Some(p) && p > 0
    ensures var rest := lines[1..];
            FiltersExactly(lines, name)
            <==> rest != [] && rest[0] == lines[0][p..] && Carriers(rest[1..], name) == 0
  {
    assert |lines| > 1 ==> lines[1..][1..] == lines[2..];
  }

  lemma TailCarries(line: string, name: string, p: nat)
    requires p <= |line| && AtNoCase(line, p, name)
    ensures Carries(line[p..], name)
  {
    assert forall i :: 0 <= i < |name| ==> line[p..][i] == line[p + i];
  }

  /** One pass deletes exactly the lines that carry the name if and only if the condition holds. */
  lemma {:induction false} PassFiltersIff(lines: seq<string>, name: string)
    requires FieldName(name) && OneLineEach(lines)
    ensures DeleteFirst(Join(lines), name) == Join(Without(lines, name)) <==> FiltersExactly(lines, name)
  {
    if lines != [] {
      var line, rest := lines[0], lines[1..];
      var f := FindNoCase(line, name, 0);
      if f.None? {
        DeleteBehindLine(line, Join(rest), name);
        PassFiltersIff(rest, name);
        JoinFirst(line, Without(rest, name));
        SamePrefix(line + CRLF, DeleteFirst(Join(rest), name), Join(Without(rest, name)));
      } else {
        NameInsideALine(line, Join(rest), name, f.value);
        if f.value == 0 {
          NothingToFilter(rest, name);
          assert line[..0] + Join(rest) == Join(rest);
        } else {
          CutInsideFilters(lines, name, f.value);
        }
      }
    }
  }

  lemma {:induction false} WithoutOneLine(lines: seq<string>, name: string)
    requires OneLineEach(lines)
    ensures OneLineEach(Without(lines, name))
  {
    if lines != [] {
      assert forall i :: 0 <= i < |lines[1..]| ==> lines[1..][i] == lines[i + 1];
      WithoutOneLine(lines[1..], name);
    }
  }

  lemma {:induction false} KeptIsThreePasses(lines: seq<string>)
    ensures Without(Without(Without(lines, MESSAGE_ID), DATE), LINES) == Kept(lines)
  {
    if lines != [] {
      KeptIsThreePasses(lines[1..]);
      var a := Without(lines[1..], MESSAGE_ID);
      var b := Without(a, DATE);
      var l := lines[0];
      if !Carries(l, MESSAGE_ID) {
        assert Without(lines, MESSAGE_ID) == [l] + a && ([l] + a)[1..] == a;
        if !Carries(l, DATE) {
          assert Without([l] + a, DATE) == [l] + b && ([l] + b)[1..] == b;
        }
      }
    }
  }

  /** The three passes take out exactly the lines that carry one of the names when each pass meets
      its condition on the lines the passes before it left; and once the first two meet theirs,
      only then. */
  lemma EditIsFiltering(lines: seq<string>)
    requires OneLineEach(lines)
    requires FiltersExactly(lines, MESSAGE_ID) && FiltersExactly(Without(lines, MESSAGE_ID), DATE)
    ensures EditHeader(Join(lines)) == Join(Kept(lines))
            <==> FiltersExactly(Without(Without(lines, MESSAGE_ID), DATE), LINES)
  {
    NamesAreFields();
    var a := Without(lines, MESSAGE_ID);
    var b := Without(a, DATE);
    WithoutOneLine(lines, MESSAGE_ID);
    WithoutOneLine(a, DATE);
    PassFiltersIff(lines, MESSAGE_ID);
    PassFiltersIff(a, DATE);
    PassFiltersIff(b, LINES);
    KeptIsThreePasses(lines);
  }

  // ---------- The passes on lines ----------

  /** What is left of a line, and what follows it. */
  function Glued(head: string, rest: seq<string>, tail: string): (seq<string>, string) {
    if rest == [] then ([], head + tail) else ([head + rest[0]] + rest[1..], tail)
  }

  /** One pass on whole lines and a last line without a break: the first line that holds the name is
      cut there and glued to the next; cut at its very start, it is dropped. */
  function Pass(lines: seq<string>, tail: string, name: string): (seq<string>, string) {
    if lines == [] then
      var p := FindNoCase(tail, name, 0);
      ([], if p.None? then tail else tail[..p.value])
    else
      match FindNoCase(lines[0], name, 0)
      case None => var (l, t) := Pass(lines[1..], tail, name); ([lines[0]] + l, t)
      case Some(p) => Glued(lines[0][..p], lines[1..], tail)
  }

  lemma {:induction false} LineEndNoBreak(s: string, k: nat)
    requires OneLine(s) && k <= |s|
    ensures LineEnd(s, k) == |s|
    decreases |s| - k
  {
    if k < |s| {
      LineEndNoBreak(s, k + 1);
    }
  }

  lemma GluedOneLine(head: string, rest: seq<string>, tail: string)
    requires OneLine(head) && OneLineEach(rest) && OneLine(tail)
    ensures OneLineEach(Glued(head, rest, tail).0) && OneLine(Glued(head, rest, tail).1)
  {
    if rest != [] {
      var l := [head + rest[0]] + rest[1..];
      assert forall i :: 1 <= i < |l| ==> l[i] == rest[i];
      assert OneLine(l[0]);
    }
  }

  lemma GluedIsText(head: string, rest: seq<string>, tail: string)
    ensures var (l, t) := Glued(head, rest, tail); head + (Join(rest) + tail) == Join(l) + t
  {
    if rest == [] {
      assert Join(rest) + tail == tail;
      assert Join([]) + (head + tail) == head + tail;
    } else {
      JoinFirst(head + rest[0], rest[1..]);
      Regrouped(head, rest[0], Join(rest[1..]), tail);
    }
  }

  lemma Regrouped(head: string, line: string, rest: string, tail: string)
    ensures head + ((line + CRLF + rest) + tail) == (head + line) + CRLF + rest + tail
  {
  }

  lemma PassOnTail(tail: string, name: string)
    requires FieldName(name) && OneLine(tail)
    ensures var t := Pass([], tail, name).1;
            DeleteFirst(tail, name) == t && OneLine(t)
  {
    var p := FindNoCase(tail, name, 0);
    if p.Some? {
      LineEndNoBreak(tail, p.value + |name| - 1);
      assert tail[..p.value] + tail[|tail|..] == tail[..p.value];
    }
  }

  lemma PassHere(line: string, rest: seq<string>, tail: string, name: string, p: nat)
    requires FieldName(name) && OneLine(line) && FindNoCase(line, name, 0) == Some(p)
    ensures var (l, t) := Glued(line[..p], rest, tail);
            DeleteFirst(line + CRLF + (Join(rest) + tail), name) == Join(l) + t
  {
    NameInsideALine(line, Join(rest) + tail, name, p);
    GluedIsText(line[..p], rest, tail);
  }

  /** What a pass does to the text is what it does to the lines. */
  lemma {:induction false} PassIsDelete(lines: seq<string>, tail: string, name: string)
    requires FieldName(name) && OneLineEach(lines) && OneLine(tail)
    ensures var (l, t) := Pass(lines, tail, name);
            DeleteFirst(Join(lines) + tail, name) == Join(l) + t && OneLineEach(l) && OneLine(t)
  {
    if lines == [] {
      PassOnTail(tail, name);
      assert Join(lines) + tail == tail;
    } else {
      var line, rest := lines[0], lines[1..];
      var f := FindNoCase(line, name, 0);
      assert Join(lines) + tail == line + CRLF + (Join(rest) + tail);
      if f.None? {
        DeleteBehindLine(line, Join(rest) + tail, name);
        PassIsDelete(rest, tail, name);
        PassBehind(line, Pass(rest, tail, name).0, Pass(rest, tail, name).1);
      } else {
        PassHere(line, rest, tail, name, f.value);
        GluedOneLine(line[..f.value], rest, tail);
      }
    }
  }

  lemma PassBehind(line: string, l: seq<string>, t: string)
    requires OneLine(line) && OneLineEach(l)
    ensures line + CRLF + (Join(l) + t) == Join([line] + l) + t && OneLineEach([line] + l)
  {
    JoinFirst(line, l);
  }

  /** The three passes. */
  function Edited(lines: seq<string>): (seq<string>, string) {
    var (a, t) := Pass(lines, [], MESSAGE_ID);
    var (b, u) := Pass(a, t, DATE);
    Pass(b, u, LINES)
  }

  /** Editing a header of whole lines, whatever they hold. */
  lemma EditIsPasses(lines: seq<string>)
    requires OneLineEach(lines)
    ensures var (l, t) := Edited(lines);
            EditHeader(Join(lines)) == Join(l) + t && OneLineEach(l) && OneLine(t)
  {
    NamesAreFields();
    assert Join(lines) + [] == Join(lines);
    PassIsDelete(lines, [], MESSAGE_ID);
    var (a, t) := Pass(lines, [], MESSAGE_ID);
    PassIsDelete(a, t, DATE);
    var (b, u) := Pass(a, t, DATE);
    PassIsDelete(b, u, LINES);
  }

  lemma NoBreakNoLine(t: string, line: string, rest: string)
    requires OneLine(t)
    ensures t != line + CRLF + rest
  {
    assert (line + CRLF + rest)[|line|] == '\r';
  }

  /** Whole lines and the last one can be told from the text. */
  lemma {:induction false} LinesAreUnique(l: seq<string>, t: string, m: seq<string>, u: string)
    requires OneLineEach(l) && OneLine(t) && OneLineEach(m) && OneLine(u)
    ensures Join(l) + t == Join(m) + u <==> l == m && t == u
  {
    if l == [] && m == [] {
      assert Join(l) + t == t && Join(m) + u == u;
    } else if l == [] {
      NoBreakNoLine(t, m[0], Join(m[1..]) + u);
      assert Join(l) + t == t && Join(m) + u == m[0] + CRLF + (Join(m[1..]) + u);
    } else if m == [] {
      NoBreakNoLine(u, l[0], Join(l[1..]) + t);
      assert Join(m) + u == u && Join(l) + t == l[0] + CRLF + (Join(l[1..]) + t);
    } else {
      assert Join(l) + t == l[0] + CRLF + (Join(l[1..]) + t);
      assert Join(m) + u == m[0] + CRLF + (Join(m[1..]) + u);
      SameFirstLine(l[0], Join(l[1..]) + t, m[0], Join(m[1..]) + u);
      LinesAreUnique(l[1..], t, m[1..], u);
      assert l == [l[0]] + l[1..] && m == [m[0]] + m[1..];
    }
  }

  lemma {:induction false} KeptOneLine(lines: seq<string>)
    requires OneLineEach(lines)
    ensures OneLineEach(Kept(lines))
  {
    if lines != [] {
      assert forall i :: 0 <= i < |lines[1..]| ==> lines[1..][i] == lines[i + 1];
      KeptOneLine(lines[1..]);
    }
  }

  /** Which lines those are: each goes if it starts with "Message-ID: ", "Date: " or "Lines: " in any
      letter case, and the others stay in their order. */
  lemma KeptOne(line: string)
    ensures Kept([line]) == if AtNoCase(line, 0, "Message-ID: ") || AtNoCase(line, 0, "Date: ")
                               || AtNoCase(line, 0, "Lines: ") then [] else [line]
  {
    assert [line][1..] == [] && Kept([]) == [];
  }

  lemma {:induction false} KeptAppend(a: seq<string>, b: seq<string>)
    ensures Kept(a + b) == Kept(a) + Kept(b)
  {
    if a == [] {
      assert a + b == b;
    } else {
      assert (a + b)[1..] == a[1..] + b;
      KeptAppend(a[1..], b);
    }
  }

  /** So the edit takes out exactly the lines that carry one of the names if and only if the three
      passes on the lines do. */
  lemma EditFiltersIff(lines: seq<string>)
    requires OneLineEach(lines)
    ensures EditHeader(Join(lines)) == Join(Kept(lines)) <==> Edited(lines) == (Kept(lines), [])
  {
    EditIsPasses(lines);
    KeptOneLine(lines);
    var (l, t) := Edited(lines);
    LinesAreUnique(l, t, Kept(lines), []);
    assert Join(Kept(lines)) + [] == Join(Kept(lines));
  }
}
