/** When the reply to ARTICLE can be taken apart again: the first blank line parts header and body,
    and the line with the dot stands at its end only (section 3.1.1 of RFC 3977). */
module Replies {
  import opened CStrings
  import opened Receive
  import opened HeaderLines
  import opened Post
  import opened Overview
  import opened Session
  import opened System

  ghost predicate Nowhere(s: string, w: string) {
    forall q: nat :: !At(s, q, w)
  }

  // ---------- Any header and body ----------

  lemma InFront(s: string, t: string, q: nat, w: string)
    requires q + |w| <= |s|
    ensures At(s + t, q, w) <==> At(s, q, w)
  {
    assert (s + t)[q..q + |w|] == s[q..q + |w|];
  }

  lemma Behind(s: string, t: string, q: nat, w: string)
    ensures At(s + t, |s| + q, w) <==> At(t, q, w)
  {
    if q + |w| <= |t| {
      assert (s + t)[|s| + q..|s| + q + |w|] == t[q..q + |w|];
    }
  }

  lemma SplitMeans(h: string, b: string)
    requires SplitArticle(h + CRLF + b) == Parts(h, b)
    ensures EndsWith(h, CRLF) && Nowhere(h, BLANK_LINE)
  {
    var text := h + (CRLF + b);
    assert text == h + CRLF + b;
    var p := Find(text, BLANK_LINE, 0).value;
    CutAtBlankLine(text, p);
    assert |text[..p + 2]| == |h|;
    forall q: nat ensures !At(h, q, BLANK_LINE) {
      if q + |BLANK_LINE| <= |h| {
        InFront(h, CRLF + b, q, BLANK_LINE);
      }
    }
  }

  /** Splitting at the first blank line gives header and body back if and only if the header ends its
      last line and holds no blank line. */
  lemma SplitsBackIff(h: string, b: string)
    requires b != []
    ensures SplitArticle(h + CRLF + b) == Parts(h, b) <==> EndsWith(h, CRLF) && Nowhere(h, BLANK_LINE)
  {
    var text := h + CRLF + b;
    if SplitArticle(text) == Parts(h, b) {
      SplitMeans(h, b);
    }
    if EndsWith(h, CRLF) && Nowhere(h, BLANK_LINE) {
      FirstBlankLine(h, b);
      assert text[..|h|] == h && text[|h| + 2..] == b;
    }
  }

  lemma LastTwo(s: string)
    ensures EndsWith(s, CRLF) <==> |s| >= 2 && s[|s| - 2] == '\r' && s[|s| - 1] == '\n'
  {
    if |s| >= 2 {
      var w := s[|s| - 2..];
      assert w == [w[0], w[1]];
    }
  }

  lemma FirstBlankLine(h: string, b: string)
    requires EndsWith(h, CRLF) && Nowhere(h, BLANK_LINE)
    ensures Find(h + CRLF + b, BLANK_LINE, 0) == Some(|h| - 2)
  {
    var text := h + (CRLF + b);
    assert text == h + CRLF + b;
    LastTwo(h);
    BlankLineAt(text, |h| - 2);
    forall q: nat | At(text, q, BLANK_LINE) ensures q >= |h| - 2 {
      BlankLineAt(text, q);
      if q + 4 <= |h| {
        InFront(h, CRLF + b, q, BLANK_LINE);
      }
    }
  }

  /** Behind a text that ends its last line the dot line is the only one if and only if there is none
      in that text and it is the only one behind. */
  lemma EndsOnceIff(x: string, b: string)
    requires EndsWith(x, CRLF) && |b| >= 3
    ensures EndsOnce(x + CRLF + b) <==> Nowhere(x, TERMINATOR) && EndsOnce(CRLF + b)
  {
    var t := CRLF + b;
    var text := x + t;
    assert text == x + CRLF + b;
    assert text[|text| - 5..] == t[|t| - 5..];
    forall q: nat
      ensures At(text, q, TERMINATOR) <==>
              At(x, q, TERMINATOR) || (q >= |x| && At(t, q - |x|, TERMINATOR))
    {
      DotLineInside(x, b, q);
    }
    if EndsOnce(text) {
      forall q: nat | At(t, q, TERMINATOR) ensures q + 5 == |t| {
        assert At(text, |x| + q, TERMINATOR) by { Behind(x, t, q, TERMINATOR); }
      }
    }
  }

  lemma DotLineInside(x: string, b: string, q: nat)
    requires EndsWith(x, CRLF)
    ensures At(x + (CRLF + b), q, TERMINATOR) <==>
            At(x, q, TERMINATOR) || (q >= |x| && At(CRLF + b, q - |x|, TERMINATOR))
  {
    var text := x + (CRLF + b);
    LastTwo(x);
    TerminatorAt(text, q);
    if q + 5 <= |x| {
      InFront(x, CRLF + b, q, TERMINATOR);
    } else if q >= |x| {
      Behind(x, CRLF + b, q - |x|, TERMINATOR);
    }
  }

  // ---------- Headers made of lines ----------

  /** A line of its own between two line breaks. */
  function Marked(mark: string): string {
    CRLF + mark + CRLF
  }

  lemma StartsWithLine(mark: string, s: string)
    requires OneLine(mark)
    ensures At(CRLF + s, 0, Marked(mark)) <==> At(s, 0, mark + CRLF)
  {
    var w := mark + CRLF;
    assert Marked(mark) == CRLF + w;
    if |w| <= |s| {
      assert (CRLF + s)[0..2 + |w|] == CRLF + s[0..|w|];
      SamePrefix(CRLF, s[0..|w|], w);
    }
  }

  lemma FirstLineIsMark(lines: seq<string>, mark: string)
    requires OneLineEach(lines) && OneLine(mark)
    ensures At(Join(lines), 0, mark + CRLF) <==> lines != [] && lines[0] == mark
  {
    if lines != [] {
      var s := Join(lines);
      var n := |mark| + 2;
      if At(s, 0, mark + CRLF) {
        assert s == s[..n] + s[n..] == mark + CRLF + s[n..];
        SameFirstLine(lines[0], Join(lines[1..]), mark, s[n..]);
      }
      if lines[0] == mark {
        assert s[0..n] == mark + CRLF;
      }
    }
  }

  lemma MarkBehindLine(line: string, rest: string, q: nat, mark: string)
    requires OneLine(line)
    ensures At(line + (CRLF + rest), q, Marked(mark)) <==>
            (q == |line| && At(CRLF + rest, 0, Marked(mark)))
            || (q >= |line| + 2 && At(rest, q - |line| - 2, Marked(mark)))
  {
    var s := line + (CRLF + rest);
    if At(s, q, Marked(mark)) {
      assert s[q] == s[q..q + |Marked(mark)|][0] == '\r';
      assert q >= |line| && q != |line| + 1;
    }
    if q >= |line| + 2 {
      assert s == (line + CRLF) + rest;
      Behind(line + CRLF, rest, q - |line| - 2, Marked(mark));
    } else if q == |line| {
      Behind(line, CRLF + rest, 0, Marked(mark));
    }
  }

  /** Lines that follow one another hold such a line if and only if it is one of them, the first one
      not counted. */
  lemma {:induction false} MarkedIff(lines: seq<string>, mark: string)
    requires OneLineEach(lines) && OneLine(mark)
    ensures Nowhere(Join(lines), Marked(mark)) <==> forall i :: 1 <= i < |lines| ==> lines[i] != mark
  {
    if lines != [] {
      var line, rest := lines[0], lines[1..];
      MarkedIff(rest, mark);
      StartsWithLine(mark, Join(rest));
      FirstLineIsMark(rest, mark);
      MarkedInLines(line, Join(rest), mark);
      assert line + (CRLF + Join(rest)) == Join(lines);
      assert forall i :: 0 <= i < |rest| ==> rest[i] == lines[i + 1];
      assert forall i :: 1 <= i < |lines| ==> lines[i] == rest[i - 1];
    }
  }

  lemma MarkedInLines(line: string, rest: string, mark: string)
    requires OneLine(line)
    ensures Nowhere(line + (CRLF + rest), Marked(mark))
            <==> !At(CRLF + rest, 0, Marked(mark)) && Nowhere(rest, Marked(mark))
  {
    var s := line + (CRLF + rest);
    forall q: nat
      ensures At(s, q, Marked(mark)) <==>
              (q == |line| && At(CRLF + rest, 0, Marked(mark)))
              || (q >= |line| + 2 && At(rest, q - |line| - 2, Marked(mark)))
    {
      MarkBehindLine(line, rest, q, mark);
    }
    assert At(s, |line|, Marked(mark)) <==> At(CRLF + rest, 0, Marked(mark));
    forall q: nat ensures At(rest, q, Marked(mark)) ==> At(s, |line| + 2 + q, Marked(mark)) {
      assert |line| + 2 + q - |line| - 2 == q;
    }
  }

  // ---------- The reply to ARTICLE ----------

  /** A client that cuts the reply at its first blank line and at its first dot line gets the stored
      header and body. */
  ghost predicate ParsesBack(status: string, h: string, b: string) {
    SplitArticle(h + CRLF + b) == Parts(h, b) && EndsOnce(status + h + CRLF + b)
  }

  lemma ParsesBackIff(status: string, h: string, b: string)
    requires |b| >= 3
    ensures ParsesBack(status, h, b)
            <==> EndsWith(h, CRLF) && Nowhere(h, BLANK_LINE) && Nowhere(status + h, TERMINATOR) && EndsOnce(CRLF + b)
  {
    SplitsBackIff(h, b);
    if EndsWith(h, CRLF) {
      LastTwo(h);
      LastTwo(status + h);
      EndsOnceIff(status + h, b);
    }
  }

  /** What was received with one dot line at its end is stored with one. */
  lemma BodyEndsOnce(text: string)
    requires EndsOnce(text) && SplitArticle(text).Parts?
    ensures EndsOnce(CRLF + SplitArticle(text).body)
  {
    SplitArticleFacts(text);
    EndsOnceIff(SplitArticle(text).header, SplitArticle(text).body);
  }

  lemma {:induction false} JoinAppend(a: seq<string>, b: seq<string>)
    ensures Join(a + b) == Join(a) + Join(b)
  {
    if a == [] {
      assert a + b == b;
    } else {
      assert (a + b)[1..] == a[1..] + b;
      JoinAppend(a[1..], b);
    }
  }

  lemma {:induction false} JoinEnds(lines: seq<string>)
    requires lines != []
    ensures EndsWith(Join(lines), CRLF)
  {
    LastTwo(Join(lines));
    if |lines| > 1 {
      JoinEnds(lines[1..]);
      LastTwo(Join(lines[1..]));
    }
  }

  /** Behind a status line and some header lines, the last one perhaps without its break, a dot line or
      an empty one stands exactly when one of the lines is that. */
  lemma LinesHold(status: string, lines: seq<string>, mark: string)
    requires OneLine(status) && OneLineEach(lines) && OneLine(mark)
    ensures Nowhere(status + CRLF + Join(lines), Marked(mark)) <==> mark !in lines
  {
    var all := [status] + lines;
    assert all[1..] == lines && Join(all) == status + CRLF + Join(lines);
    MarkedIff(all, mark);
    assert mark in lines <==> exists i :: 1 <= i < |all| && all[i] == mark;
  }

  /** A last line without its break leaves the header open. */
  lemma OpenEnd(lines: seq<string>, tail: string)
    requires OneLineEach(lines) && OneLine(tail) && lines != []
    ensures EndsWith(Join(lines) + tail, CRLF) <==> tail == []
  {
    LastTwo(Join(lines) + tail);
    JoinEnds(lines);
    if tail == [] {
      assert Join(lines) + tail == Join(lines);
    }
  }

  /** A status line, some header lines and a body: exactly when they can be told apart. */
  lemma LinesParseBackIff(status: string, lines: seq<string>, tail: string, b: string)
    requires OneLine(status) && OneLineEach(lines) && OneLine(tail) && lines != [] && lines[0] != "" && |b| >= 3
    ensures ParsesBack(status + CRLF, Join(lines) + tail, b)
            <==> tail == [] && "" !in lines && "." !in lines && EndsOnce(CRLF + b)
  {
    ParsesBackIff(status + CRLF, Join(lines) + tail, b);
    OpenEnd(lines, tail);
    if tail == [] {
      assert Join(lines) + tail == Join(lines);
      assert BLANK_LINE == Marked("") && TERMINATOR == Marked(".");
      MarkedIff(lines, "");
      assert "" in lines <==> exists i :: 1 <= i < |lines| && lines[i] == "";
      LinesHold(status, lines, ".");
    }
  }

  // ---------- The reply to HEAD ----------

  /** The dot line behind a header: it ends the reply if and only if the header ends its last line. */
  lemma HeadEndsIff(x: string)
    ensures EndsWith(x + ".\r\n", TERMINATOR) <==> EndsWith(x, CRLF)
  {
    var text := x + ".\r\n";
    LastTwo(x);
    if |x| >= 2 {
      var w := text[|text| - 5..];
      assert w == [w[0], w[1], w[2], w[3], w[4]] && w[0] == x[|x| - 2] && w[1] == x[|x| - 1];
    }
  }

  /** And it is the only one if and only if there is none in front. */
  lemma HeadEndsOnceIff(x: string)
    ensures EndsOnce(x + ".\r\n") <==> EndsWith(x, CRLF) && Nowhere(x, TERMINATOR)
  {
    var text := x + ".\r\n";
    HeadEndsIff(x);
    forall q: nat ensures At(x, q, TERMINATOR) <==> At(text, q, TERMINATOR) && q + 5 <= |x| {
      if q + 5 <= |x| { InFront(x, ".\r\n", q, TERMINATOR); }
    }
    forall q: nat | At(text, q, TERMINATOR) ensures q + 5 <= |x| || q + 5 == |text| {
      TerminatorAt(text, q);
      assert text[|x|] == '.' && text[|x| + 1] == '\r' && text[|x| + 2] == '\n';
    }
  }

  lemma OpenBehind(status: string, lines: seq<string>, tail: string)
    requires OneLineEach(lines) && OneLine(tail) && lines != []
    ensures EndsWith(status + (Join(lines) + tail), CRLF) <==> tail == []
  {
    OpenEnd(lines, tail);
    JoinEnds(lines);
    LastTwo(Join(lines));
    LastTwo(Join(lines) + tail);
    LastTwo(status + (Join(lines) + tail));
  }

  lemma LinesHeadIff(status: string, lines: seq<string>, tail: string)
    requires OneLine(status) && OneLineEach(lines) && OneLine(tail) && lines != []
    ensures EndsOnce(status + CRLF + (Join(lines) + tail) + ".\r\n") <==> tail == [] && "." !in lines
  {
    HeadEndsOnceIff(status + CRLF + (Join(lines) + tail));
    OpenBehind(status + CRLF, lines, tail);
    if tail == [] {
      assert Join(lines) + tail == Join(lines);
      assert TERMINATOR == Marked(".");
      LinesHold(status, lines, ".");
    }
  }

  // ---------- Accepted articles ----------

  function OwnLineList(env: Env, id: string, lines: nat, size: nat): seq<string> {
    ["Path: " + env.fqdn, "Message-ID: " + id, "Date: " + env.date, "Lines: " + Dec(lines),
     "X-WendzelNNTPdBodysize: " + Dec(size)]
  }

  lemma FiveLines(a: string, b: string, c: string, d: string, e: string)
    ensures Join([a, b, c, d, e]) == a + CRLF + (b + CRLF + (c + CRLF + (d + CRLF + (e + CRLF))))
  {
    JoinFirst(a, [b, c, d, e]);
    JoinFirst(b, [c, d, e]);
    JoinFirst(c, [d, e]);
    JoinFirst(d, [e]);
    JoinFirst(e, []);
    assert [a] + [b, c, d, e] == [a, b, c, d, e] && [b] + [c, d, e] == [b, c, d, e];
    assert [c] + [d, e] == [c, d, e] && [d] + [e] == [d, e] && [e] + [] == [e];
    assert e + CRLF + [] == e + CRLF;
  }

  lemma OwnLinesAreLines(env: Env, id: string, lines: nat, size: nat)
    ensures OwnLines(env, id, lines, size) == Join(OwnLineList(env, id, lines, size))
  {
    FiveLines("Path: " + env.fqdn, "Message-ID: " + id, "Date: " + env.date, "Lines: " + Dec(lines),
              "X-WendzelNNTPdBodysize: " + Dec(size));
  }

  predicate PlainLine(line: string) {
    OneLine(line) && |line| > 1
  }

  lemma Labelled(name: string, value: string)
    requires OneLine(name) && OneLine(value) && |name| > 1
    ensures PlainLine(name + value)
  {
  }

  lemma FivePlain(a: string, b: string, c: string, d: string, e: string)
    requires PlainLine(a) && PlainLine(b) && PlainLine(c) && PlainLine(d) && PlainLine(e)
    ensures OneLineEach([a, b, c, d, e]) && forall line :: line in [a, b, c, d, e] ==> |line| > 1
  {
  }

  lemma OwnLinesArePlain(env: Env, id: string, lines: nat, size: nat)
    requires PlainEnv(env) && OneLine(id)
    ensures OneLineEach(OwnLineList(env, id, lines, size))
    ensures forall line :: line in OwnLineList(env, id, lines, size) ==> |line| > 1
  {
    DigitsAreOneLine(Dec(lines));
    DigitsAreOneLine(Dec(size));
    Labelled("Path: ", env.fqdn);
    Labelled("Message-ID: ", id);
    Labelled("Date: ", env.date);
    Labelled("Lines: ", Dec(lines));
    Labelled("X-WendzelNNTPdBodysize: ", Dec(size));
    FivePlain("Path: " + env.fqdn, "Message-ID: " + id, "Date: " + env.date, "Lines: " + Dec(lines),
              "X-WendzelNNTPdBodysize: " + Dec(size));
  }

  function ArticleLine(num: nat, id: string): string {
    "220 " + Dec(num) + " " + id + " article retrieved - head and body follow"
  }

  function HeadLine(num: nat, id: string): string {
    "221 " + Dec(num) + " " + id + " article retrieved - head follows"
  }

  lemma ArticleStatus(num: nat, id: string)
    requires OneLine(id)
    ensures OneLine(ArticleLine(num, id)) && Status('a', num, id) == ArticleLine(num, id) + CRLF
  {
    DigitsAreOneLine(Dec(num));
  }

  lemma HeadStatus(num: nat, id: string)
    requires OneLine(id)
    ensures OneLine(HeadLine(num, id)) && Status('h', num, id) == HeadLine(num, id) + CRLF
  {
    DigitsAreOneLine(Dec(num));
  }

  lemma OwnLinesPrinted(env: Env, n: nat, body: string)
    requires PlainEnv(env) && n < 0x8000_0000 && 3 <= |body| < 0x8000_0000
    ensures var id := MessageId(n, env.host);
            Printed(OwnLines(env, id, BodyLines(body), |body|), 0x7fd)
            == Join(OwnLineList(env, id, BodyLines(body), |body|))
  {
    CountBounded(body[..|body| - 3], '\n');
    NothingCutOff(env, n, BodyLines(body), |body|);
    OwnLinesAreLines(env, MessageId(n, env.host), BodyLines(body), |body|);
  }

  lemma JoinThree(own: seq<string>, l: seq<string>, t: string)
    ensures Join(own) + (Join(l) + t) == Join(own + l) + t
  {
    JoinAppend(own, l);
  }

  lemma StoredLines(env: Env, n: nat, lines: seq<string>, body: string)
    requires PlainEnv(env) && n < 0x8000_0000 && 3 <= |body| < 0x8000_0000 && OneLineEach(lines)
    ensures var id := MessageId(n, env.host); var (l, t) := Edited(lines);
            StoredHeader(env, id, Join(lines), body)
            == Join(OwnLineList(env, id, BodyLines(body), |body|) + l) + t
  {
    OwnLinesPrinted(env, n, body);
    EditIsPasses(lines);
    JoinThree(OwnLineList(env, MessageId(n, env.host), BodyLines(body), |body|), Edited(lines).0, Edited(lines).1);
  }

  lemma BothLists(own: seq<string>, kept: seq<string>)
    requires OneLineEach(own) && OneLineEach(kept) && own != []
    requires forall line :: line in own ==> |line| > 1
    ensures OneLineEach(own + kept) && (own + kept)[0] != ""
    ensures "" in own + kept <==> "" in kept
    ensures "." in own + kept <==> "." in kept
  {
    assert own[0] in own && (own + kept)[0] == own[0];
  }

  /** For client headers of whole lines, whatever the edit makes of them: the reply to ARTICLE can be
      taken apart exactly when the last line keeps its break, no line left is empty or a dot, and the
      body holds one dot line, at its end. */
  lemma ArticleReplyParses(env: Env, n: nat, num: nat, lines: seq<string>, body: string)
    requires PlainEnv(env) && n < 0x8000_0000 && 3 <= |body| < 0x8000_0000 && OneLineEach(lines)
    ensures var id := MessageId(n, env.host); var (l, t) := Edited(lines);
            ParsesBack(Status('a', num, id), StoredHeader(env, id, Join(lines), body), body)
            <==> t == [] && "" !in l && "." !in l && EndsOnce(CRLF + body)
  {
    var id := MessageId(n, env.host);
    var (l, t) := Edited(lines);
    var own := OwnLineList(env, id, BodyLines(body), |body|);
    StoredLines(env, n, lines, body);
    EditIsPasses(lines);
    IdIsOneLine(n, env.host);
    OwnLinesArePlain(env, id, BodyLines(body), |body|);
    BothLists(own, l);
    ArticleStatus(num, id);
    LinesParseBackIff(ArticleLine(num, id), own + l, t, body);
  }

  /** And the reply to HEAD ends with its one dot line exactly when the last line keeps its break and no
      line left is a dot. */
  lemma HeadReplyEnds(env: Env, n: nat, num: nat, lines: seq<string>, body: string)
    requires PlainEnv(env) && n < 0x8000_0000 && 3 <= |body| < 0x8000_0000 && OneLineEach(lines)
    ensures var id := MessageId(n, env.host); var (l, t) := Edited(lines);
            EndsOnce(Status('h', num, id) + StoredHeader(env, id, Join(lines), body) + ".\r\n")
            <==> t == [] && "." !in l
  {
    var id := MessageId(n, env.host);
    var (l, t) := Edited(lines);
    var own := OwnLineList(env, id, BodyLines(body), |body|);
    StoredLines(env, n, lines, body);
    EditIsPasses(lines);
    IdIsOneLine(n, env.host);
    OwnLinesArePlain(env, id, BodyLines(body), |body|);
    BothLists(own, l);
    HeadStatus(num, id);
    LinesHeadIff(HeadLine(num, id), own + l, t);
  }
}
