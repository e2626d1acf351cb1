/** Command lines as clients write them: which handler they reach and what it reads from them. */
module CommandLines {
  import opened CStrings
  import opened Tokenizer
  import opened CommandReader
  import opened Keywords
  import opened Session

  // ---------- Dispatch ----------

  /** The keyword, typed in any letter case. */
  predicate Typed(v: string, keyword: string) {
    |v| == |keyword| && forall i :: 0 <= i < |v| ==> Lower(v[i]) == Lower(keyword[i])
  }

  predicate Letters(w: string) {
    w != [] && forall i :: 0 <= i < |w| ==> 'a' <= w[i] <= 'z'
  }

  lemma TypedStarts(v: string, keyword: string, rest: string)
    requires Typed(v, keyword)
    ensures Starts(v + rest, keyword)
  {
    forall i | 0 <= i < |keyword| ensures Lower((v + rest)[0 + i]) == Lower(keyword[i]) {
      assert (v + rest)[i] == v[i];
    }
  }

  lemma TypedIsPlain(v: string, keyword: string)
    requires Typed(v, keyword) && Letters(keyword)
    ensures PlainWord(v) && Head(v) && Head(v + " ")
  {
    forall i | 0 <= i < |v| ensures v[i] != ' ' && v[i] != '\r' && v[i] != '\n' && v[i] != '\'' {
      assert Lower(v[i]) == Lower(keyword[i]) == keyword[i];
    }
  }

  predicate Verb(v: string) {
    Typed(v, "article") || Typed(v, "head") || Typed(v, "body") || Typed(v, "stat")
  }

  lemma VerbIsPlain(v: string, rest: string)
    requires Verb(v)
    ensures PlainWord(v) && Head(v) && Head(v + " ") && FirstLetter(v + rest) == Lower(v[0])
  {
    if Typed(v, "article") { TypedIsPlain(v, "article"); }
    else if Typed(v, "head") { TypedIsPlain(v, "head"); }
    else if Typed(v, "body") { TypedIsPlain(v, "body"); }
    else { TypedIsPlain(v, "stat"); }
    assert (v + rest)[0] == v[0];
  }

  lemma ReachesArticle(v: string, rest: string)
    requires Verb(v)
    ensures Classify(v + rest, true) == Article
  {
    if Typed(v, "article") {
      TypedStarts(v, "article", rest);
      ArticleWord(v + rest);
    } else if Typed(v, "head") {
      TypedStarts(v, "head", rest);
      HeadWord(v + rest);
    } else if Typed(v, "body") {
      TypedStarts(v, "body", rest);
      BodyWord(v + rest);
    } else {
      TypedStarts(v, "stat", rest);
      StatWord(v + rest);
    }
  }

  lemma ReachesAuthinfo(rest: string, allowed: bool)
    ensures Classify("authinfo user " + rest, allowed) == AuthinfoUser
    ensures Classify("authinfo pass " + rest, allowed) == AuthinfoPass
  {
    TypedStarts("authinfo user ", "authinfo user ", rest);
    TypedStarts("authinfo pass ", "authinfo pass ", rest);
    AuthinfoUserWord("authinfo user " + rest, allowed);
    AuthinfoPassWord("authinfo pass " + rest, allowed);
  }

  // ---------- Words ----------

  lemma WordsBehind(w: string, rest: string)
    requires PlainWord(w)
    ensures Words(w + " " + rest) == [w] + Words(rest)
  {
    var s := w + " " + rest;
    WordsTake(s, 0, |w|);
    assert s[0..] == s && s[0..|w|] == w && s[|w| + 1..] == rest;
  }

  lemma OnlyWord(w: string)
    requires PlainWord(w)
    ensures NthWord(w, 0) == Some(w) && CutAtCR(w) == w
  {
    WordsTake(w, 0, |w|);
    CutAtCRIs(w, |w|);
    assert w[0..] == w && w[..|w|] == w;
  }

  lemma SecondWord(verb: string, arg: string)
    requires PlainWord(verb) && PlainWord(arg)
    ensures NthWord(verb + " " + arg, 1) == Some(arg)
  {
    WordsBehind(verb, arg);
    OnlyWord(arg);
  }

  /** AUTHINFO reads the first word of whatever stands behind its two keywords. */
  lemma ThirdWord(second: string, text: string)
    requires PlainWord(second)
    ensures NthWord("authinfo " + second + " " + text, 2) == NthWord(text, 0)
  {
    WordsBehind(second, text);
    WordsBehind("authinfo", second + " " + text);
    assert "authinfo " + second + " " + text == "authinfo" + " " + (second + " " + text);
  }

  // ---------- Quotes ----------

  lemma {:induction false} QuotedAppend(s: string, t: string)
    ensures Quoted(s + t) == Quoted(s) + Quoted(t)
  {
    if s == [] {
      assert s + t == t;
    } else {
      assert (s + t)[1..] == s[1..] + t;
      QuotedAppend(s[1..], t);
    }
  }

  lemma {:induction false} QuotedGrows(s: string)
    ensures |Quoted(s)| >= |s| && (|Quoted(s)| == |s| <==> Free(s, '\''))
    ensures Free(s, '\'') ==> Quoted(s) == s
  {
    if s != [] {
      QuotedGrows(s[1..]);
      assert Free(s, '\'') <==> s[0] != '\'' && Free(s[1..], '\'');
    }
  }

  lemma {:induction false} QuotedFree(s: string, c: char)
    requires c != '\'' && Free(s, c)
    ensures Free(Quoted(s), c)
  {
    if s != [] {
      QuotedFree(s[1..], c);
    }
  }

  lemma QuotedPlain(w: string)
    requires PlainWord(w)
    ensures PlainWord(Quoted(w))
  {
    QuotedGrows(w);
    QuotedFree(w, ' ');
    QuotedFree(w, '\r');
  }

  // ---------- From the bytes sent to the line ----------

  /** A line feed stands at the very end, if anywhere. */
  predicate FeedLast(s: string) {
    forall i :: 0 <= i < |s| - 1 ==> s[i] != '\n'
  }

  /** The text up to and including its first line feed. */
  function UpToFeed(s: string): string {
    if s == [] then [] else if s[0] == '\n' then "\n" else [s[0]] + UpToFeed(s[1..])
  }

  lemma {:induction false} UpToFeedFacts(s: string)
    ensures UpToFeed(s) <= s && FeedLast(UpToFeed(s))
    ensures UpToFeed(s) == s <==> FeedLast(s)
    ensures Free(s, '\n') ==> UpToFeed(s) == s
    ensures !Free(s, '\n') ==> UpToFeed(s) != [] && s[|UpToFeed(s)| - 1] == '\n'
  {
    if s != [] && s[0] != '\n' {
      UpToFeedFacts(s[1..]);
      var t := UpToFeed(s[1..]);
      assert s == [s[0]] + s[1..];
    }
  }

  lemma UpToFeedPlain(w: string)
    requires PlainWord(w)
    ensures PlainWord(UpToFeed(w))
  {
    UpToFeedFacts(w);
    assert forall i :: 0 <= i < |UpToFeed(w)| ==> UpToFeed(w)[i] == w[i];
  }

  lemma ReadUpTo(sent: string, line: string, rest: string)
    requires sent == line + "\n" + rest && Free(line, '\n') && |line| < MAX_CMDLEN
    ensures LineRead(sent) == Some(line + "\n")
  {
    assert sent[..|line|] == line && sent[|line|] == '\n';
    FirstLineFeed(sent, |line|);
    assert sent[..|line| + 1] == line + "\n";
  }

  lemma LineSentWhole(head: string, text: string)
    requires Free(head, '\n') && Free(text, '\n') && |head + text + CRLF| <= MAX_CMDLEN
    ensures LineRead(head + text + CRLF) == Some(head + text + CRLF)
  {
    var line := head + text + "\r";
    assert head + text + CRLF == line + "\n" + [];
    ReadUpTo(head + text + CRLF, line, []);
    assert line + "\n" == head + text + CRLF;
  }

  lemma LineSentCut(head: string, before: string, rest: string)
    requires Free(head, '\n') && Free(before, '\n') && |head + before| < MAX_CMDLEN
    ensures LineRead(head + (before + "\n" + rest) + CRLF) == Some(head + (before + "\n"))
  {
    var sent := head + (before + "\n" + rest) + CRLF;
    assert sent == head + before + "\n" + (rest + CRLF);
    ReadUpTo(sent, head + before, rest + CRLF);
    assert head + before + "\n" == head + (before + "\n");
  }

  lemma FirstFeed(text: string) returns (before: string, rest: string)
    requires !Free(text, '\n')
    ensures Free(before, '\n') && text == before + "\n" + rest && UpToFeed(text) == before + "\n"
  {
    UpToFeedFacts(text);
    var t := UpToFeed(text);
    before, rest := t[..|t| - 1], text[|t|..];
    assert t == text[..|t|] && t[|t| - 1] == '\n';
    assert t == before + "\n" && text == t + rest;
  }

  lemma {:induction false} NothingToCut(s: string, n: nat)
    requires n <= |s| && Free(s[..n], '\r')
    ensures CutAtLastCR(s, n) == s
  {
    if n > 1 {
      assert s[n - 1] == s[..n][n - 1] && s[..n - 1] == s[..n][..n - 1];
      NothingToCut(s, n - 1);
    }
  }

  lemma EndCutOff(s: string)
    requires s != []
    ensures Trimmed(s + CRLF) == s
  {
    var t := s + CRLF;
    assert t[|s| + 1] == '\n' && t[|s|] == '\r';
    assert CutAtLastCR(t, |s| + 2) == CutAtLastCR(t, |s| + 1) == t[..|s|];
  }

  lemma TrimmedLine(head: string, text: string)
    requires head != [] && OneLine(head) && Free(text, '\r') && |head + text + CRLF| <= MAX_CMDLEN
    ensures var line := LineRead(head + text + CRLF);
            line.Some? && Trimmed(line.value) == head + UpToFeed(text)
  {
    UpToFeedFacts(text);
    if Free(text, '\n') {
      LineSentWhole(head, text);
      EndCutOff(head + text);
    } else {
      var before, rest := FirstFeed(text);
      LineSentCut(head, before, rest);
      WholeStays(head, before + "\n");
    }
  }

  lemma WholeStays(head: string, text: string)
    requires Free(head, '\r') && Free(text, '\r')
    ensures Trimmed(head + text) == head + text
  {
    var s := head + text;
    assert s[..|s|] == s;
    NothingToCut(s, |s|);
  }

  /** A command as it is typed: one line, without quotes. */
  predicate Head(head: string) {
    head != [] && OneLine(head) && Free(head, '\'')
  }

  /** Without a CR in it, the text arrives up to its first line feed, that included; a text with none
      arrives whole and without the CRLF behind it. */
  lemma LineArrives(head: string, text: string)
    requires Head(head) && Free(text, '\r') && |head + text + CRLF| <= MAX_CMDLEN
    ensures CommandLine(head + text + CRLF) == Some(head + Quoted(UpToFeed(text)))
  {
    TrimmedLine(head, text);
    QuotedAppend(head, UpToFeed(text));
    QuotedGrows(head);
  }

  /** Whatever stands behind the command, the line begins with it. */
  lemma LineStarts(head: string, tail: string) returns (rest: string)
    requires Head(head) && CommandLine(head + tail).Some?
    ensures CommandLine(head + tail) == Some(head + rest)
  {
    var sent := head + tail;
    assert sent[..|head|] == head;
    FirstLineFeed(sent, |head|);
    var line := LineRead(sent).value;
    assert line[..|head|] == head;
    CutBehind(line, |line|, |head|);
    var t := Trimmed(line);
    assert t == head + t[|head|..];
    QuotedAppend(head, t[|head|..]);
    QuotedGrows(head);
    rest := Quoted(t[|head|..]);
  }

  /** A line that was read fits the buffer. */
  lemma WholeLineFits(line: string)
    requires Free(line, '\n') && CommandLine(line + CRLF).Some?
    ensures |line + CRLF| <= MAX_CMDLEN
  {
    var sent := line + CRLF;
    assert sent[..|line| + 1] == line + "\r" && sent[|line| + 1] == '\n';
    FirstLineFeed(sent, |line| + 1);
  }

  lemma {:induction false} CutBehind(s: string, n: nat, k: nat)
    requires k <= n <= |s| && Free(s[..k], '\r')
    ensures |CutAtLastCR(s, n)| >= k
  {
    if n > 1 && s[n - 1] != '\r' && k < n {
      CutBehind(s, n - 1, k);
    } else if n > 1 && k == n {
      NothingToCut(s, n);
    }
  }

  lemma QuotedOne(c: char)
    ensures Quoted([c]) == if c == '\'' then "''" else [c]
  {
    assert [c][1..] == [] && Quoted([]) == [];
  }

  lemma FeedLastQuoted(s: string)
    requires FeedLast(s)
    ensures FeedLast(Quoted(s))
  {
    if s != [] {
      var a, c := s[..|s| - 1], s[|s| - 1];
      assert s == a + [c];
      QuotedAppend(a, [c]);
      QuotedFree(a, '\n');
      QuotedOne(c);
    }
  }

  lemma FeedLastWithin(w: string, s: string)
    requires FeedLast(s) && Within(w, s)
    ensures FeedLast(w)
  {
    var i: nat :| At(s, i, w);
    assert forall k :: 0 <= k < |w| ==> w[k] == s[i..i + |w|][k] == s[i + k];
  }

  /** Whatever is sent: an argument holds no line feed but at its very end. */
  lemma ArgFeedLast(sent: string, n: nat)
    ensures var line := CommandLine(sent);
            line.Some? && NthWord(line.value, n).Some? ==> FeedLast(NthWord(line.value, n).value)
  {
    var line := LineRead(sent);
    if line.Some? {
      ReadFeedLast(sent);
      FeedLastQuoted(Trimmed(line.value));
      ArgIsWithin(Quoted(Trimmed(line.value)), n);
      if NthWord(Quoted(Trimmed(line.value)), n).Some? {
        FeedLastWithin(NthWord(Quoted(Trimmed(line.value)), n).value, Quoted(Trimmed(line.value)));
      }
    }
  }

  lemma ReadFeedLast(sent: string)
    ensures LineRead(sent).Some? ==> FeedLast(LineRead(sent).value)
  {
    forall q: nat | q < |sent| && sent[q] == '\n' ensures At(sent, q, "\n") {
    }
  }

  /** The argument of a command typed as one plain word. */
  lemma WordArrives(v: string, text: string)
    requires PlainWord(v) && Head(v + " ") && PlainWord(text) && |v + " " + text + CRLF| <= MAX_CMDLEN
    ensures var arg := Quoted(UpToFeed(text));
            CommandLine(v + " " + text + CRLF) == Some(v + " " + arg) && NthWord(v + " " + arg, 1) == Some(arg)
  {
    LineArrives(v + " ", text);
    UpToFeedFacts(text);
    UpToFeedPlain(text);
    QuotedPlain(UpToFeed(text));
    SecondWord(v, Quoted(UpToFeed(text)));
  }

  /** A word that arrives as it was typed. */
  predicate PlainArg(arg: string) {
    PlainWord(arg) && Free(arg, '\'') && Free(arg, '\n')
  }

  lemma ArgArrives(v: string, arg: string)
    requires PlainWord(v) && Head(v + " ") && PlainArg(arg) && |v + " " + arg + CRLF| <= MAX_CMDLEN
    ensures CommandLine(v + " " + arg + CRLF) == Some(v + " " + arg) && NthWord(v + " " + arg, 1) == Some(arg)
  {
    WordArrives(v, arg);
    UpToFeedFacts(arg);
    QuotedGrows(arg);
  }

  /** A command without an argument. */
  lemma BareArrives(v: string)
    requires PlainWord(v) && Head(v) && |v + CRLF| <= MAX_CMDLEN
    ensures CommandLine(v + CRLF) == Some(v) && NthWord(v, 1) == None
  {
    LineArrives(v, []);
    assert v + [] + CRLF == v + CRLF && v + [] == v;
    WordsTake(v, 0, |v|);
    assert v[0..] == v && v[0..|v|] == v;
  }
}
