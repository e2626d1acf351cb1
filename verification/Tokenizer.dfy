/** `get_slinearg` (src/server.c): the n-th word of a command line. */
module Tokenizer {
  import opened CStrings

  /** The pieces between spaces, empty ones included. */
  function Split(s: string): (ws: seq<string>)
    ensures |ws| > 0
  {
    if s == [] then [""]
    else if s[0] == ' ' then [""] + Split(s[1..])
    else
      var ws := Split(s[1..]);
      [[s[0]] + ws[0]] + ws[1..]
  }

  function StripCR(w: string): string {
    if w != [] && w[0] == '\r' then StripCR(w[1..]) else w
  }

  function CutAtCR(w: string): string {
    if w == [] || w[0] == '\r' then [] else [w[0]] + CutAtCR(w[1..])
  }

  /** Pieces with leading CRs stripped, empty ones dropped. */
  function NonEmpty(ws: seq<string>): seq<string> {
    if ws == [] then []
    else if StripCR(ws[0]) == [] then NonEmpty(ws[1..])
    else [StripCR(ws[0])] + NonEmpty(ws[1..])
  }

  function Words(s: string): seq<string> {
    NonEmpty(Split(s))
  }

  /** What `get_slinearg(s, n)` answers; None is the NULL pointer. */
  function NthWord(s: string, n: nat): Option<string> {
    if n < |Words(s)| then Some(CutAtCR(Words(s)[n])) else None
  }

  /** The first piece runs up to the first space. */
  lemma {:induction false} SplitAt(s: string, k: nat)
    requires k <= |s| && forall i :: 0 <= i < k ==> s[i] != ' '
    requires k < |s| ==> s[k] == ' '
    ensures Split(s) == [s[..k]] + if k < |s| then Split(s[k + 1..]) else []
  {
    if k == 0 {
    } else {
      SplitAt(s[1..], k - 1);
      assert s[..k] == [s[0]] + s[1..][..k - 1];
      assert k < |s| ==> s[1..][k..] == s[k + 1..];
    }
  }

  /** A space or a leading CR can be skipped without losing a word. */
  lemma WordsSkip(s: string, p: nat)
    requires p < |s| && (s[p] == ' ' || s[p] == '\r')
    ensures Words(s[p..]) == Words(s[p + 1..])
  {
    assert s[p..][1..] == s[p + 1..];
    if s[p] == '\r' {
      var ws := Split(s[p + 1..]);
      assert Split(s[p..]) == [['\r'] + ws[0]] + ws[1..];
      assert (['\r'] + ws[0])[1..] == ws[0];
    }
  }

  /** A piece that starts with neither is a word. */
  lemma WordsTake(s: string, p: nat, q: nat)
    requires p < q <= |s| && s[p] != '\r' && forall i :: p <= i < q ==> s[i] != ' '
    requires q < |s| ==> s[q] == ' '
    ensures Words(s[p..]) == [s[p..q]] + if q < |s| then Words(s[q + 1..]) else []
  {
    SplitAt(s[p..], q - p);
    assert s[p..][..q - p] == s[p..q];
    var rest := if q < |s| then Split(s[q + 1..]) else [];
    assert q < |s| ==> s[p..][q - p + 1..] == s[q + 1..];
    assert Split(s[p..]) == [s[p..q]] + rest;
    assert StripCR(s[p..q]) == s[p..q];
    var ws := [s[p..q]] + rest;
    assert ws[1..] == rest;
    assert NonEmpty(ws) == [s[p..q]] + NonEmpty(ws[1..]);
  }

  lemma {:induction false} CutAtCRIs(w: string, k: nat)
    requires k <= |w| && forall i :: 0 <= i < k ==> w[i] != '\r'
    requires k < |w| ==> w[k] == '\r'
    ensures CutAtCR(w) == w[..k]
  {
    if k == 0 {
    } else {
      CutAtCRIs(w[1..], k - 1);
      assert w[..k] == [w[0]] + w[1..][..k - 1];
    }
  }

  /** The two inner loops: run on to the next space (or, when copying, the next CR). */
  method EndOfWord(s: string, from: nat, copying: bool) returns (ptr: nat)
    requires from <= |s|
    ensures from <= ptr <= |s|
    ensures forall i :: from <= i < ptr ==> s[i] != ' ' && (copying ==> s[i] != '\r')
    ensures ptr < |s| ==> s[ptr] == ' ' || (copying && s[ptr] == '\r')
  {
    ptr := from;
    while ptr < |s| && s[ptr] != ' ' && !(copying && s[ptr] == '\r')
      invariant from <= ptr <= |s|
      invariant forall i :: from <= i < ptr ==> s[i] != ' ' && (copying ==> s[i] != '\r')
    {
      ptr := ptr + 1;
    }
  }

  /** The word copied up to a space or CR is the whole piece cut at its first CR. */
  lemma WordCopied(s: string, p: nat, q: nat, k: nat)
    requires p < q <= k <= |s| && forall i :: p <= i < q ==> s[i] != '\r'
    requires forall i :: p <= i < k ==> s[i] != ' '
    requires q < |s| ==> s[q] == ' ' || s[q] == '\r'
    requires k < |s| ==> s[k] == ' '
    ensures |Words(s[p..])| > 0 && CutAtCR(Words(s[p..])[0]) == s[p..q]
  {
    WordsTake(s, p, k);
    CutAtCRIs(s[p..k], q - p);
    assert s[p..k][..q - p] == s[p..q];
  }

  /** Copying the word that starts here. */
  method CopyWord(s: string, from: nat) returns (word: string)
    requires from < |s| && s[from] != ' ' && s[from] != '\r'
    ensures |Words(s[from..])| > 0 && word == CutAtCR(Words(s[from..])[0])
  {
    var ptr := EndOfWord(s, from, true);
    ghost var k := EndOfWordAt(s, ptr);
    WordCopied(s, from, ptr, k);
    word := s[from..ptr];
  }

  /** The scanning loop agrees with the definition by splitting, on every line and every index. */
  method GetSlineArg(cmdstring: string, num: nat) returns (word: Option<string>)
    ensures word == NthWord(cmdstring, num)
  {
    var cnt := 0;
    ghost var done: seq<string> := [];
    var ptr := 0;
    assert cmdstring[0..] == cmdstring;
    while ptr < |cmdstring|
      invariant ptr <= |cmdstring|
      invariant |done| == cnt <= num
      invariant Words(cmdstring) == done + Words(cmdstring[ptr..])
    {
      if cmdstring[ptr] != ' ' && cmdstring[ptr] != '\r' {
        var tmp := ptr;
        if cnt == num {
          var copied := CopyWord(cmdstring, tmp);
          return Some(copied);
        }
        ptr := EndOfWord(cmdstring, tmp, false);
        WordsTake(cmdstring, tmp, ptr);
        if ptr == |cmdstring| {
          return None;
        }
        done := done + [cmdstring[tmp..ptr]];
        cnt := cnt + 1;
      } else {
        WordsSkip(cmdstring, ptr);
      }
      ptr := ptr + 1;
    }
    return None;
  }

  ghost function EndOfWordAt(s: string, p: nat): (k: nat)
    requires p <= |s|
    ensures p <= k <= |s| && (k < |s| ==> s[k] == ' ')
    ensures forall i :: p <= i < k ==> s[i] != ' '
    decreases |s| - p
  {
    if p == |s| || s[p] == ' ' then p else EndOfWordAt(s, p + 1)
  }

  // ---------- What a word can be ----------

  /** A piece, stripped and not empty: no space in it and no CR in front. */
  predicate Stripped(w: string) {
    w != [] && w[0] != '\r' && Free(w, ' ')
  }

  lemma {:induction false} PiecesHaveNoSpace(s: string)
    ensures forall w :: w in Split(s) ==> Free(w, ' ')
  {
    if s != [] {
      PiecesHaveNoSpace(s[1..]);
      assert Split(s[1..])[0] in Split(s[1..]);
    }
  }

  lemma {:induction false} StripIsSuffix(w: string)
    requires Free(w, ' ')
    ensures StripCR(w) == [] || Stripped(StripCR(w))
  {
    if w != [] && w[0] == '\r' {
      StripIsSuffix(w[1..]);
    }
  }

  lemma {:induction false} WordsAreStripped(ws: seq<string>)
    requires forall w :: w in ws ==> Free(w, ' ')
    ensures forall w :: w in NonEmpty(ws) ==> Stripped(w)
  {
    if ws != [] {
      assert ws[0] in ws && forall w :: w in ws[1..] ==> w in ws;
      WordsAreStripped(ws[1..]);
      StripIsSuffix(ws[0]);
    }
  }

  lemma {:induction false} CutIsPrefix(w: string)
    ensures |CutAtCR(w)| <= |w| && CutAtCR(w) == w[..|CutAtCR(w)|] && Free(CutAtCR(w), '\r')
  {
    if w != [] && w[0] != '\r' {
      CutIsPrefix(w[1..]);
    }
  }

  /** Whatever the line: an argument read from it is a plain word. */
  lemma ArgIsPlain(s: string, n: nat)
    ensures var w := NthWord(s, n); w.Some? ==> PlainWord(w.value)
  {
    if n < |Words(s)| {
      PiecesHaveNoSpace(s);
      WordsAreStripped(Split(s));
      assert Words(s)[n] in Words(s);
      CutIsPrefix(Words(s)[n]);
    }
  }

  /** One text stands in another. */
  ghost predicate Within(w: string, s: string) {
    exists i: nat :: At(s, i, w)
  }

  lemma AtDeeper(s: string, i: nat, w: string, j: nat, v: string)
    requires At(s, i, w) && At(w, j, v)
    ensures At(s, i + j, v)
  {
    forall k | 0 <= k < |v| ensures s[i + j + k] == v[k] {
      assert s[i..i + |w|][j + k] == w[j + k] == w[j..j + |v|][k];
    }
  }

  lemma WithinWithin(v: string, w: string, s: string)
    requires Within(v, w) && Within(w, s)
    ensures Within(v, s)
  {
    var j: nat :| At(w, j, v);
    var i: nat :| At(s, i, w);
    AtDeeper(s, i, w, j, v);
  }

  lemma SliceIsWithin(s: string, i: nat, k: nat)
    requires i <= k <= |s|
    ensures Within(s[i..k], s)
  {
    assert At(s, i, s[i..k]);
  }

  lemma {:induction false} PiecesAreWithin(s: string)
    ensures forall w :: w in Split(s) ==> Within(w, s)
    ensures At(s, 0, Split(s)[0])
  {
    if s == [] {
      SliceIsWithin(s, 0, 0);
    } else {
      var rest := Split(s[1..]);
      PiecesAreWithin(s[1..]);
      assert s[1..] == s[1..|s|];
      SliceIsWithin(s, 1, |s|);
      SliceIsWithin(s, 0, 0);
      forall w | w in rest ensures Within(w, s) {
        WithinWithin(w, s[1..], s);
      }
      assert At(s, 0, Split(s)[0]);
      assert Within(Split(s)[0], s);
    }
  }

  lemma {:induction false} StripIsWithin(w: string)
    ensures Within(StripCR(w), w)
  {
    if w != [] && w[0] == '\r' {
      StripIsWithin(w[1..]);
      SliceIsWithin(w, 1, |w|);
      assert w[1..|w|] == w[1..];
      WithinWithin(StripCR(w), w[1..], w);
    } else {
      SliceIsWithin(w, 0, |w|);
      assert w[0..|w|] == w;
    }
  }

  lemma {:induction false} StrippedAreWithin(ws: seq<string>, s: string)
    requires forall w :: w in ws ==> Within(w, s)
    ensures forall w :: w in NonEmpty(ws) ==> Within(w, s)
  {
    if ws != [] {
      assert ws[0] in ws && forall w :: w in ws[1..] ==> w in ws;
      StrippedAreWithin(ws[1..], s);
      StripIsWithin(ws[0]);
      WithinWithin(StripCR(ws[0]), ws[0], s);
    }
  }

  /** An argument is a part of the line. */
  lemma ArgIsWithin(s: string, n: nat)
    ensures var w := NthWord(s, n); w.Some? ==> Within(w.value, s)
  {
    if n < |Words(s)| {
      PiecesAreWithin(s);
      StrippedAreWithin(Split(s), s);
      var w := Words(s)[n];
      assert w in Words(s);
      CutIsPrefix(w);
      SliceIsWithin(w, 0, |CutAtCR(w)|);
      WithinWithin(CutAtCR(w), w, s);
    }
  }

  // ---------- Round trip ----------

  function Spaces(n: nat): string {
    seq(n, i => ' ')
  }

  /** Words laid out on a line, each followed by its number of spaces. */
  function Layout(words: seq<string>, gaps: seq<nat>): string
    requires |gaps| == |words|
  {
    if words == [] then [] else words[0] + Spaces(gaps[0]) + Layout(words[1..], gaps[1..])
  }

  predicate PlainWord(w: string) {
    w != [] && Free(w, ' ') && Free(w, '\r')
  }

  lemma {:induction false} WordsSkipSpaces(n: nat, rest: string)
    ensures Words(Spaces(n) + rest) == Words(rest)
  {
    if n == 0 {
      assert Spaces(0) + rest == rest;
    } else {
      var s := Spaces(n) + rest;
      WordsSkip(s, 0);
      assert s[0..] == s && s[1..] == Spaces(n - 1) + rest;
      WordsSkipSpaces(n - 1, rest);
    }
  }

  lemma {:induction false} WordsOfLayout(words: seq<string>, gaps: seq<nat>)
    requires |gaps| == |words| && forall i :: 0 <= i < |words| ==> PlainWord(words[i])
    requires forall i :: 0 <= i < |gaps| - 1 ==> gaps[i] > 0
    ensures Words(Layout(words, gaps)) == words
  {
    if words != [] {
      var w, rest := words[0], Layout(words[1..], gaps[1..]);
      var s := Layout(words, gaps);
      assert PlainWord(w);
      WordsOfLayout(words[1..], gaps[1..]);
      assert s[0..] == s && s[0..|w|] == w;
      assert forall i :: 0 <= i < |w| ==> s[i] == w[i];
      if gaps[0] > 0 {
        assert s[|w| + 1..] == Spaces(gaps[0] - 1) + rest;
        WordsTake(s, 0, |w|);
        WordsSkipSpaces(gaps[0] - 1, rest);
      } else {
        assert rest == [] && s == w;
        WordsTake(s, 0, |w|);
      }
    }
  }

  /** Any plain words, however they are spaced out, come back by their index and nothing else does. */
  lemma ArgRoundTrip(lead: nat, words: seq<string>, gaps: seq<nat>, n: nat)
    requires |gaps| == |words| && forall i :: 0 <= i < |words| ==> PlainWord(words[i])
    requires forall i :: 0 <= i < |gaps| - 1 ==> gaps[i] > 0
    ensures NthWord(Spaces(lead) + Layout(words, gaps), n)
            == if n < |words| then Some(words[n]) else None
  {
    var line := Spaces(lead) + Layout(words, gaps);
    assert Words(line) == words by {
      WordsSkipSpaces(lead, Layout(words, gaps));
      WordsOfLayout(words, gaps);
    }
    if n < |words| {
      assert PlainWord(words[n]);
      CutAtCRIs(words[n], |words[n]|);
      assert words[n][..|words[n]|] == words[n];
    }
  }
}
