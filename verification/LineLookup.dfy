/** `CDP_return_linevalue` (src/cdpstrings.c): the value of a header line, by name. */
module LineLookup {
  import opened CStrings

  predicate IsBreak(c: char) {
    c == '\r' || c == '\n'
  }

  /** The text before the first CR or LF. */
  function FirstLine(s: string): (l: string)
    ensures OneLine(l) && |l| <= |s| && l == s[..|l|]
    ensures |l| < |s| ==> IsBreak(s[|l|])
  {
    if s == [] || IsBreak(s[0]) then []
    else
      var l := [s[0]] + FirstLine(s[1..]);
      assert l == s[..|l|] && OneLine(l);
      l
  }

  /** What follows the first CR or LF. */
  function NextLine(s: string): (r: string)
    ensures s != [] ==> |r| < |s|
  {
    if |FirstLine(s)| < |s| then s[|FirstLine(s)| + 1..] else []
  }

  /** A line of this name starts here: the key, then a space or a tab. */
  predicate Names(s: string, key: string) {
    AtNoCase(s, 0, key) && |key| < |s| && (s[|key|] == ' ' || s[|key|] == '\t')
  }

  /** The value of the first line that carries the key, if it is not empty. */
  function LineValue(s: string, key: string): Option<string>
    decreases |s|
  {
    if s == [] || key == [] then None
    else if Names(s, key) then
      var v := FirstLine(s[|key| + 1..]);
      if v == [] then None else Some(v)
    else LineValue(NextLine(s), key)
  }

  // ---------- The same on a list of lines ----------

  /** The text cut at every CR and every LF. */
  function Lines(s: string): seq<string>
    decreases |s|
  {
    if s == [] then [] else [FirstLine(s)] + Lines(NextLine(s))
  }

  function ValueIn(lines: seq<string>, key: string): Option<string> {
    if lines == [] then None
    else if Names(lines[0], key) then
      if |lines[0]| == |key| + 1 then None else Some(lines[0][|key| + 1..])
    else ValueIn(lines[1..], key)
  }

  /** For keys that hold no line break, the lookup is a lookup in the list of lines. */
  lemma {:induction false} LookupByLines(s: string, key: string)
    requires key != [] && OneLine(key)
    ensures LineValue(s, key) == ValueIn(Lines(s), key)
    decreases |s|
  {
    if s != [] {
      var l := FirstLine(s);
      LookupByLines(NextLine(s), key);
      if Names(s, key) {
        LineCoversKey(s, key);
        FirstLineDrop(s, |key| + 1);
      } else {
        assert forall i :: 0 <= i < |l| ==> l[i] == s[i];
      }
    }
  }

  lemma LineCoversKey(s: string, key: string)
    requires OneLine(key) && Names(s, key)
    ensures |FirstLine(s)| > |key| && Names(FirstLine(s), key)
  {
    var l := FirstLine(s);
    assert forall i :: 0 <= i <= |key| ==> !IsBreak(s[i]) by {
      forall i | 0 <= i < |key| ensures !IsBreak(s[i]) {
        assert Lower(s[0 + i]) == Lower(key[i]);
      }
    }
    assert forall i :: 0 <= i < |l| ==> l[i] == s[i];
  }

  lemma {:induction false} FirstLineDrop(s: string, k: nat)
    requires k <= |FirstLine(s)|
    ensures FirstLine(s[k..]) == FirstLine(s)[k..]
  {
    if k > 0 {
      FirstLineDrop(s[1..], k - 1);
      assert s[1..][k - 1..] == s[k..];
    } else {
      assert s[0..] == s;
    }
  }

  lemma {:induction false} FirstLineIs(s: string, k: nat)
    requires k <= |s| && forall i :: 0 <= i < k ==> !IsBreak(s[i])
    requires k < |s| ==> IsBreak(s[k])
    ensures FirstLine(s) == s[..k]
  {
    if k > 0 {
      FirstLineIs(s[1..], k - 1);
      assert s[..k] == [s[0]] + s[1..][..k - 1];
    }
  }

  // ---------- The C loop ----------

  /** No line of a text shorter than the key can carry it: leaving early loses nothing. */
  lemma {:induction false} ShortTextHasNone(s: string, key: string)
    requires |s| <= |key|
    ensures LineValue(s, key) == None
    decreases |s|
  {
    if s != [] {
      ShortTextHasNone(NextLine(s), key);
    }
  }

  /** The inner loops: run on to the next CR, LF or the end. */
  method EndOfLine(buf: string, from: nat) returns (i: nat)
    requires from <= |buf|
    ensures from <= i <= |buf| && FirstLine(buf[from..]) == buf[from..i]
    ensures i < |buf| ==> IsBreak(buf[i])
  {
    i := from;
    while i < |buf| && buf[i] != '\r' && buf[i] != '\n'
      invariant from <= i <= |buf|
      invariant forall k :: from <= k < i ==> !IsBreak(buf[k])
    {
      i := i + 1;
    }
    FirstLineIs(buf[from..], i - from);
    assert buf[from..][..i - from] == buf[from..i];
  }

  predicate NamesAt(buf: string, i: nat, key: string) {
    AtNoCase(buf, i, key) && i + |key| < |buf| && (buf[i + |key|] == ' ' || buf[i + |key|] == '\t')
  }

  lemma NamesFrom(buf: string, i: nat, key: string)
    requires i < |buf|
    ensures NamesAt(buf, i, key) <==> Names(buf[i..], key)
  {
    var s := buf[i..];
    if AtNoCase(s, 0, key) {
      forall k | 0 <= k < |key| ensures Lower(buf[i + k]) == Lower(key[k]) {
        assert Lower(s[0 + k]) == Lower(key[k]);
      }
    }
  }

  lemma FirstCharacterDecides(buf: string, i: nat, key: string)
    requires i < |buf| && key != []
    ensures NamesAt(buf, i, key) ==> Lower(buf[i]) == Lower(key[0])
  {
    if NamesAt(buf, i, key) {
      assert Lower(buf[i + 0]) == Lower(key[0]);
    }
  }

  lemma Hit(buf: string, i: nat, key: string, end: nat)
    requires i < |buf| && key != [] && NamesAt(buf, i, key)
    requires i + |key| + 1 <= end <= |buf|
    requires FirstLine(buf[i + |key| + 1..]) == buf[i + |key| + 1..end]
    ensures LineValue(buf[i..], key)
            == if end > i + |key| + 1 then Some(buf[i + |key| + 1..end]) else None
  {
    NamesFrom(buf, i, key);
    assert buf[i..][|key| + 1..] == buf[i + |key| + 1..];
  }

  lemma Miss(buf: string, i: nat, key: string, next: nat)
    requires i < |buf| && (key == [] || !NamesAt(buf, i, key))
    requires i <= next <= |buf| && FirstLine(buf[i..]) == buf[i..next]
    ensures LineValue(buf[i..], key) == if next == |buf| then None else LineValue(buf[next + 1..], key)
  {
    NamesFrom(buf, i, key);
    assert next < |buf| ==> NextLine(buf[i..]) == buf[next + 1..];
  }

  /** The loop body's look at the line that starts at i: an answer, or "wrong attribute". */
  method TryLine(buf: string, i: nat, key: string) returns (decided: bool, value: Option<string>)
    requires i < |buf|
    ensures decided ==> value == LineValue(buf[i..], key)
    ensures !decided ==> key == [] || !NamesAt(buf, i, key)
  {
    if key == [] {
      return false, None;
    }
    FirstCharacterDecides(buf, i, key);
    if Lower(buf[i]) != Lower(key[0]) {
      return false, None;
    }
    if |buf| - i < |key| {
      ShortTextHasNone(buf[i..], key);
      return true, None;
    }
    if !NamesAt(buf, i, key) {
      return false, None;
    }
    var start := i + |key| + 1;
    var end := EndOfLine(buf, start);
    Hit(buf, i, key, end);
    return true, if end - start > 0 then Some(buf[start..end]) else None;
  }

  /** The outer loop and the inner loops advance the same index; NUL is the end of buf. */
  method ReturnLineValue(buf: string, key: string) returns (value: Option<string>)
    ensures value == LineValue(buf, key)
  {
    var i := 0;
    assert buf[0..] == buf;
    while i < |buf|
      invariant i <= |buf|
      invariant LineValue(buf, key) == LineValue(buf[i..], key)
    {
      var decided, v := TryLine(buf, i, key);
      if decided {
        return v;
      }
      var next := EndOfLine(buf, i);
      Miss(buf, i, key, next);
      if next == |buf| {
        return None;
      }
      i := next + 1;
    }
    assert buf[i..] == [];
    return None;
  }
}
