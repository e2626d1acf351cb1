/** The in-place removal of client-sent Message-ID, Date and Lines fields (src/server.c).
    Each pass scans the whole original extent of the buffer, stale bytes included. */
module HeaderEdit {
  import opened CStrings

  const MESSAGE_ID := "Message-ID: "
  const DATE := "Date: "
  const LINES := "Lines: "

  // ---------- What one pass does to the text ----------

  /** Where the line around k ends: behind a CR and the byte after it, or behind an LF. */
  function LineEnd(s: string, k: nat): (e: nat)
    requires k <= |s|
    ensures k <= e <= |s|
    decreases |s| - k
  {
    if k == |s| then k
    else if s[k] == '\r' || (k + 1 < |s| && s[k + 1] == '\n') then if k + 2 <= |s| then k + 2 else |s|
    else LineEnd(s, k + 1)
  }

  /** The text without the slice from p to the end of the line around p + n - 1. */
  function CutLine(s: string, p: nat, n: nat): string
    requires n > 0 && p + n <= |s|
  {
    s[..p] + s[LineEnd(s, p + n - 1)..]
  }

  /** Cuts out the slice from the first occurrence of the name, wherever it stands, to the end
      of its line. */
  function DeleteFirst(s: string, name: string): string
    requires name != []
  {
    var p := FindNoCase(s, name, 0);
    if p.None? then s else CutLine(s, p.value, |name|)
  }

  function EditHeader(s: string): string {
    DeleteFirst(DeleteFirst(DeleteFirst(s, MESSAGE_ID), DATE), LINES)
  }

  /** A field name: no line break, no NUL, long enough not to reach the last line break. */
  predicate FieldName(name: string) {
    |name| > 2 && OneLine(name) && Free(name, NUL)
  }

  lemma NamesAreFields()
    ensures FieldName(MESSAGE_ID) && FieldName(DATE) && FieldName(LINES)
  {
  }

  // ---------- The buffer ----------

  /** The live text, its NUL, and behind it whatever earlier passes left; the buffer still ends
      in the line break and the NUL it was created with. */
  ghost predicate Live(h: array<char>, s: string)
    reads h
  {
    && 3 <= h.Length && |s| < h.Length && h[|s|] == NUL
    && (forall i :: 0 <= i < |s| ==> h[i] == s[i] && s[i] != NUL)
    && h[h.Length - 3] == '\r' && h[h.Length - 2] == '\n' && h[h.Length - 1] == NUL
  }

  /** `strlen(header)`. */
  method Strlen(h: array<char>, ghost n: nat) returns (k: nat)
    requires n < h.Length && h[n] == NUL && forall i :: 0 <= i < n ==> h[i] != NUL
    ensures k == n
  {
    k := 0;
    while h[k] != NUL
      invariant k <= n
      decreases n - k
    {
      k := k + 1;
    }
  }

  /** `strncasecmp(header + i, name, strlen(name)) == 0`; a mismatch stops it inside the buffer. */
  method SameName(h: array<char>, i: nat, name: string) returns (same: bool)
    requires FieldName(name) && i < h.Length && h[h.Length - 1] == NUL
    ensures same <==> AtNoCase(h[..], i, name)
  {
    var k := 0;
    while k < |name|
      invariant k <= |name| && i + k < h.Length
      invariant forall j :: 0 <= j < k ==> Lower(h[i + j]) == Lower(name[j])
    {
      if Lower(h[i + k]) != Lower(name[k]) {
        return false;
      }
      k := k + 1;
    }
    return true;
  }

  /** The loop that looks for the end of the line; it may run on into stale bytes. */
  method FindLineEnd(h: array<char>, from: nat) returns (k: nat)
    requires 3 <= h.Length && from <= h.Length - 3 && h[h.Length - 3] == '\r'
    ensures from <= k <= h.Length - 3 && (h[k] == '\r' || h[k + 1] == '\n')
    ensures (forall j :: from <= j < k ==> h[j] != '\r') && (forall j :: from < j <= k ==> h[j] != '\n')
  {
    k := from;
    while h[k] != '\r' && h[k + 1] != '\n'
      invariant from <= k <= h.Length - 3
      invariant (forall j :: from <= j < k ==> h[j] != '\r') && (forall j :: from < j <= k ==> h[j] != '\n')
      decreases h.Length - k
    {
      k := k + 1;
    }
  }

  /** Whether or not it ran past the live text, the loop finds the line end of the live text. */
  lemma {:induction false} LineEndFound(h: array<char>, s: string, from: nat, k: nat)
    requires Live(h, s) && from <= |s| && from <= k <= h.Length - 3
    requires h[k] == '\r' || h[k + 1] == '\n'
    requires (forall j :: from <= j < k ==> h[j] != '\r') && (forall j :: from < j <= k ==> h[j] != '\n')
    ensures LineEnd(s, from) == if k + 2 <= |s| then k + 2 else |s|
    decreases |s| - from
  {
    if from < |s| && from < k {
      LineEndFound(h, s, from + 1, k);
    }
  }

  /** The copying loop, which asks for `strlen` again at every byte, closes the gap. */
  method CloseGap(h: array<char>, p: nat, e: nat, ghost s: string)
    requires Live(h, s) && p + 3 < e <= |s|
    modifies h
    ensures Live(h, s[..p] + s[e..])
  {
    var i, lenb := p, e;
    ghost var d := e - p;
    var length := Strlen(h, |s|);
    while lenb <= length
      invariant p <= i && lenb == i + d && lenb <= |s| + 1
      invariant forall j :: 0 <= j < p ==> h[j] == s[j]
      invariant forall j :: p <= j < i && j + d < |s| ==> h[j] == s[j + d]
      invariant forall j :: i <= j < h.Length ==> h[j] == old(h[j])
      invariant lenb == |s| + 1 ==> h[i - 1] == NUL
      invariant length == if lenb <= |s| then |s| else |s| - d
      decreases |s| + 1 - lenb
    {
      h[i] := h[lenb];
      i := i + 1;
      lenb := lenb + 1;
      length := Strlen(h, if lenb <= |s| then |s| else |s| - d);
    }
    h[i] := NUL;
  }

  /** What the match at i and the line end at k mean for the text. */
  lemma DeletedSlice(h: array<char>, s: string, i: nat, name: string, k: nat)
    requires Live(h, s) && FieldName(name) && i + |name| - 1 <= k <= h.Length - 3
    requires FindNoCase(s, name, 0) == if i + |name| <= |s| then Some(i) else None
    requires i + |name| <= |s| || |s| < i
    requires h[k] == '\r' || h[k + 1] == '\n'
    requires (forall j :: i + |name| - 1 <= j < k ==> h[j] != '\r')
    requires (forall j :: i + |name| - 1 < j <= k ==> h[j] != '\n')
    ensures DeleteFirst(s, name)
            == if |s| < i then s else if k + 2 <= |s| then s[..i] + s[k + 2..] else s[..i]
  {
    if i + |name| <= |s| {
      LineEndFound(h, s, i + |name| - 1, k);
      var e := LineEnd(s, i + |name| - 1);
      assert DeleteFirst(s, name) == CutLine(s, i, |name|) == s[..i] + s[e..];
      if e == |s| {
        assert s[e..] == [];
      }
    } else {
      assert DeleteFirst(s, name) == s;
    }
  }

  /** A NUL written into the text cuts it; written behind it, it changes nothing. */
  method Terminate(h: array<char>, i: nat, ghost s: string)
    requires Live(h, s) && i < h.Length - 3 && i != |s|
    modifies h
    ensures Live(h, if i < |s| then s[..i] else s)
  {
    h[i] := NUL;
  }

  /** The copying or cutting that follows a match at i whose line ends at lenb. */
  method CutAt(h: array<char>, i: nat, lenb: nat, ghost s: string, ghost t: string)
    requires Live(h, s) && i < h.Length - 3 && i != |s| && i + 3 < lenb
    requires t == if |s| < i then s else if lenb <= |s| then s[..i] + s[lenb..] else s[..i]
    modifies h
    ensures Live(h, t)
  {
    var length := Strlen(h, |s|);
    if lenb <= length {
      CloseGap(h, i, lenb, s);
    } else {
      Terminate(h, i, s);
    }
  }

  /** Handling of a match at i: in the live text it removes the slice, in the stale bytes it
      leaves the text alone. */
  method RemoveAt(h: array<char>, i: nat, name: string, ghost s: string)
    requires Live(h, s) && FieldName(name) && AtNoCase(h[..], i, name)
    requires forall q: nat :: q < i ==> !AtNoCase(h[..], q, name)
    modifies h
    ensures Live(h, DeleteFirst(s, name))
  {
    NoMatchOverBreak(h[..], i, name);
    var k := FindLineEnd(h, i + |name| - 1);
    MatchMeans(h, s, i, name, k);
    CutAt(h, i, k + 2, s, DeleteFirst(s, name));
  }

  lemma MatchMeans(h: array<char>, s: string, i: nat, name: string, k: nat)
    requires Live(h, s) && FieldName(name) && AtNoCase(h[..], i, name)
    requires forall q: nat :: q < i ==> !AtNoCase(h[..], q, name)
    requires i + |name| - 1 <= k <= h.Length - 3 && (h[k] == '\r' || h[k + 1] == '\n')
    requires (forall j :: i + |name| - 1 <= j < k ==> h[j] != '\r')
    requires (forall j :: i + |name| - 1 < j <= k ==> h[j] != '\n')
    ensures i != |s|
    ensures DeleteFirst(s, name)
            == if |s| < i then s else if k + 2 <= |s| then s[..i] + s[k + 2..] else s[..i]
  {
    MatchPlace(h[..], s, i, name);
    DeletedSlice(h, s, i, name, k);
  }

  /** A match lies wholly in the live text or wholly behind it, never over the last line break;
      and the first match in the buffer is the first one in the text, if that has any. */
  lemma MatchPlace(b: string, s: string, i: nat, name: string)
    requires 3 <= |b| && |s| < |b| && b[|s|] == NUL && b[|b| - 3] == '\r' && b[|b| - 1] == NUL && b[|b| - 2] == '\n'
    requires forall j :: 0 <= j < |s| ==> b[j] == s[j]
    requires FieldName(name) && AtNoCase(b, i, name)
    requires forall q: nat :: q < i ==> !AtNoCase(b, q, name)
    ensures i + |name| <= |b| - 3
    ensures i + |name| <= |s| || |s| < i
    ensures i + |name| <= |s| ==> FindNoCase(s, name, 0) == Some(i)
    ensures |s| < i ==> FindNoCase(s, name, 0) == None
  {
    if i <= |s| < i + |name| {
      MatchedChar(b, i, name, |s| - i);
    }
    NoMatchOverBreak(b, i, name);
    InText(b, s, name);
  }

  lemma NoMatchOverBreak(b: string, i: nat, name: string)
    requires 3 <= |b| && b[|b| - 3] == '\r' && b[|b| - 2] == '\n' && b[|b| - 1] == NUL
    requires FieldName(name) && AtNoCase(b, i, name)
    ensures i + |name| <= |b| - 3
  {
    var last := i + |name| - 1;
    assert Lower(b[i + (|name| - 1)]) == Lower(name[|name| - 1]);
    assert last != |b| - 1 && last != |b| - 2 && last != |b| - 3;
  }

  lemma InText(b: string, s: string, name: string)
    requires |s| <= |b| && forall j :: 0 <= j < |s| ==> b[j] == s[j]
    ensures forall q: nat :: q + |name| <= |s| ==> (AtNoCase(b, q, name) <==> AtNoCase(s, q, name))
  {
  }

  /** One pass over the buffer. */
  method RemoveField(h: array<char>, len: nat, name: string, ghost s: string)
    requires Live(h, s) && FieldName(name) && len == h.Length - 3
    modifies h
    ensures Live(h, DeleteFirst(s, name))
  {
    var i := 0;
    while i < len
      invariant i <= len && h[..] == old(h[..])
      invariant forall q: nat :: q < i ==> !AtNoCase(h[..], q, name)
    {
      var same := SameName(h, i, name);
      if same {
        RemoveAt(h, i, name, s);
        return;
      }
      i := i + 1;
    }
    NoMatchInText(h[..], s, len, name);
  }

  lemma NoMatchInText(b: string, s: string, len: nat, name: string)
    requires FieldName(name) && |s| < |b| == len + 3 && forall j :: 0 <= j < |s| ==> b[j] == s[j]
    requires forall q: nat :: q < len ==> !AtNoCase(b, q, name)
    ensures FindNoCase(s, name, 0) == None
  {
    InText(b, s, name);
  }

  /** The zeroed copy of the header, one byte longer than its text. */
  method CopyHeader(header: string) returns (h: array<char>)
    requires EndsWith(header, CRLF) && Free(header, NUL)
    ensures fresh(h) && h.Length == |header| + 1 && Live(h, header)
  {
    h := new char[|header| + 1](i => NUL);
    forall i | 0 <= i < |header| {
      h[i] := header[i];
    }
    var end := header[|header| - 2..];
    assert end[0] == header[|header| - 2] && end[1] == header[|header| - 1];
  }

  /** The three passes, starting from a freshly copied header that ends in a line break. */
  method RemoveLines(header: string) returns (edited: string)
    requires EndsWith(header, CRLF) && Free(header, NUL)
    ensures edited == EditHeader(header)
  {
    var h := CopyHeader(header);
    var len := |header| - 2;
    NamesAreFields();
    RemoveField(h, len, MESSAGE_ID, header);
    ghost var s1 := DeleteFirst(header, MESSAGE_ID);
    RemoveField(h, len, DATE, s1);
    ghost var s2 := DeleteFirst(s1, DATE);
    RemoveField(h, len, LINES, s2);
    ghost var s3 := DeleteFirst(s2, LINES);
    var length := Strlen(h, |s3|);
    edited := h[..length];
    assert edited == s3;
  }
}
