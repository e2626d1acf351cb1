/** The C string operations the server is written in: case-insensitive comparison, substring
    search, decimal printing and parsing, and `strtok` on commas.  A C string is a `string`
    that holds no NUL; a C buffer is an `array<char>` in which NUL ends the live text. */
module CStrings {

  datatype Option<+T> = None | Some(value: T)

  const NUL := '\0'
  const CRLF := "\r\n"

  // ---------- Case-insensitive comparison ----------

  function Lower(c: char): char {
    if 'A' <= c <= 'Z' then c - 'A' + 'a' else c
  }

  /** `strncasecmp(s + p, w, strlen(w)) == 0`. */
  predicate AtNoCase(s: string, p: nat, w: string) {
    p + |w| <= |s| && forall i :: 0 <= i < |w| ==> Lower(s[p + i]) == Lower(w[i])
  }

  lemma MatchedChar(s: string, i: nat, name: string, k: nat)
    requires AtNoCase(s, i, name) && k < |name|
    ensures Lower(s[i + k]) == Lower(name[k])
  {
  }

  // ---------- Substring search ----------

  /** w occurs in s at position p. */
  predicate At(s: string, p: nat, w: string) {
    p + |w| <= |s| && s[p..p + |w|] == w
  }

  predicate EndsWith(s: string, w: string) {
    |w| <= |s| && s[|s| - |w|..] == w
  }

  /** `strstr(s + from, w)`: the first occurrence at or after a position. */
  function Find(s: string, w: string, from: nat): (p: Option<nat>)
    requires from <= |s|
    ensures p.Some? ==> from <= p.value <= |s| && At(s, p.value, w)
    ensures forall q: nat :: from <= q && (p.Some? ==> q < p.value) ==> !At(s, q, w)
    decreases |s| - from
  {
    if At(s, from, w) then Some(from)
    else if from == |s| then None
    else Find(s, w, from + 1)
  }

  /** The first case-insensitive occurrence. */
  function FindNoCase(s: string, w: string, from: nat): (p: Option<nat>)
    requires from <= |s|
    ensures p.Some? ==> from <= p.value <= |s| && AtNoCase(s, p.value, w)
    ensures forall q: nat :: from <= q && (p.Some? ==> q < p.value) ==> !AtNoCase(s, q, w)
    decreases |s| - from
  {
    if AtNoCase(s, from, w) then Some(from)
    else if from == |s| then None
    else FindNoCase(s, w, from + 1)
  }

  predicate Free(s: string, c: char) {
    forall i :: 0 <= i < |s| ==> s[i] != c
  }

  /** No line break inside: the text stays on one line. */
  predicate OneLine(s: string) {
    Free(s, '\r') && Free(s, '\n')
  }

  // ---------- Quotes ----------

  /** `sqlite3_mprintf("%q", s)`: every single quote doubled. */
  function Quoted(s: string): string {
    if s == [] then [] else (if s[0] == '\'' then "''" else [s[0]]) + Quoted(s[1..])
  }

  // ---------- Counting ----------

  function Count(s: string, c: char): nat {
    if s == [] then 0 else (if s[|s| - 1] == c then 1 else 0) + Count(s[..|s| - 1], c)
  }

  lemma CountOne(x: char, c: char)
    ensures Count([x], c) == if x == c then 1 else 0
  {
    assert [x][..0] == [];
  }

  lemma {:induction false} CountAppend(s: string, t: string, c: char)
    ensures Count(s + t, c) == Count(s, c) + Count(t, c)
  {
    if t == [] {
      assert s + t == s;
    } else {
      assert (s + t)[..|s + t| - 1] == s + t[..|t| - 1];
      CountAppend(s, t[..|t| - 1], c);
    }
  }

  // ---------- Decimal numbers ----------

  predicate IsDigit(c: char) {
    '0' <= c <= '9'
  }

  predicate AllDigits(s: string) {
    forall i :: 0 <= i < |s| ==> IsDigit(s[i])
  }

  function Digit(d: nat): (c: char)
    requires d < 10
    ensures IsDigit(c) && c as int - '0' as int == d
  {
    d as char + '0'
  }

  /** printf's `%lld`, `%u` and non-negative `%i`. */
  function Dec(n: nat): (s: string)
    ensures |s| > 0 && AllDigits(s)
  {
    if n < 10 then [Digit(n)] else Dec(n / 10) + [Digit(n % 10)]
  }

  /** The number a run of digits denotes. */
  function DigitsValue(s: string): nat
    requires AllDigits(s)
  {
    if s == [] then 0
    else 10 * DigitsValue(s[..|s| - 1]) + (s[|s| - 1] as int - '0' as int)
  }

  lemma {:induction false} DecRoundTrip(n: nat)
    ensures DigitsValue(Dec(n)) == n
  {
    if n >= 10 {
      DecRoundTrip(n / 10);
      assert Dec(n)[..|Dec(n)| - 1] == Dec(n / 10);
    }
  }

  /** Numbers below a power of ten print in at most that many digits. */
  lemma {:induction false} DecShort(n: nat, digits: nat)
    requires digits >= 1 && n < Pow10(digits)
    ensures |Dec(n)| <= digits
  {
    if n >= 10 {
      DecShort(n / 10, digits - 1);
    }
  }

  function Pow10(k: nat): nat {
    if k == 0 then 1 else 10 * Pow10(k - 1)
  }

  predicate IsSpace(c: char) {
    c == ' ' || ('\t' <= c <= '\r')
  }

  function DigitPrefix(s: string): (k: nat)
    ensures k <= |s| && forall i :: 0 <= i < k ==> IsDigit(s[i])
    ensures k < |s| ==> !IsDigit(s[k])
  {
    if s == [] || !IsDigit(s[0]) then 0
    else
      var k := 1 + DigitPrefix(s[1..]);
      assert forall i :: 1 <= i < k ==> s[i] == s[1..][i - 1];
      k
  }

  /** `atoi`: leading white space, an optional sign, then the longest run of digits.  Results
      outside the range of int, which C leaves undefined, are not cut down. */
  function Atoi(s: string): int {
    if s == [] then 0
    else if IsSpace(s[0]) then Atoi(s[1..])
    else if s[0] == '-' then -(DigitsValue(s[1..][..DigitPrefix(s[1..])]) as int)
    else if s[0] == '+' then DigitsValue(s[1..][..DigitPrefix(s[1..])])
    else DigitsValue(s[..DigitPrefix(s)])
  }

  /** Reading back a printed number, whatever non-digit follows it. */
  lemma AtoiDec(n: nat, rest: string)
    requires rest == [] || !IsDigit(rest[0])
    ensures Atoi(Dec(n) + rest) == n
  {
    var s := Dec(n) + rest;
    assert forall i :: 0 <= i < |Dec(n)| ==> s[i] == Dec(n)[i];
    var k := DigitPrefix(s);
    assert rest != [] ==> s[|Dec(n)|] == rest[0];
    assert s[..k] == Dec(n);
    DecRoundTrip(n);
  }

  // ---------- strtok on commas ----------

  /** Length of the text before the first comma. */
  function BeforeComma(s: string): (k: nat)
    ensures k <= |s| && forall i :: 0 <= i < k ==> s[i] != ','
    ensures k < |s| ==> s[k] == ','
  {
    if s == [] || s[0] == ',' then 0
    else
      var k := 1 + BeforeComma(s[1..]);
      assert forall i :: 1 <= i < k ==> s[i] == s[1..][i - 1];
      k
  }

  /** The names `strtok(s, ",")` yields one after the other: the non-empty pieces. */
  function Tokens(s: string): (ts: seq<string>)
    ensures forall i :: 0 <= i < |ts| ==> ts[i] != [] && Free(ts[i], ',')
    decreases |s|
  {
    if s == [] then []
    else if s[0] == ',' then Tokens(s[1..])
    else
      var k := BeforeComma(s);
      assert k > 0;
      [s[..k]] + Tokens(s[k..])
  }

  /** One call of `strtok_r`: skips commas, cuts the next name off and keeps the rest. */
  method StrTok(s: string) returns (token: Option<string>, rest: string)
    ensures Tokens(s) == if token.None? then [] else [token.value] + Tokens(rest)
    ensures token.Some? ==> |rest| < |s|
  {
    var i := 0;
    while i < |s| && s[i] == ','
      invariant i <= |s|
      invariant Tokens(s) == Tokens(s[i..])
    {
      assert s[i..][1..] == s[i + 1..];
      i := i + 1;
    }
    if i == |s| {
      return None, [];
    }
    var start := i;
    while i < |s| && s[i] != ','
      invariant start <= i <= |s|
      invariant forall j :: start <= j < i ==> s[j] != ','
    {
      i := i + 1;
    }
    ghost var k := BeforeComma(s[start..]);
    assert forall j :: 0 <= j < |s| - start ==> s[start..][j] == s[start + j];
    assert s[start..][..k] == s[start..i] && s[start..][k..] == s[i..];
    token, rest := Some(s[start..i]), if i < |s| then s[i + 1..] else [];
    if i < |s| {
      assert s[i..][1..] == rest;
    }
  }
}
