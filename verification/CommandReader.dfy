/** How the main loop reads one command (src/server.c): byte by byte up to a line feed, cut at its
    last CR, its single quotes doubled. */
module CommandReader {
  import opened CStrings
  import opened Receive
  import HeaderEdit

  const MAX_CMDLEN := 8196

  /** The bytes up to and including the first line feed; None when the client goes away before one
      comes, or the buffer is full. */
  function LineRead(sent: string): (line: Option<string>)
    ensures line.Some? ==> line.value != [] && line.value <= sent
  {
    var p := Find(sent, "\n", 0);
    if p.None? || p.value >= MAX_CMDLEN then None else Some(sent[..p.value + 1])
  }

  /** The first n bytes, cut at the last CR among them; a CR at the very start does not count. */
  function CutAtLastCR(s: string, n: nat): (t: string)
    requires n <= |s|
    ensures t <= s
  {
    if n <= 1 then s else if s[n - 1] == '\r' then s[..n - 1] else CutAtLastCR(s, n - 1)
  }

  function Trimmed(s: string): string {
    CutAtLastCR(s, |s|)
  }

  /** What `do_command` gets: all its handlers see the quotes doubled, and every statement doubles
      them once more. */
  function CommandLine(sent: string): Option<string> {
    var line := LineRead(sent);
    if line.None? then None else Some(Quoted(Trimmed(line.value)))
  }

  // ---------- The code ----------

  /** `strstr(recvbuf, "\n") != NULL`. */
  method HasLineFeed(buf: array<char>, ghost text: string) returns (found: bool)
    requires Holds(buf, text) && Free(text, NUL) && |text| < buf.Length
    ensures found <==> !Free(text, '\n')
  {
    var i := 0;
    assert forall k :: 0 <= k < |text| ==> buf[k] == text[k];
    while buf[i] != NUL
      invariant i <= |text| && Free(text[..i], '\n')
      decreases |text| - i
    {
      if buf[i] == '\n' {
        return true;
      }
      i := i + 1;
    }
    assert text[..i] == text;
    return false;
  }

  lemma FeedAt(sent: string, k: nat)
    ensures At(sent, k, "\n") <==> k < |sent| && sent[k] == '\n'
  {
    if k < |sent| {
      assert sent[k..k + 1] == [sent[k]];
    }
  }

  lemma FirstLineFeed(sent: string, k: nat)
    requires k <= |sent| && Free(sent[..k], '\n')
    ensures var p := Find(sent, "\n", 0); p.Some? ==> p.value >= k && sent[p.value] == '\n'
    ensures k < |sent| && sent[k] == '\n' ==> Find(sent, "\n", 0) == Some(k)
  {
    forall q: nat | q < k ensures !At(sent, q, "\n") {
      FeedAt(sent, q);
      assert sent[q] == sent[..k][q];
    }
    FeedAt(sent, k);
    var p := Find(sent, "\n", 0);
    if p.Some? {
      FeedAt(sent, p.value);
    }
  }

  /** The buffer always keeps a NUL at its end. */
  method ReadLine(sent: string) returns (ok: bool, buf: array<char>, ghost text: string)
    requires Free(sent, NUL)
    ensures fresh(buf) && buf.Length == MAX_CMDLEN + 1
    ensures ok <==> LineRead(sent).Some?
    ensures ok ==> text == LineRead(sent).value && Holds(buf, text)
  {
    buf := new char[MAX_CMDLEN + 1](_ => NUL);
    var len := 0;
    text := [];
    assert sent[..0] == [];
    while len < MAX_CMDLEN && len < |sent|
      invariant len <= MAX_CMDLEN && len <= |sent|
      invariant text == sent[..len] && Holds(buf, text) && Free(text, '\n')
      decreases |sent| - len
    {
      Append(buf, len, [sent[len]], text);
      FirstLineFeed(sent, len);
      text := sent[..len + 1];
      assert sent[..len] + [sent[len]] == text;
      var found := HasLineFeed(buf, text);
      if found {
        return true, buf, text;
      }
      len := HeaderEdit.Strlen(buf, len + 1);
    }
    FirstLineFeed(sent, len);
    return false, buf, [];
  }

  /** The loop from the end that looks for a CR and writes a NUL over it. */
  method TrimLine(buf: array<char>, ghost text: string) returns (line: string)
    requires Holds(buf, text) && Free(text, NUL) && 0 < |text| < buf.Length
    modifies buf
    ensures line == Trimmed(text)
  {
    var length := HeaderEdit.Strlen(buf, |text|);
    var i := length - 1;
    assert forall k :: 0 <= k < |text| ==> buf[k] == text[k];
    while i > 0 && buf[i] != '\r'
      invariant 0 <= i < |text|
      invariant CutAtLastCR(text, i + 1) == Trimmed(text)
    {
      i := i - 1;
    }
    if i > 0 {
      buf[i] := NUL;
      length := HeaderEdit.Strlen(buf, i);
    }
    line := buf[..length];
    assert line == text[..length];
  }

  /** From the bytes that arrive to the argument of `do_command`. */
  method ReadCommand(sent: string) returns (line: Option<string>)
    requires Free(sent, NUL)
    ensures line == CommandLine(sent)
  {
    var ok, buf, text := ReadLine(sent);
    if !ok {
      return None;
    }
    var trimmed := TrimLine(buf, text);
    return Some(Quoted(trimmed));
  }
}
