/** The first half of `docmd_post` (src/server.c): receiving the posting chunk by chunk into a
    fixed buffer, cutting it into header and body, and counting its lines. */
module Receive {
  import opened CStrings

  const TERMINATOR := "\r\n.\r\n"
  const BLANK_LINE := "\r\n\r\n"

  /** How the receive loop ends; every case but Complete ends the connection. */
  datatype Received = Complete(text: string) | TooBig | Disconnected

  function Concat(chunks: seq<string>): string {
    if chunks == [] then [] else chunks[0] + Concat(chunks[1..])
  }

  /** What `recv` leaves for later when the buffer has room for `room` bytes only. */
  function Leftover(chunks: seq<string>, room: nat): seq<string>
    requires chunks != []
  {
    if |chunks[0]| <= room then chunks[1..] else [chunks[0][room..]] + chunks[1..]
  }

  function Taken(chunks: seq<string>, room: nat): string
    requires chunks != []
  {
    if |chunks[0]| <= room then chunks[0] else chunks[0][..room]
  }

  lemma LeftoverIsLess(chunks: seq<string>, room: nat)
    requires chunks != [] && room > 0
    ensures var rest := Leftover(chunks, room);
            |Concat(rest)| + |rest| < |Concat(chunks)| + |chunks|
  {
    if |chunks[0]| > room {
      assert Leftover(chunks, room)[1..] == chunks[1..];
    }
  }

  lemma StaysFree(chunks: seq<string>, room: nat)
    requires chunks != [] && forall i :: 0 <= i < |chunks| ==> Free(chunks[i], NUL)
    ensures Free(Taken(chunks, room), NUL)
    ensures forall i :: 0 <= i < |Leftover(chunks, room)| ==> Free(Leftover(chunks, room)[i], NUL)
  {
    var rest := Leftover(chunks, room);
    assert forall i :: 1 <= i < |chunks| ==> chunks[i] == chunks[1..][i - 1];
    forall i | 0 <= i < |rest| ensures Free(rest[i], NUL) {
      assert Free(chunks[0], NUL);
      assert i > 0 || |chunks[0]| <= room ==> rest[i] in chunks;
    }
  }

  /** The outcome for data arriving as `chunks` after `got`.  An empty chunk is a `recv` that
      returned 0; running out of chunks is a client that goes away.  The end of the article is
      looked for in the last five bytes received so far and nowhere else. */
  function Outcome(got: string, chunks: seq<string>, max: nat): Received
    decreases |Concat(chunks)| + |chunks|
  {
    if chunks == [] then Disconnected
    else if max <= |got| + 1 then TooBig
    else if chunks[0] == [] then Disconnected
    else
      var room := max - |got| - 1;
      var now := got + Taken(chunks, room);
      LeftoverIsLess(chunks, room);
      if EndsWith(now, TERMINATOR) then Complete(now)
      else Outcome(now, Leftover(chunks, room), max)
  }

  // ---------- Independence of chunking ----------

  /** One way of cutting a message into non-empty pieces. */
  predicate Cuts(chunks: seq<string>, msg: string) {
    Concat(chunks) == msg && forall i :: 0 <= i < |chunks| ==> chunks[i] != []
  }

  /** The message ends with the terminator and contains it nowhere else. */
  ghost predicate EndsOnce(msg: string) {
    EndsWith(msg, TERMINATOR) && forall p: nat :: At(msg, p, TERMINATOR) ==> p + 5 == |msg|
  }

  lemma {:induction false} OutcomeOfCuts(got: string, chunks: seq<string>, more: seq<string>, msg: string, max: nat)
    requires EndsOnce(msg) && |msg| < max && msg == got + Concat(chunks)
    requires chunks != [] && forall i :: 0 <= i < |chunks| ==> chunks[i] != []
    ensures Outcome(got, chunks + more, max) == Complete(msg)
    decreases |chunks|
  {
    var all := chunks + more;
    var now := got + chunks[0];
    assert all[0] == chunks[0] && all[1..] == chunks[1..] + more;
    assert msg == now + Concat(chunks[1..]);
    if chunks[1..] == [] {
      assert now == msg;
    } else {
      assert chunks[1..][0] != [];
      assert |now| < |msg|;
      if EndsWith(now, TERMINATOR) {
        assert At(msg, |now| - 5, TERMINATOR) by {
          assert msg[|now| - 5..|now|] == now[|now| - 5..];
        }
        assert false;
      }
      OutcomeOfCuts(now, chunks[1..], more, msg, max);
    }
  }

  lemma {:induction false} StaysInBuffer(got: string, chunks: seq<string>, max: nat)
    requires |got| < max
    ensures var r := Outcome(got, chunks, max);
            r.Complete? ==> |r.text| < max && EndsWith(r.text, TERMINATOR)
    decreases |Concat(chunks)| + |chunks|
  {
    if chunks != [] && max > |got| + 1 && chunks[0] != [] {
      var room := max - |got| - 1;
      LeftoverIsLess(chunks, room);
      StaysInBuffer(got + Taken(chunks, room), Leftover(chunks, room), max);
    }
  }

  ghost predicate ReadWhole(msg: string, max: nat) {
    forall chunks, more :: Cuts(chunks, msg) ==> Outcome([], chunks + more, max) == Complete(msg)
  }

  /** Reading does not depend on how the network cuts the message exactly when the message
      fits and holds the terminator only at its end. */
  lemma ChunkingIndependence(msg: string, max: nat)
    ensures ReadWhole(msg, max) <==> EndsOnce(msg) && |msg| < max
  {
    if EndsOnce(msg) && |msg| < max {
      forall chunks, more | Cuts(chunks, msg) ensures Outcome([], chunks + more, max) == Complete(msg) {
        assert chunks != [];
        OutcomeOfCuts([], chunks, more, msg, max);
      }
    } else if |msg| >= max || !EndsWith(msg, TERMINATOR) {
      var chunks := if msg == [] then [] else [msg];
      assert Cuts(chunks, msg);
      NeverReadsLongOrOpen(chunks, msg, max);
      assert chunks + [] == chunks;
      assert Outcome([], chunks + [], max) != Complete(msg);
    } else {
      var p: nat :| At(msg, p, TERMINATOR) && p + 5 != |msg|;
      StopsEarly(msg, p, max);
    }
  }

  lemma NeverReadsLongOrOpen(chunks: seq<string>, msg: string, max: nat)
    requires |msg| >= max || !EndsWith(msg, TERMINATOR)
    ensures Outcome([], chunks, max) != Complete(msg)
  {
    if max > 0 {
      StaysInBuffer([], chunks, max);
    }
  }

  /** Cut right behind an inner terminator, the message is taken to end there. */
  lemma StopsEarly(msg: string, p: nat, max: nat)
    requires At(msg, p, TERMINATOR) && p + 5 < |msg| < max
    ensures !ReadWhole(msg, max)
  {
    var first, second := msg[..p + 5], msg[p + 5..];
    var chunks := [first, second];
    assert chunks[1..] == [second] && [second][1..] == [];
    assert Concat([second]) == second + Concat([second][1..]);
    assert Concat(chunks) == first + Concat(chunks[1..]) == msg;
    assert Cuts(chunks, msg);
    assert EndsWith(first, TERMINATOR) by {
      assert first[|first| - 5..] == msg[p..p + 5];
    }
    assert [] + first == first;
    assert Outcome([], chunks, max) == Complete(first);
    assert chunks + [] == chunks;
    assert Outcome([], chunks + [], max) != Complete(msg);
  }

  /** The other side of looking only at the last five bytes: when the client's next command
      arrives in the same chunk as the terminator, the end of the article goes unnoticed. */
  lemma PipelinedCommandHidesTheEnd(msg: string, next: string, max: nat)
    requires EndsWith(msg, TERMINATOR) && |msg| + |next| < max
    requires next != [] && !EndsWith(msg + next, TERMINATOR)
    ensures Outcome([], [msg + next], max) == Disconnected
  {
    var all := msg + next;
    assert [] + all == all && Leftover([all], max - 1) == [];
  }

  // ---------- The receive loop on the C buffer ----------

  /** The text occupies the front of the zeroed buffer. */
  ghost predicate Holds(buf: array<char>, text: string)
    reads buf
  {
    && |text| <= buf.Length && buf[..|text|] == text
    && forall i :: |text| <= i < buf.Length ==> buf[i] == NUL
  }

  method Append(buf: array<char>, at: nat, data: string, ghost before: string)
    requires Holds(buf, before) && at == |before| && at + |data| <= buf.Length
    modifies buf
    ensures Holds(buf, before + data)
  {
    forall i | 0 <= i < |data| {
      buf[at + i] := data[i];
    }
    assert buf[..at + |data|] == before + data;
  }

  lemma TerminatorAt(text: string, i: nat)
    ensures At(text, i, TERMINATOR) <==>
            && i + 5 <= |text| && text[i] == '\r' && text[i + 1] == '\n' && text[i + 2] == '.'
            && text[i + 3] == '\r' && text[i + 4] == '\n'
  {
    if i + 5 <= |text| {
      var w := text[i..i + 5];
      assert w == [w[0], w[1], w[2], w[3], w[4]];
    }
  }

  lemma BlankLineAt(text: string, i: nat)
    ensures At(text, i, BLANK_LINE) <==>
            && i + 4 <= |text| && text[i] == '\r' && text[i + 1] == '\n'
            && text[i + 2] == '\r' && text[i + 3] == '\n'
  {
    if i + 4 <= |text| {
      var w := text[i..i + 4];
      assert w == [w[0], w[1], w[2], w[3]];
    }
  }

  /** `strstr(buf + offset, "\r\n.\r\n")`. */
  method FindTerminator(buf: array<char>, offset: nat, ghost text: string) returns (p: Option<nat>)
    requires Holds(buf, text) && Free(text, NUL) && |text| < buf.Length && offset <= |text|
    ensures p == Find(text, TERMINATOR, offset)
  {
    var i := offset;
    assert forall k :: 0 <= k < |text| ==> buf[k] == text[k];
    while buf[i] != NUL
      invariant offset <= i <= |text|
      invariant Find(text, TERMINATOR, offset) == Find(text, TERMINATOR, i)
      decreases |text| - i
    {
      assert i < |text|;
      TerminatorAt(text, i);
      if buf[i] == '\r' && buf[i + 1] == '\n' && buf[i + 2] == '.' && buf[i + 3] == '\r' && buf[i + 4] == '\n' {
        return Some(i);
      }
      i := i + 1;
    }
    return None;
  }

  lemma FindNearEnd(text: string, offset: nat)
    requires offset == if |text| > 5 then |text| - 5 else 0
    ensures Find(text, TERMINATOR, offset).Some? <==> EndsWith(text, TERMINATOR)
    ensures EndsWith(text, TERMINATOR) ==> Find(text, TERMINATOR, offset).value + 5 == |text|
  {
    if EndsWith(text, TERMINATOR) {
      assert At(text, offset, TERMINATOR);
    }
  }

  /** Looks at the last five bytes and zeroes what follows a terminator found there. */
  method CutBehindTerminator(buf: array<char>, recvBytes: nat, ghost text: string) returns (finished: bool)
    requires Holds(buf, text) && Free(text, NUL) && recvBytes == |text| < buf.Length
    modifies buf
    ensures Holds(buf, text)
    ensures finished <==> EndsWith(text, TERMINATOR)
  {
    var offset := if recvBytes > 5 then recvBytes - 5 else 0;
    var haystack := FindTerminator(buf, offset, text);
    FindNearEnd(text, offset);
    finished := haystack.Some?;
    if finished {
      buf[haystack.value + 5] := NUL;
      assert buf[..|text|] == old(buf[..|text|]);
    }
  }

  method ReceivePosting(chunks: seq<string>, maxPostSize: nat) returns (r: Received, buf: array<char>)
    requires forall i :: 0 <= i < |chunks| ==> Free(chunks[i], NUL)
    ensures r == Outcome([], chunks, maxPostSize)
    ensures buf.Length == maxPostSize && fresh(buf)
    ensures r.Complete? ==> |r.text| < maxPostSize && Holds(buf, r.text) && Free(r.text, NUL)
    ensures maxPostSize > 0 ==> buf[maxPostSize - 1] == NUL
  {
    buf := new char[maxPostSize](i => NUL);
    var pending := chunks;
    ghost var text: string := [];
    var recvBytes := 0;
    while true
      invariant Holds(buf, text) && Free(text, NUL) && recvBytes == |text|
      invariant maxPostSize > 0 ==> recvBytes < maxPostSize
      invariant maxPostSize == 0 ==> text == []
      invariant forall i :: 0 <= i < |pending| ==> Free(pending[i], NUL)
      invariant Outcome([], chunks, maxPostSize) == Outcome(text, pending, maxPostSize)
      decreases |Concat(pending)| + |pending|
    {
      if pending == [] {
        return Disconnected, buf;
      }
      if maxPostSize <= recvBytes + 1 {
        return TooBig, buf;
      }
      if pending[0] == [] {
        return Disconnected, buf;
      }
      var room := maxPostSize - recvBytes - 1;
      var data := Taken(pending, room);
      LeftoverIsLess(pending, room);
      StaysFree(pending, room);
      Append(buf, recvBytes, data, text);
      text := text + data;
      recvBytes := recvBytes + |data|;
      pending := Leftover(pending, room);
      var finished := CutBehindTerminator(buf, recvBytes, text);
      if finished {
        return Complete(buf[..recvBytes]), buf;
      }
    }
  }

  // ---------- Header and body ----------

  datatype Parts = Garbage | Parts(header: string, body: string)

  /** The header keeps the CRLF of its last line; the body is what follows the blank line.
      A blank line with nothing behind it does not count: the loop looks for it only while a
      byte follows. */
  function SplitArticle(text: string): Parts {
    var p := Find(text, BLANK_LINE, 0);
    if p.Some? && p.value + 4 < |text| then Parts(text[..p.value + 2], text[p.value + 4..])
    else Garbage
  }

  lemma BlankLineBeforeDot(text: string, p: nat)
    requires EndsWith(text, TERMINATOR) && At(text, p, BLANK_LINE)
    ensures p + 4 <= |text| - 3
  {
    BlankLineAt(text, p);
    TerminatorAt(text, |text| - 5);
  }

  lemma CutAtBlankLine(text: string, p: nat)
    requires At(text, p, BLANK_LINE)
    ensures text == text[..p + 2] + CRLF + text[p + 4..] && EndsWith(text[..p + 2], CRLF)
  {
    BlankLineAt(text, p);
    assert text[p + 2..p + 4] == CRLF && text[p..p + 2] == CRLF;
    assert text[..p + 2][p..] == text[p..p + 2];
    assert text == text[..p + 2] + text[p + 2..p + 4] + text[p + 4..];
  }

  lemma TailEndsInDot(text: string, k: nat)
    requires EndsWith(text, TERMINATOR) && k <= |text| - 3
    ensures EndsWith(text[k..], ".\r\n")
  {
    TerminatorAt(text, |text| - 5);
    assert text[k..][|text| - k - 3..] == text[|text| - 3..];
    assert text[|text| - 3..] == [text[|text| - 3], text[|text| - 2], text[|text| - 1]];
  }

  /** Nothing of the article is lost or duplicated, the header ends its last line, and the body
      always ends in the dot line, so it is never empty. */
  lemma SplitArticleFacts(text: string)
    requires EndsWith(text, TERMINATOR) && SplitArticle(text).Parts?
    ensures var Parts(h, b) := SplitArticle(text);
            text == h + CRLF + b && EndsWith(h, CRLF) && EndsWith(b, ".\r\n")
  {
    var p := Find(text, BLANK_LINE, 0).value;
    BlankLineBeforeDot(text, p);
    CutAtBlankLine(text, p);
    TailEndsInDot(text, p + 4);
  }

  /** The loop that looks for the end of the header, then `strstr` for the body. */
  method SplitBuffer(buf: array<char>, ghost text: string) returns (parts: Parts)
    requires Holds(buf, text) && Free(text, NUL) && 5 <= |text| < buf.Length
    ensures parts == SplitArticle(text)
  {
    var i := 0;
    assert forall k :: 0 <= k < |text| ==> buf[k] == text[k];
    while buf[i + 4] != NUL
      invariant i + 4 <= |text|
      invariant Find(text, BLANK_LINE, 0) == Find(text, BLANK_LINE, i)
      decreases |text| - i
    {
      BlankLineAt(text, i);
      if buf[i] == '\r' && buf[i + 1] == '\n' && buf[i + 2] == '\r' && buf[i + 3] == '\n' {
        var end := i + 4;
        while buf[end] != NUL
          invariant i + 4 <= end <= |text|
          decreases |text| - end
        {
          end := end + 1;
        }
        assert buf[..i + 2] == text[..i + 2] && buf[i + 4..end] == text[i + 4..];
        return Parts(buf[..i + 2], buf[i + 4..end]);
      }
      i := i + 1;
    }
    return Garbage;
  }

  /** Lines of the body before the final dot: the loop starts at -1 and counts line feeds. */
  method CountLines(body: string) returns (linecount: int)
    requires EndsWith(body, ".\r\n")
    ensures linecount == Count(body[..|body| - 3], '\n')
  {
    linecount := -1;
    var s := 0;
    while s < |body|
      invariant s <= |body|
      invariant linecount == Count(body[..s], '\n') - 1
    {
      assert body[..s + 1][..s] == body[..s];
      if body[s] == '\n' {
        linecount := linecount + 1;
      }
      s := s + 1;
    }
    assert body[..|body|] == body == body[..|body| - 3] + ".\r\n";
    DotLine(body[..|body| - 3]);
  }

  lemma DotLine(text: string)
    ensures Count(text + ".\r\n", '\n') == Count(text, '\n') + 1
  {
    CountAppend(text, ".\r\n", '\n');
    assert ".\r\n"[..2] == ".\r" && ".\r"[..1] == "." && "."[..0] == [];
    assert Count(".\r", '\n') == Count(".", '\n') == 0;
  }
}
