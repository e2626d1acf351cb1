/** What the overview line of an accepted POST says: the fields of the client's own header. */
module OverviewOfPost {
  import opened CStrings
  import opened Delivery
  import opened Post
  import opened PostFacts
  import opened Overview
  import opened LineLookup
  import opened HeaderEdit
  import opened HeaderLines

  // ---------- Lookup in whole lines ----------

  lemma FeedAlone(rest: string)
    ensures Lines("\n" + rest) == [""] + Lines(rest)
  {
    var t := "\n" + rest;
    assert FirstLine(t) == [] && t[1..] == rest;
  }

  lemma CutHere(line: string, t: string, s: string)
    requires OneLine(line) && s == line + "\r" + t
    ensures FirstLine(s) == line && NextLine(s) == t
  {
    assert s[|line|] == '\r' && forall i :: 0 <= i < |line| ==> s[i] == line[i];
    FirstLineIs(s, |line|);
    assert s[..|line|] == line && s[|line| + 1..] == t;
  }

  lemma FirstOfLines(line: string, rest: string)
    requires OneLine(line)
    ensures Lines(line + CRLF + rest) == [line, ""] + Lines(rest)
  {
    var s, t := line + CRLF + rest, "\n" + rest;
    assert s == line + "\r" + t;
    CutHere(line, t, s);
    FeedAlone(rest);
  }

  /** A line is passed over unless it carries the key and behind it a space or a tab. */
  lemma LinePassed(line: string, rest: string, key: string)
    requires OneLine(line) && key != [] && OneLine(key)
    requires AtNoCase(line, 0, key) && |key| < |line| ==> line[|key|] != ' ' && line[|key|] != '\t'
    ensures LineValue(line + CRLF + rest, key) == LineValue(rest, key)
  {
    FirstOfLines(line, rest);
    LookupByLines(line + CRLF + rest, key);
    LookupByLines(rest, key);
    var more := Lines(rest);
    assert ([line, ""] + more)[1..] == [""] + more && ([""] + more)[1..] == more;
  }

  /** The value of a field is that of the first line that carries it. */
  lemma {:induction false} ValueOfJoin(lines: seq<string>, key: string)
    requires OneLineEach(lines) && key != [] && OneLine(key)
    ensures LineValue(Join(lines), key) == ValueIn(lines, key)
  {
    if lines != [] {
      var line, rest := lines[0], lines[1..];
      ValueOfJoin(rest, key);
      FirstOfLines(line, Join(rest));
      LookupByLines(Join(lines), key);
      LookupByLines(Join(rest), key);
      var more := Lines(Join(rest));
      assert Join(lines) == line + CRLF + Join(rest);
      assert ([line, ""] + more)[1..] == [""] + more && ([""] + more)[1..] == more;
    }
  }

  /** A key that starts like none of the three names. */
  predicate Another(key: string) {
    key != [] && OneLine(key) && Lower(key[0]) != 'm' && Lower(key[0]) != 'd' && Lower(key[0]) != 'l'
  }

  lemma NotCarried(line: string, c: char, name: string)
    requires line != [] && Lower(line[0]) == c && name != [] && Lower(name[0]) != c
    ensures !Carries(line, name)
  {
    assert line[0 + 0] == line[0];
  }

  lemma OtherLineKept(line: string, key: string)
    requires Another(key) && Names(line, key)
    ensures !Carries(line, MESSAGE_ID) && !Carries(line, DATE) && !Carries(line, LINES)
  {
    MatchedChar(line, 0, key, 0);
    NotCarried(line, Lower(key[0]), MESSAGE_ID);
    NotCarried(line, Lower(key[0]), DATE);
    NotCarried(line, Lower(key[0]), LINES);
  }

  /** Taking out the lines of the three names leaves the others' values alone. */
  lemma {:induction false} KeptValue(lines: seq<string>, key: string)
    requires Another(key)
    ensures ValueIn(Kept(lines), key) == ValueIn(lines, key)
  {
    if lines != [] {
      KeptValue(lines[1..], key);
      var rest := Kept(lines[1..]);
      if Names(lines[0], key) {
        OtherLineKept(lines[0], key);
      }
      assert ([lines[0]] + rest)[1..] == rest;
    }
  }

  // ---------- The line of a posting ----------

  /** A key that none of the server's own lines can carry. */
  predicate Foreign(key: string) {
    Another(key) && Lower(key[0]) != 'p' && (Lower(key[0]) != 'x' || (|key| > 1 && key[1] != '-'))
  }

  lemma BehindFour(env: Env, id: string, lines: nat, size: nat, rest: string, key: string)
    requires PlainEnv(env) && OneLine(id) && Foreign(key)
    ensures LineValue(OwnLines(env, id, lines, size) + rest, key)
            == LineValue(BODYSIZE + " " + Dec(size) + CRLF + rest, key)
  {
    DigitsAreOneLine(Dec(lines));
    OwnLinesAre(env, id, lines, size, rest);
    OtherLine("Path: ", env.fqdn, key);
    OtherLine("Message-ID: ", id, key);
    OtherLine("Date: ", env.date, key);
    OtherLine("Lines: ", Dec(lines), key);
    SkipFour("Path: " + env.fqdn, "Message-ID: " + id, "Date: " + env.date, "Lines: " + Dec(lines),
             BODYSIZE + " " + Dec(size) + CRLF + rest, key);
  }

  lemma BehindSize(size: nat, rest: string, key: string)
    requires Foreign(key)
    ensures LineValue(BODYSIZE + " " + Dec(size) + CRLF + rest, key) == LineValue(rest, key)
  {
    DigitsAreOneLine(Dec(size));
    var line := BODYSIZE + " " + Dec(size);
    assert OneLine(line) && line[0] == 'X' && line[1] == '-';
    NotTheSize(line, key);
    LinePassed(line, rest, key);
  }

  lemma NotTheSize(line: string, key: string)
    requires Foreign(key) && |line| > 1 && line[0] == 'X' && line[1] == '-'
    ensures !AtNoCase(line, 0, key)
  {
    assert line[0 + 0] == 'X' && line[0 + 1] == '-';
    assert |key| > 1 && key[1] != '-' ==> Lower(key[1]) != '-';
  }

  /** Other fields are looked for behind the server's own lines. */
  lemma BehindOwnLines(env: Env, id: string, lines: nat, size: nat, rest: string, key: string)
    requires PlainEnv(env) && OneLine(id) && Foreign(key)
    ensures LineValue(OwnLines(env, id, lines, size) + rest, key) == LineValue(rest, key)
  {
    BehindFour(env, id, lines, size, rest, key);
    BehindSize(size, rest, key);
  }

  /** A field as the table takes it: "(NULL)" without one, single quotes doubled. */
  function Field(value: Option<string>): string {
    Quoted(if value.Some? then value.value else "(NULL)")
  }

  lemma ClientValue(lines: seq<string>, edited: string, key: string)
    requires OneLineEach(lines) && edited == Join(Kept(lines)) && Another(key)
    ensures LineValue(edited, key) == ValueIn(lines, key)
  {
    KeptOneLine(lines);
    ValueOfJoin(Kept(lines), key);
    KeptValue(lines, key);
  }

  lemma KeysAreOthers()
    ensures Another("Subject:") && Another("From:") && Foreign("References:") && Foreign("Xref:")
  {
  }

  /** The overview line of a posting whose client header is made of whole lines that the edit filters:
      the subject is that of the header the client sent. */
  lemma SubjectOfLine(env: Env, id: string, num: nat, lines: seq<string>, body: string, ngstrp: string)
    requires |body| >= 3 && OneLineEach(lines) && EditHeader(Join(lines)) == Join(Kept(lines))
    ensures ItemOf(num, id, PostingOf(env, id, Join(lines), body, ngstrp)).subject
            == Field(ValueIn(lines, "Subject:"))
  {
    KeysAreOthers();
    ClientValue(lines, EditHeader(Join(lines)), "Subject:");
  }

  /** So is the author. */
  lemma AuthorOfLine(env: Env, id: string, num: nat, lines: seq<string>, body: string, ngstrp: string)
    requires |body| >= 3 && OneLineEach(lines) && EditHeader(Join(lines)) == Join(Kept(lines))
    ensures ItemOf(num, id, PostingOf(env, id, Join(lines), body, ngstrp)).author
            == Field(ValueIn(lines, "From:"))
  {
    KeysAreOthers();
    ClientValue(lines, EditHeader(Join(lines)), "From:");
  }

  /** And the references, a blank without them; they stand behind the server's own lines. */
  lemma ReferencesOfLine(env: Env, n: nat, num: nat, lines: seq<string>, body: string, ngstrp: string)
    requires PlainEnv(env) && n < 0x8000_0000 && 3 <= |body| < 0x8000_0000
    requires OneLineEach(lines) && EditHeader(Join(lines)) == Join(Kept(lines))
    ensures var id := MessageId(n, env.host);
            ItemOf(num, id, PostingOf(env, id, Join(lines), body, ngstrp)).references
            == OrBlank(ValueIn(lines, "References:"))
  {
    KeysAreOthers();
    FieldBehind(env, n, body, EditHeader(Join(lines)), "References:");
    ClientValue(lines, EditHeader(Join(lines)), "References:");
  }

  lemma XrefOfLine(env: Env, n: nat, num: nat, lines: seq<string>, body: string, ngstrp: string)
    requires PlainEnv(env) && n < 0x8000_0000 && 3 <= |body| < 0x8000_0000
    requires OneLineEach(lines) && EditHeader(Join(lines)) == Join(Kept(lines))
    ensures var id := MessageId(n, env.host);
            ItemOf(num, id, PostingOf(env, id, Join(lines), body, ngstrp)).xref == OrBlank(ValueIn(lines, "Xref:"))
  {
    KeysAreOthers();
    FieldBehind(env, n, body, EditHeader(Join(lines)), "Xref:");
    ClientValue(lines, EditHeader(Join(lines)), "Xref:");
  }

  lemma FieldBehind(env: Env, n: nat, body: string, edited: string, key: string)
    requires PlainEnv(env) && n < 0x8000_0000 && 3 <= |body| < 0x8000_0000 && Foreign(key)
    ensures LineValue(Printed(OwnLines(env, MessageId(n, env.host), BodyLines(body), |body|), 0x7fd) + edited, key)
            == LineValue(edited, key)
  {
    CountBounded(body[..|body| - 3], '\n');
    IdIsOneLine(n, env.host);
    NothingCutOff(env, n, BodyLines(body), |body|);
    BehindOwnLines(env, MessageId(n, env.host), BodyLines(body), |body|, edited, key);
  }

  /** What is not in the header: number, id and the time of arrival; and for an accepted POST this is the
      posting the line is taken from, with the comma list and the count of body lines. */
  lemma LineOfPost(rules: Rules, st: Store, p: Policy, env: Env, num: nat)
    requires StoreInv(st) && Posted(rules, st, p, env).1 == Answered(240)
    ensures Screen(rules, st.db, env).Passed? && |Screen(rules, st.db, env).body| >= 3
    ensures var Passed(header, body, ngstrp) := Screen(rules, st.db, env);
            var id, postings := MessageId(st.counter + 1, env.host), Posted(rules, st, p, env).0.db.postings;
            && id in postings && postings[id] == PostingOf(env, id, header, body, ngstrp)
            && postings[id].newsgroups == ngstrp && postings[id].lines == Count(body[..|body| - 3], '\n')
            && var item := ItemOf(num, id, postings[id]); item.num == num && item.msgid == id && item.date == env.now
  {
    Accepted(rules, st, p, env);
    PassedAlways(rules, st.db, env);
  }
}
