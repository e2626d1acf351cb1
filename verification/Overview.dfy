/** XOVER (src/server.c, src/db_sqlite3.c; section 2.8 of RFC 2980): the range parser, the rows a
    range selects, and the size and line fields of each row. */
module Overview {
  import opened CStrings
  import opened Tables
  import opened Delivery
  import opened Post
  import opened PostFacts
  import opened LineLookup
  import HeaderEdit

  // ---------- Ranges ----------

  /** Conversion to u_int32_t, and printing one with `%i`. */
  function U32(x: int): nat {
    x % 0x1_0000_0000
  }

  function I32(x: nat): int {
    if x < 0x8000_0000 then x else x - 0x1_0000_0000
  }

  /** What follows the first '-', and whether there is one. */
  function AfterDash(s: string): (string, bool) {
    if s == [] then ([], false)
    else if s[0] == '-' then (s[1..], true)
    else AfterDash(s[1..])
  }

  /** The range the code makes of its argument in a group whose highest number is `high`.  When
      the lower end equals `high`, the search for the dash stops before it starts and the whole
      argument is read once more as the upper end. */
  function Range(text: string, high: nat): (nat, nat) {
    var min := U32(Atoi(text));
    var (rest, dash) := if min == high then (text, true) else AfterDash(text);
    var upper := U32(Atoi(rest));
    (min, if !dash then min else if rest == [] || upper == 0 then high else upper)
  }

  method ParseRange(text: string, realMax: nat) returns (min: nat, max: nat)
    ensures (min, max) == Range(text, realMax)
  {
    min := U32(Atoi(text));
    max := min;
    var ptr := 0;
    assert text[0..] == text;
    while ptr < |text| && max != realMax
      invariant ptr <= |text| && (max == realMax || max == min)
      invariant min == realMax ==> ptr == 0
      invariant min != realMax ==>
                  AfterDash(text) == if max == realMax then (text[ptr..], true) else AfterDash(text[ptr..])
    {
      if text[ptr] == '-' {
        max := realMax;
      }
      assert text[ptr..][1..] == text[ptr + 1..];
      ptr := ptr + 1;
    }
    if max == realMax && ptr < |text| {
      max := U32(Atoi(text[ptr..]));
      if max == 0 {
        max := realMax;
      }
    }
  }

  /** The rows of a group numbered lo to hi; hi None is "to the end". */
  function Articles(db: Db, g: string, lo: int, hi: Option<int>): set<Key> {
    set k | k in db.ngposts && k.ng == g && lo <= db.ngposts[k] && (hi.Some? ==> db.ngposts[k] <= hi.value)
  }

  /** The answer: None is 420. */
  function Selected(db: Db, g: string, range: (nat, nat), high: nat): Option<set<Key>> {
    if range.0 > high || range.0 > range.1 then None
    else Some(Articles(db, g, I32(range.0), Some(I32(range.1))))
  }

  lemma {:induction false} NoDash(s: string, rest: string)
    requires AllDigits(s)
    ensures AfterDash(s + "-" + rest) == (rest, true) && AfterDash(s) == ([], false)
  {
    if s == [] {
      assert (s + "-" + rest)[1..] == rest;
    } else {
      NoDash(s[1..], rest);
      assert (s + "-" + rest)[1..] == s[1..] + "-" + rest;
    }
  }

  lemma ReadsFirst(a: nat, rest: string)
    requires a < 0x8000_0000
    ensures U32(Atoi(Dec(a))) == a && U32(Atoi(Dec(a) + "-" + rest)) == a
  {
    AtoiDec(a, []);
    AtoiDec(a, "-" + rest);
    assert Dec(a) + [] == Dec(a) && Dec(a) + ("-" + rest) == Dec(a) + "-" + rest;
  }

  /** What Range makes of the three forms, the early exit at `high` included. */
  lemma RangeOfForms(a: nat, b: nat, high: nat)
    requires 1 <= a <= b < 0x8000_0000
    ensures Range(Dec(a), high) == (a, a)
    ensures Range(Dec(a) + "-", high) == (a, high)
    ensures Range(Dec(a) + "-" + Dec(b), high) == (a, if a == high then a else b)
  {
    ReadsFirst(a, []);
    ReadsFirst(a, Dec(b));
    ReadsFirst(b, []);
    assert Dec(a) + "-" + [] == Dec(a) + "-";
    NoDash(Dec(a), []);
    NoDash(Dec(a), Dec(b));
  }

  lemma ArticlesUpToHigh(db: Db, g: string, lo: int, hi: int)
    requires Numbered(db) && g in db.groups && hi >= db.groups[g].high
    ensures Articles(db, g, lo, Some(hi)) == Articles(db, g, lo, None)
  {
  }

  lemma ArticlesCapped(db: Db, g: string, lo: int, hi: int, to: int)
    requires Numbered(db) && g in db.groups && hi >= db.groups[g].high && to >= db.groups[g].high
    ensures Articles(db, g, lo, Some(hi)) == Articles(db, g, lo, Some(to))
  {
  }

  /** "a", "a-" and "a-b" select exactly the articles numbered a, from a on, and a to b; 420
      exactly when a exceeds the highest number. */
  lemma RangesMeanWhatTheySay(db: Db, g: string, a: nat, b: nat)
    requires Numbered(db) && g in db.groups && 1 <= a <= b < 0x8000_0000
    ensures var high := db.groups[g].high;
            var one, from, both := Range(Dec(a), high), Range(Dec(a) + "-", high), Range(Dec(a) + "-" + Dec(b), high);
            if a > high then
              Selected(db, g, one, high) == Selected(db, g, from, high) == Selected(db, g, both, high) == None
            else
              && Selected(db, g, one, high) == Some(Articles(db, g, a, Some(a)))
              && Selected(db, g, from, high) == Some(Articles(db, g, a, None))
              && Selected(db, g, both, high) == Some(Articles(db, g, a, Some(b)))
  {
    var high := db.groups[g].high;
    RangeOfForms(a, b, high);
    if a <= high {
      ArticlesUpToHigh(db, g, a, high);
      if a == high {
        ArticlesCapped(db, g, a, a, b);
      }
    }
  }

  // ---------- One row ----------

  const BODYSIZE := "X-WendzelNNTPdBodysize:"

  datatype Item = Item(num: nat, subject: string, author: string, date: int, msgid: string,
                       references: string, bytes: int, lines: int, xref: string)

  function OrBlank(value: Option<string>): string {
    if value.Some? then value.value else " "
  }

  function ItemOf(num: nat, msgid: string, p: Posting): Item {
    var bodylen := LineValue(p.header, BODYSIZE);
    Item(num, p.subject, p.author, p.date, msgid, OrBlank(LineValue(p.header, "References:")),
         (if bodylen.Some? then Atoi(bodylen.value) else 0) + |p.header|, p.lines,
         OrBlank(LineValue(p.header, "Xref:")))
  }

  /** The lines sent: one for each selected row that joins with its posting. */
  function Items(db: Db, rows: set<Key>): set<Item> {
    set k | k in rows && k in db.ngposts && k.msgid in db.postings ::
      ItemOf(db.ngposts[k], k.msgid, db.postings[k.msgid])
  }

  /** The row callback: size from the server's own line, then the fields in overview order. */
  method XoverRow(num: nat, msgid: string, p: Posting) returns (item: Item)
    ensures item == ItemOf(num, msgid, p)
  {
    var postlen := 0;
    var bodylen := ReturnLineValue(p.header, BODYSIZE);
    if bodylen.Some? {
      postlen := Atoi(bodylen.value);
    }
    postlen := postlen + |p.header|;
    var ref := ReturnLineValue(p.header, "References:");
    var xref := ReturnLineValue(p.header, "Xref:");
    item := Item(num, p.subject, p.author, p.date, msgid, if ref.Some? then ref.value else " ",
                 postlen, p.lines, if xref.Some? then xref.value else " ");
  }

  /** The query with its callback for each row that joins. */
  method XoverRows(db: Database, g: string, min: int, max: int) returns (items: set<Item>)
    ensures items == Items(db.State(), Articles(db.State(), g, min, Some(max)))
  {
    items := {};
    ghost var done: set<Key> := {};
    var rest := Articles(db.State(), g, min, Some(max));
    while rest != {}
      invariant done + rest == Articles(db.State(), g, min, Some(max))
      invariant items == Items(db.State(), done)
      decreases rest
    {
      var k :| k in rest;
      if k.msgid in db.postings {
        var item := XoverRow(db.ngposts[k], k.msgid, db.postings[k.msgid]);
        items := items + {item};
      }
      ItemsOfOneMore(db.State(), done, k);
      done := done + {k};
      rest := rest - {k};
    }
  }

  lemma ItemsOfOneMore(db: Db, rows: set<Key>, k: Key)
    requires k in db.ngposts
    ensures Items(db, rows + {k})
            == if k.msgid in db.postings then Items(db, rows) + {ItemOf(db.ngposts[k], k.msgid, db.postings[k.msgid])}
               else Items(db, rows)
  {
    assert forall l :: l in rows + {k} <==> l in rows || l == k;
  }

  /** Every selected row has its posting, so every one is sent: the numbers sent are the rows'. */
  lemma NoRowIsLost(db: Db, rows: set<Key>)
    requires RowsSound(db) && forall k :: k in rows ==> k in db.ngposts
    ensures (set item | item in Items(db, rows) :: item.num) == set k | k in rows && k in db.ngposts :: db.ngposts[k]
  {
    var sent := set item | item in Items(db, rows) :: item.num;
    var nums := set k | k in rows && k in db.ngposts :: db.ngposts[k];
    forall n | n in nums ensures n in sent {
      var k :| k in rows && k in db.ngposts && db.ngposts[k] == n;
      assert ItemOf(n, k.msgid, db.postings[k.msgid]) in Items(db, rows);
    }
  }

  // ---------- Size and lines agree with the article ----------

  /** Names and dates are one line each and as short as their C buffers keep them. */
  predicate PlainEnv(env: Env) {
    && OneLine(env.fqdn) && |env.fqdn| <= 255
    && OneLine(env.host) && |env.host| <= 1025
    && OneLine(env.date) && |env.date| <= 38
  }

  /** Passing over a line that does not start like the key. */
  lemma PassOver(s: string, k: nat, t: string, key: string)
    requires k < |s| && IsBreak(s[k]) && (forall i :: 0 <= i < k ==> !IsBreak(s[i])) && s[k + 1..] == t
    requires key != [] && Lower(s[0]) != Lower(key[0])
    ensures LineValue(s, key) == LineValue(t, key)
  {
    FirstLineIs(s, k);
    assert s[0..] == s && s[0..k] == s[..k];
    FirstCharacterDecides(s, 0, key);
    Miss(s, 0, key, k);
  }

  lemma SkipLine(line: string, rest: string, key: string)
    requires line != [] && key != [] && OneLine(line) && OneLine(key)
    requires Lower(line[0]) != Lower(key[0])
    ensures LineValue(line + CRLF + rest, key) == LineValue(rest, key)
  {
    var s := line + CRLF + rest;
    assert s[|line|] == '\r' && s[0] == line[0];
    assert forall i :: 0 <= i < |line| ==> s[i] == line[i];
    PassOver(s, |line|, "\n" + rest, key);
    SkipFeed(rest, key);
  }

  lemma SkipFeed(rest: string, key: string)
    requires key != [] && OneLine(key)
    ensures LineValue("\n" + rest, key) == LineValue(rest, key)
  {
    assert Lower('\n') != Lower(key[0]);
    PassOver("\n" + rest, 0, rest, key);
  }

  lemma FirstOfText(value: string, rest: string)
    requires OneLine(value)
    ensures FirstLine(value + CRLF + rest) == value
  {
    var v := value + CRLF + rest;
    assert v[|value|] == '\r';
    FirstLineIs(v, |value|);
    assert v[..|value|] == value;
  }

  /** A tab behind the key does as well as a space; a value that is empty is none. */
  lemma ValueForms(key: string, blank: char, value: string, rest: string)
    requires key != [] && OneLine(value) && (blank == ' ' || blank == '\t')
    ensures LineValue(key + [blank] + value + CRLF + rest, key) == if value == [] then None else Some(value)
  {
    var s := key + [blank] + value + CRLF + rest;
    assert forall i :: 0 <= i < |key| ==> s[0 + i] == key[i];
    assert s[|key|] == blank && s[|key| + 1..] == value + CRLF + rest;
    FirstOfText(value, rest);
  }

  lemma TakeLine(key: string, value: string, rest: string)
    requires key != [] && value != [] && OneLine(value)
    ensures LineValue(key + " " + value + CRLF + rest, key) == Some(value)
  {
    ValueForms(key, ' ', value, rest);
  }

  lemma DigitsAreOneLine(s: string)
    requires AllDigits(s)
    ensures OneLine(s)
  {
  }

  /** A line of another name: it does not start like the key. */
  predicate NotNamed(line: string, key: string) {
    line != [] && key != [] && OneLine(line) && Lower(line[0]) != Lower(key[0])
  }

  lemma SkipFour(l1: string, l2: string, l3: string, l4: string, rest: string, key: string)
    requires OneLine(key) && NotNamed(l1, key) && NotNamed(l2, key) && NotNamed(l3, key) && NotNamed(l4, key)
    ensures LineValue(l1 + CRLF + (l2 + CRLF + (l3 + CRLF + (l4 + CRLF + rest))), key) == LineValue(rest, key)
  {
    SkipLine(l4, rest, key);
    SkipLine(l3, l4 + CRLF + rest, key);
    SkipLine(l2, l3 + CRLF + (l4 + CRLF + rest), key);
    SkipLine(l1, l2 + CRLF + (l3 + CRLF + (l4 + CRLF + rest)), key);
  }

  lemma OtherLine(name: string, value: string, key: string)
    requires name != [] && key != [] && OneLine(name) && OneLine(value) && Lower(name[0]) != Lower(key[0])
    ensures NotNamed(name + value, key)
  {
  }

  /** Whatever follows, the lookup passes the four lines in front and finds the server's own. */
  lemma SizeLineFound(env: Env, id: string, lines: nat, size: nat, rest: string)
    requires PlainEnv(env) && OneLine(id)
    ensures LineValue(OwnLines(env, id, lines, size) + rest, BODYSIZE) == Some(Dec(size))
  {
    DigitsAreOneLine(Dec(lines));
    DigitsAreOneLine(Dec(size));
    OwnLinesAre(env, id, lines, size, rest);
    OtherLine("Path: ", env.fqdn, BODYSIZE);
    OtherLine("Message-ID: ", id, BODYSIZE);
    OtherLine("Date: ", env.date, BODYSIZE);
    OtherLine("Lines: ", Dec(lines), BODYSIZE);
    SkipFour("Path: " + env.fqdn, "Message-ID: " + id, "Date: " + env.date, "Lines: " + Dec(lines),
             BODYSIZE + " " + Dec(size) + CRLF + rest, BODYSIZE);
    TakeLine(BODYSIZE, Dec(size), rest);
  }

  lemma OwnLinesAre(env: Env, id: string, lines: nat, size: nat, rest: string)
    ensures OwnLines(env, id, lines, size) + rest
            == ("Path: " + env.fqdn) + CRLF + (("Message-ID: " + id) + CRLF + (("Date: " + env.date) + CRLF
               + (("Lines: " + Dec(lines)) + CRLF + (BODYSIZE + " " + Dec(size) + CRLF + rest))))
  {
  }

  /** `snprintf` has room for all of the server's lines. */
  lemma NothingCutOff(env: Env, n: nat, lines: nat, size: nat)
    requires PlainEnv(env) && n < 0x8000_0000 && lines < 0x8000_0000 && size < 0x8000_0000
    ensures Printed(OwnLines(env, MessageId(n, env.host), lines, size), 0x7fd)
            == OwnLines(env, MessageId(n, env.host), lines, size)
  {
    assert Pow10(10) == 10_000_000_000;
    DecShort(n, 10);
    DecShort(lines, 10);
    DecShort(size, 10);
  }

  lemma IdIsOneLine(n: nat, host: string)
    requires OneLine(host)
    ensures OneLine(MessageId(n, host))
  {
    DigitsAreOneLine(Dec(n));
  }

  /** The fields of the posting row itself. */
  lemma SizesOfPosting(env: Env, n: nat, num: nat, header: string, body: string, ngstrp: string)
    requires PlainEnv(env) && n < 0x8000_0000 && 3 <= |body| < 0x8000_0000
    ensures var id := MessageId(n, env.host);
            var posting := PostingOf(env, id, header, body, ngstrp);
            && LineValue(posting.header, BODYSIZE) == Some(Dec(|body|))
            && ItemOf(num, id, posting).bytes == |posting.header| + |body|
            && ItemOf(num, id, posting).lines == BodyLines(body)
  {
    CountBounded(body[..|body| - 3], '\n');
    IdIsOneLine(n, env.host);
    NothingCutOff(env, n, BodyLines(body), |body|);
    SizeLineFound(env, MessageId(n, env.host), BodyLines(body), |body|, HeaderEdit.EditHeader(header));
    AtoiDec(|body|, []);
    assert Dec(|body|) + [] == Dec(|body|);
  }

  /** For every accepted POST, whatever header the client sent: the byte count XOVER reports is
      the stored header plus the stored body, and the line count is the body's. */
  lemma SizesAgree(rules: Rules, st: Store, p: Policy, env: Env, num: nat)
    requires StoreInv(st) && Posted(rules, st, p, env).1 == Answered(240)
    requires PlainEnv(env) && rules.maxPostSize < 0x8000_0000 && st.counter + 1 < 0x8000_0000
    ensures var st', id := Posted(rules, st, p, env).0, MessageId(st.counter + 1, env.host);
            && id in st'.db.postings && FileName(id) in st'.bodies
            && var body, posting := st'.bodies[FileName(id)], st'.db.postings[id];
            && EndsWith(body, ".\r\n")
            && LineValue(posting.header, BODYSIZE) == Some(Dec(|body|))
            && ItemOf(num, id, posting).bytes == |posting.header| + |body|
            && ItemOf(num, id, posting).lines == Count(body[..|body| - 3], '\n')
  {
    Accepted(rules, st, p, env);
    PassedAlways(rules, st.db, env);
    var Passed(header, body, ngstrp) := Screen(rules, st.db, env);
    SizesOfPosting(env, st.counter + 1, num, header, body, ngstrp);
  }

  lemma {:induction false} CountBounded(s: string, c: char)
    ensures Count(s, c) <= |s|
  {
    if s != [] {
      CountBounded(s[..|s| - 1], c);
    }
  }
}
