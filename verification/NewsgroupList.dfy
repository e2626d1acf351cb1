/** The comma list of a Newsgroups line: what names it stands for, and what a POST to it comes to. */
module NewsgroupList {
  import opened CStrings
  import opened Tables
  import opened Delivery
  import opened Post
  import opened PostFacts
  import LineLookup
  import Receive

  // ---------- The names ----------

  function Commas(n: nat): string {
    seq(n, _ => ',')
  }

  /** Names written one after the other, each followed by its number of commas. */
  function CommaList(names: seq<string>, gaps: seq<nat>): string
    requires |gaps| == |names|
  {
    if names == [] then [] else names[0] + Commas(gaps[0]) + CommaList(names[1..], gaps[1..])
  }

  /** No name is empty or holds a comma, and at least one comma stands between two of them. */
  predicate ListedBy(names: seq<string>, gaps: seq<nat>) {
    && |gaps| == |names|
    && (forall i :: 0 <= i < |names| ==> names[i] != [] && Free(names[i], ','))
    && forall i :: 0 <= i < |gaps| - 1 ==> gaps[i] > 0
  }

  /** A text that stands for these names; commas may lead. */
  predicate Lists(text: string, lead: nat, names: seq<string>, gaps: seq<nat>) {
    ListedBy(names, gaps) && text == Commas(lead) + CommaList(names, gaps)
  }

  lemma {:induction false} CommasSkipped(n: nat, rest: string)
    ensures Tokens(Commas(n) + rest) == Tokens(rest)
  {
    if n == 0 {
      assert Commas(0) + rest == rest;
    } else {
      var s := Commas(n) + rest;
      assert s[0] == ',' && s[1..] == Commas(n - 1) + rest;
      CommasSkipped(n - 1, rest);
    }
  }

  lemma NameTaken(name: string, rest: string)
    requires name != [] && Free(name, ',') && (rest == [] || rest[0] == ',')
    ensures Tokens(name + rest) == [name] + Tokens(rest)
  {
    var s := name + rest;
    assert s[0] == name[0];
    var k := BeforeComma(s);
    assert forall i :: 0 <= i < |name| ==> s[i] == name[i];
    assert rest != [] ==> s[|name|] == ',';
    assert k == |name| && s[..k] == name && s[k..] == rest;
  }

  lemma {:induction false} TokensOfCommaList(names: seq<string>, gaps: seq<nat>)
    requires ListedBy(names, gaps)
    ensures Tokens(CommaList(names, gaps)) == names
  {
    if names != [] {
      var rest := CommaList(names[1..], gaps[1..]);
      TokensOfCommaList(names[1..], gaps[1..]);
      var behind := Commas(gaps[0]) + rest;
      assert CommaList(names, gaps) == names[0] + behind;
      if gaps[0] == 0 {
        assert rest == [] && behind == [];
      }
      NameTaken(names[0], behind);
      CommasSkipped(gaps[0], rest);
    }
  }

  /** Whatever commas stand around and between them, the names of a list are exactly these, in order. */
  lemma NamesOfList(text: string, lead: nat, names: seq<string>, gaps: seq<nat>)
    requires Lists(text, lead, names, gaps)
    ensures Tokens(text) == names
  {
    CommasSkipped(lead, CommaList(names, gaps));
    TokensOfCommaList(names, gaps);
  }

  // ---------- The reply ----------

  /** The i-th name is the first that is missing or closed. */
  predicate FirstBad(db: Db, names: seq<string>, i: nat) {
    i < |names| && !MayPost(db, names[i]) && forall j :: 0 <= j < i ==> MayPost(db, names[j])
  }

  lemma {:induction false} NameErrorIs(db: Db, names: seq<string>, i: nat)
    requires FirstBad(db, names, i)
    ensures NameError(db, names) == Some(if names[i] !in db.groups then 411 else 441)
  {
    if i > 0 {
      assert MayPost(db, names[0]);
      assert forall j :: 0 <= j < i - 1 ==> names[1..][j] == names[j + 1];
      NameErrorIs(db, names[1..], i - 1);
    }
  }

  /** What arrives is this header and this body. */
  predicate Arrives(rules: Rules, env: Env, header: string, body: string) {
    var got := Receive.Outcome([], env.chunks, rules.maxPostSize);
    got.Complete? && Receive.SplitArticle(got.text) == Receive.Parts(header, body)
  }

  /** Without a whole article the connection ends, without the required lines or a Newsgroups line the
      reply is 441; nothing is changed. */
  lemma Unfit(rules: Rules, st: Store, p: Policy, env: Env, header: string, body: string)
    ensures (forall h, b :: !Arrives(rules, env, h, b)) ==> Posted(rules, st, p, env) == (st, Killed)
    ensures Arrives(rules, env, header, body) ==>
              (!rules.requiredLines(header) || LineLookup.LineValue(header, "Newsgroups:") == None ==>
                 Posted(rules, st, p, env) == (st, Answered(441)))
  {
    var got := Receive.Outcome([], env.chunks, rules.maxPostSize);
    if got.Complete? && Receive.SplitArticle(got.text).Parts? {
      var Parts(h, b) := Receive.SplitArticle(got.text);
      assert Arrives(rules, env, h, b);
    }
  }

  /** The list names a missing or closed group: the first one decides the reply, and nothing is changed. */
  lemma RefusedForList(rules: Rules, st: Store, p: Policy, env: Env, header: string, body: string,
                       text: string, lead: nat, names: seq<string>, gaps: seq<nat>, i: nat)
    requires Arrives(rules, env, header, body) && rules.requiredLines(header)
    requires LineLookup.LineValue(header, "Newsgroups:") == Some(text) && Lists(text, lead, names, gaps)
    requires FirstBad(st.db, names, i)
    ensures Posted(rules, st, p, env) == (st, Answered(if names[i] !in st.db.groups then 411 else 441))
  {
    NamesOfList(text, lead, names, gaps);
    NameErrorIs(st.db, names, i);
  }

  lemma PassesScreen(rules: Rules, st: Store, p: Policy, env: Env, header: string, body: string, text: string)
    requires Arrives(rules, env, header, body) && rules.requiredLines(header)
    requires LineLookup.LineValue(header, "Newsgroups:") == Some(text) && NameError(st.db, Tokens(text)) == None
    ensures Screen(rules, st.db, env) == Passed(header, body, text)
    ensures |body| >= 3 && AllExist(st.db, Tokens(text))
    ensures Posted(rules, st, p, env) == Stored(st, p, env, header, body, text)
  {
    PassedAlways(rules, st.db, env);
  }

  /** All groups of the list exist and are open. */
  predicate OpenToAll(rules: Rules, st: Store, env: Env, header: string, body: string,
                      text: string, lead: nat, names: seq<string>, gaps: seq<nat>) {
    && Arrives(rules, env, header, body) && rules.requiredLines(header)
    && LineLookup.LineValue(header, "Newsgroups:") == Some(text) && Lists(text, lead, names, gaps)
    && forall i :: 0 <= i < |names| ==> MayPost(st.db, names[i])
  }

  lemma StoredForList(rules: Rules, st: Store, p: Policy, env: Env, header: string, body: string,
                      text: string, lead: nat, names: seq<string>, gaps: seq<nat>)
    requires OpenToAll(rules, st, env, header, body, text, lead, names, gaps)
    ensures |body| >= 3 && Tokens(text) == names && AllExist(st.db, names)
    ensures Posted(rules, st, p, env) == Stored(st, p, env, header, body, text)
  {
    NamesOfList(text, lead, names, gaps);
    NameErrorIff(st.db, names);
    PassesScreen(rules, st, p, env, header, body, text);
  }

  /** A number that cannot be read or a clock that fails then ends the connection before anything is
      stored. */
  lemma AbortedForList(rules: Rules, st: Store, p: Policy, env: Env, header: string, body: string,
                       text: string, lead: nat, names: seq<string>, gaps: seq<nat>)
    requires OpenToAll(rules, st, env, header, body, text, lead, names, gaps)
    ensures !env.counterOk ==> Posted(rules, st, p, env) == (st, Killed)
    ensures env.counterOk && !env.clockOk ==>
              Posted(rules, st, p, env) == (st.(counter := st.counter + 1), Killed)
  {
    StoredForList(rules, st, p, env, header, body, text, lead, names, gaps);
  }

  /** Else the reply is 240 if and only if every repeat among the permitted groups is caught and no counter
      is full. */
  lemma AnsweredForList(rules: Rules, st: Store, p: Policy, env: Env, header: string, body: string,
                        text: string, lead: nat, names: seq<string>, gaps: seq<nat>)
    requires StoreInv(st) && OpenToAll(rules, st, env, header, body, text, lead, names, gaps)
    requires env.counterOk && env.clockOk
    ensures AllExist(st.db, PermittedOnly(st.db, names, p))
    ensures var ns := PermittedOnly(st.db, names, p);
            Posted(rules, st, p, env).1 == if RepeatsCaught(ns) && RoomFor(st.db, ns) then Answered(240) else Killed
  {
    StoredForList(rules, st, p, env, header, body, text, lead, names, gaps);
    PermittedExist(st.db, names, p);
    ReplyIs240Iff(st, p, env, header, body, text);
  }

  lemma {:induction false} PermittedExist(db: Db, names: seq<string>, p: Policy)
    requires forall i :: 0 <= i < |names| ==> names[i] in db.groups
    ensures AllExist(db, PermittedOnly(db, names, p))
  {
    if names != [] {
      PermittedExist(db, names[1..], p);
    }
  }

  /** And 240 means: the article is in exactly the listed groups its sender has access to, in each under
      the number behind its last one. */
  lemma DeliveredToList(rules: Rules, st: Store, p: Policy, env: Env, header: string, body: string,
                        text: string, lead: nat, names: seq<string>, gaps: seq<nat>, g: string)
    requires StoreInv(st) && Arrives(rules, env, header, body)
    requires LineLookup.LineValue(header, "Newsgroups:") == Some(text) && Lists(text, lead, names, gaps)
    requires Posted(rules, st, p, env).1 == Answered(240)
    ensures var after, id := Posted(rules, st, p, env).0.db, MessageId(st.counter + 1, env.host);
            && (Key(id, g) in after.ngposts <==> g in names && (p.acl ==> Access(st.db, p.user, g)))
            && (Key(id, g) in after.ngposts ==>
                  g in st.db.groups && after.ngposts[Key(id, g)] == st.db.groups[g].high + 1)
  {
    NamesOfList(text, lead, names, gaps);
    Accepted(rules, st, p, env);
    NewIdIsFresh(st, env.host);
    assert Screen(rules, st.db, env).ngstrp == text;
    assert Key(MessageId(st.counter + 1, env.host), g) !in st.db.ngposts;
  }
}
