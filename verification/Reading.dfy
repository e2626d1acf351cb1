/** The queries behind GROUP, LISTGROUP and ARTICLE (src/db_sqlite3.c), and what the numbering
    invariant makes of their answers. */
module Reading {
  import opened CStrings
  import opened Tables
  import opened Delivery

  // ---------- Ordered answers ----------

  ghost function Least(s: set<nat>): (n: nat)
    requires s != {}
    ensures n in s && forall x :: x in s ==> n <= x
  {
    var x :| x in s;
    if s == {x} then x
    else
      var y := Least(s - {x});
      assert forall z :: z in s ==> z == x || z in s - {x};
      if x <= y then x else y
  }

  ghost function Sorted(s: set<nat>): seq<nat> {
    if s == {} then [] else [Least(s)] + Sorted(s - {Least(s)})
  }

  lemma {:induction false} SortedHolds(s: set<nat>)
    ensures |Sorted(s)| == |s| && forall x :: x in Sorted(s) <==> x in s
  {
    if s != {} {
      var m := Least(s);
      SortedHolds(s - {m});
      assert forall x :: x in s <==> x == m || x in s - {m};
      assert forall x :: x in Sorted(s) <==> x == m || x in Sorted(s - {m});
    }
  }

  /** select postnum from ngposts where ng = g */
  function NumbersOf(db: Db, g: string): set<nat> {
    set k | k in db.ngposts && k.ng == g :: db.ngposts[k]
  }

  ghost function FirstNumber(db: Db, g: string): Option<nat> {
    if NumbersOf(db, g) == {} then None else Some(Least(NumbersOf(db, g)))
  }

  /** The message numbered n in g; under the numbering invariant there is at most one. */
  ghost function MessageAt(db: Db, g: string, n: nat): (m: Option<string>)
    ensures m.Some? <==> Has(db, g, n)
    ensures m.Some? ==> Row(db, m.value, g, n)
  {
    if Has(db, g, n) then
      var m :| Row(db, m, g, n);
      Some(m)
    else None
  }

  lemma MessageAtIs(db: Db, g: string, n: nat, m: string)
    requires NoNumberTwice(db) && Row(db, m, g, n)
    ensures MessageAt(db, g, n) == Some(m)
  {
    var x := MessageAt(db, g, n).value;
    assert Key(x, g) == Key(m, g);
  }

  // ---------- Under the numbering invariant ----------

  function Interval(from: nat, to: nat): (s: set<nat>)
    ensures forall x :: x in s <==> from <= x <= to
    decreases if from <= to then to + 1 - from else 0
  {
    if from > to then {} else {from} + Interval(from + 1, to)
  }

  /** The numbers of a group are exactly 1..high. */
  lemma NumbersAreUpToHigh(db: Db, g: string)
    requires Numbered(db) && g in db.groups
    ensures NumbersOf(db, g) == Interval(1, db.groups[g].high)
  {
    forall n: nat | n in Interval(1, db.groups[g].high) ensures n in NumbersOf(db, g) {
      assert Has(db, g, n);
      var m :| Row(db, m, g, n);
      assert Key(m, g) in db.ngposts;
    }
  }

  lemma {:induction false} SizeOfInterval(from: nat, to: nat)
    ensures |Interval(from, to)| == if from <= to then to + 1 - from else 0
    decreases if from <= to then to + 1 - from else 0
  {
    if from <= to {
      SizeOfInterval(from + 1, to);
    }
  }

  /** As many rows as numbers: counting a group's rows counts its numbers. */
  lemma {:induction false} RowsAndNumbers(db: Db, g: string, rows: set<Key>)
    requires NoNumberTwice(db) && forall k :: k in rows ==> k in db.ngposts && k.ng == g
    ensures |set k | k in rows :: db.ngposts[k]| == |rows|
  {
    var nums := set k | k in rows && k in db.ngposts :: db.ngposts[k];
    if rows != {} {
      var k :| k in rows;
      var others := set l | l in rows - {k} && l in db.ngposts :: db.ngposts[l];
      RowsAndNumbers(db, g, rows - {k});
      assert (set l | l in rows - {k} :: db.ngposts[l]) == others;
      assert nums == others + {db.ngposts[k]};
      assert db.ngposts[k] !in others;
    }
    assert (set k | k in rows :: db.ngposts[k]) == nums;
  }

  /** The rows of g. */
  function RowsOf(db: Db, g: string): set<Key> {
    set k | k in db.ngposts && k.ng == g
  }

  /** GROUP reports high, 1 (or 0) and high: the true count, minimum and maximum. */
  lemma GroupFiguresAreExact(db: Db, g: string)
    requires Numbered(db) && g in db.groups
    ensures var high := db.groups[g].high;
            && |RowsOf(db, g)| == high
            && FirstNumber(db, g) == (if high == 0 then None else Some(1))
            && (high > 0 ==> high in NumbersOf(db, g) && forall n :: n in NumbersOf(db, g) ==> n <= high)
  {
    var rows := RowsOf(db, g);
    NumbersAreUpToHigh(db, g);
    SizeOfInterval(1, db.groups[g].high);
    RowsAndNumbers(db, g, rows);
    assert (set k | k in rows :: db.ngposts[k]) == NumbersOf(db, g);
    if db.groups[g].high > 0 {
      assert 1 in NumbersOf(db, g);
    } else {
      assert NumbersOf(db, g) == {};
    }
  }

  function Ascending(from: nat, to: nat): seq<nat>
    decreases if from <= to then to + 1 - from else 0
  {
    if from > to then [] else [from] + Ascending(from + 1, to)
  }

  lemma {:induction false} SortedInterval(from: nat, to: nat)
    ensures Sorted(Interval(from, to)) == Ascending(from, to)
    decreases if from <= to then to + 1 - from else 0
  {
    if from <= to {
      assert from in Interval(from, to) && Least(Interval(from, to)) == from;
      SortedInterval(from + 1, to);
      assert Interval(from, to) - {from} == Interval(from + 1, to);
    }
  }

  /** LISTGROUP lists 1, 2, ..., high. */
  lemma ListingIsAscending(db: Db, g: string)
    requires Numbered(db) && g in db.groups
    ensures Sorted(NumbersOf(db, g)) == Ascending(1, db.groups[g].high)
  {
    NumbersAreUpToHigh(db, g);
    SortedInterval(1, db.groups[g].high);
  }

  // ---------- The queries as code ----------

  /** select min(postnum) ... */
  method MinPostnum(nums: set<nat>) returns (first: Option<nat>)
    ensures first == if nums == {} then None else Some(Least(nums))
  {
    first := None;
    var rest := nums;
    while rest != {}
      invariant rest <= nums
      invariant first.None? ==> rest == nums
      invariant first.Some? ==> first.value in nums && forall x :: x in nums && x !in rest ==> first.value <= x
      decreases rest
    {
      var x :| x in rest;
      if first.None? || x < first.value {
        first := Some(x);
      }
      rest := rest - {x};
    }
  }

  /** select postnum ... order by postnum asc */
  method SelectPostnums(db: Database, g: string) returns (nums: seq<nat>)
    ensures nums == Sorted(NumbersOf(db.State(), g))
  {
    nums := [];
    var rest := set k | k in db.ngposts && k.ng == g :: db.ngposts[k];
    while rest != {}
      invariant Sorted(NumbersOf(db.State(), g)) == nums + Sorted(rest)
      decreases rest
    {
      var m := MinPostnum(rest);
      nums := nums + [m.value];
      rest := rest - {m.value};
    }
  }

  /** select * from ngposts where ng = g and postnum = n */
  method SelectByNumber(db: Database, g: string, n: nat) returns (msgid: Option<string>)
    requires NoNumberTwice(db.State())
    ensures msgid == MessageAt(db.State(), g, n)
  {
    var rest := db.ngposts.Keys;
    while rest != {}
      invariant rest <= db.ngposts.Keys
      invariant forall k :: k in db.ngposts && k !in rest ==> k.ng != g || db.ngposts[k] != n
      decreases rest
    {
      var k :| k in rest;
      if k.ng == g && db.ngposts[k] == n {
        MessageAtIs(db.State(), g, n, k.msgid);
        return Some(k.msgid);
      }
      rest := rest - {k};
    }
    return None;
  }
}
