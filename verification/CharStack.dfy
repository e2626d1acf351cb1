/** The list of names `docmd_post` keeps to post only once to each group (src/charstack.c).
    Pushing overwrites the head's `next`, so a node list never holds more than two names. */
module CharStack {

  /** What the list holds after a push: the first name ever pushed and the latest one. */
  function Pushed(held: seq<string>, value: string): seq<string> {
    if held == [] then [value] else [held[0], value]
  }

  class Node {
    var value: string
    var next: Node?
    var hasData: bool

    ghost predicate Valid()
      reads this, next
    {
      && (!hasData ==> next == null)
      && (next != null ==> next != this && next.next == null && next.hasData)
    }

    ghost function Contents(): seq<string>
      reads this, next
    {
      if !hasData then [] else if next == null then [value] else [value, next.value]
    }

    /** A zeroed node in state STACK_EMPTY. */
    constructor ()
      ensures Valid() && Contents() == [] && next == null
    {
      value, next, hasData := "", null, false;
    }

    constructor Holding(v: string)
      ensures value == v && next == null && hasData
    {
      value, next, hasData := v, null, true;
    }

    method CheckFor(v: string) returns (found: bool)
      requires Valid()
      ensures found <==> v in Contents()
    {
      var p: Node? := this;
      ghost var seen := 0;
      while p != null
        invariant 0 <= seen <= 2
        invariant p == if seen == 0 then this else if seen == 1 then next else null
        invariant forall i :: 0 <= i < seen && i < |Contents()| ==> Contents()[i] != v
        decreases 2 - seen
      {
        if hasData {
          if p.value == v {
            assert p.value == Contents()[seen];
            return true;
          }
        }
        p := p.next;
        seen := if seen == 0 && p == null then 2 else seen + 1;
      }
      return false;
    }

    /** The new node replaces whatever followed the head. */
    method PushOn(v: string)
      requires Valid()
      modifies this
      ensures Valid() && Contents() == Pushed(old(Contents()), v)
      ensures next == old(next) || fresh(next)
    {
      if !hasData {
        value, hasData := v, true;
      } else {
        next := new Node.Holding(v);
      }
    }
  }
}
