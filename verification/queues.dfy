/** The `LinkedList<String>` the programs use both as the shared request queue and as the
    `filesAdded` ledger. */
module Queues {
  import opened Common

  class StringList {
    /** The elements, head first. */
    var items: seq<string>

    constructor ()
      ensures items == []
    {
      items := [];
    }

    function IsEmpty(): (b: bool)
      reads this
      ensures b <==> |items| == 0
    {
      items == []
    }

    function Contains(x: string): (b: bool)
      reads this
      ensures b <==> exists k :: 0 <= k < |items| && items[k] == x
    {
      x in items
    }

    /** `offer`: append at the tail. */
    method Offer(x: string)
      modifies this
      ensures items == old(items) + [x]
    {
      items := items + [x];
    }

    /** `poll`: remove and return the head; on an empty list, `null` and no change. */
    method Poll() returns (x: Option<string>)
      modifies this
      ensures old(items) == [] ==> x == None && items == []
      ensures old(items) != [] ==> x == Some(old(items)[0]) && items == old(items)[1..]
    {
      if items == [] {
        x := None;
      } else {
        x := Some(items[0]);
        items := items[1..];
      }
    }
  }
}
