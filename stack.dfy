/** The stack helpers `push`, `pop` and `peek` that the calculator adds to
    Kotlin's `ArrayDeque`: the deque's last element is the top of the stack. */
module Stack {
  import opened Wrappers

  /** The last element of `s`, or `None` for an empty sequence. */
  function Top<T>(s: seq<T>): (r: Option<T>)
    ensures r.None? <==> s == []
    ensures r.Some? ==> r.value == s[|s| - 1] && r.value in s
  {
    if s == [] then None else Some(s[|s| - 1])
  }

  /** An `ArrayDeque<T>`, seen through its elements from first to last. */
  class Deque<T> {
    var items: seq<T>

    constructor ()
      ensures items == []
    {
      items := [];
    }

    /** `push` appends at the end. */
    method Push(item: T)
      modifies this
      ensures items == old(items) + [item]
    {
      items := items + [item];
    }

    /** `pop` returns null and changes nothing on an empty deque; otherwise
        it removes and returns the last element. */
    method Pop() returns (r: Option<T>)
      modifies this
      ensures r == Top(old(items))
      ensures items == if old(items) == [] then old(items) else old(items)[..|old(items)| - 1]
    {
      if items == [] {
        return None;
      }
      r := Some(items[|items| - 1]);
      items := items[..|items| - 1];
    }

    /** `peek` returns the last element, or null, and changes nothing. */
    method Peek() returns (r: Option<T>)
      ensures r.None? <==> items == []
      ensures r.Some? ==> r.value == items[|items| - 1]
    {
      if items == [] {
        return None;
      }
      r := Some(items[|items| - 1]);
    }
  }
}
