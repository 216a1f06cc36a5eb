/**
 * `Lib\DataStruct\Stack`: a list whose last element is the top.
 */
module DataStruct {

  import opened Php

  class Stack<T> {
    /** The pushed and not yet popped items, oldest first. */
    var data: seq<T>

    constructor (initial: seq<T>)
      ensures data == initial
    {
      data := initial;
    }

    method Push(item: T)
      modifies this
      ensures data == old(data) + [item]
    {
      data := data + [item];
    }

    /** Pushes `items` one after the other. */
    method PushAll(items: seq<T>)
      modifies this
      ensures data == old(data) + items
    {
      var i := 0;
      while i < |items|
        invariant 0 <= i <= |items|
        invariant data == old(data) + items[..i]
      {
        Push(items[i]);
        assert items[..i + 1] == items[..i] + [items[i]];
        i := i + 1;
      }
      assert items[..i] == items;
    }

    /** `array_pop`: the top item, removed; nothing (PHP null) on an empty stack. */
    method Pop() returns (r: Option<T>)
      modifies this
      ensures old(data) == [] ==> r == None && data == []
      ensures old(data) != [] ==> r == Some(old(data)[|old(data)| - 1]) && data == old(data)[..|old(data)| - 1]
    {
      if data == [] {
        r := None;
      } else {
        r := Some(data[|data| - 1]);
        data := data[..|data| - 1];
      }
    }

    /** The top item without removing it; nothing (PHP null) on an empty stack. */
    function Top(): (r: Option<T>)
      reads this
      ensures r.None? <==> data == []
      ensures r.Some? ==> r.value == data[|data| - 1]
    {
      if data == [] then None else Some(data[|data| - 1])
    }

    function Size(): (n: nat)
      reads this
      ensures n == |data|
    {
      |data|
    }

    predicate IsNotEmpty()
      reads this
      ensures IsNotEmpty() <==> Size() > 0
    {
      Size() > 0
    }

    method Clear()
      modifies this
      ensures data == []
    {
      data := [];
    }

    function GetData(): (r: seq<T>)
      reads this
      ensures r == data
    {
      data
    }
  }

  /** A push followed by a pop hands back the pushed item and restores the old contents. */
  method PushThenPop<T>(s: Stack<T>, x: T) returns (r: Option<T>)
    modifies s
    ensures r == Some(x) && s.data == old(s.data)
  {
    s.Push(x);
    r := s.Pop();
    assert (old(s.data) + [x])[..|old(s.data)|] == old(s.data);
  }

  /** `pushAll(xs)` leaves the same stack as pushing the items one by one, and popping them returns them in reverse. */
  method PushAllThenPopAll<T>(s: Stack<T>, xs: seq<T>) returns (popped: seq<T>)
    modifies s
    ensures s.data == old(s.data)
    ensures |popped| == |xs| && forall i :: 0 <= i < |xs| ==> popped[i] == xs[|xs| - 1 - i]
  {
    s.PushAll(xs);
    popped := [];
    var k := |xs|;
    while k > 0
      invariant 0 <= k <= |xs|
      invariant s.data == old(s.data) + xs[..k]
      invariant |popped| == |xs| - k
      invariant forall i :: 0 <= i < |popped| ==> popped[i] == xs[|xs| - 1 - i]
    {
      var r := s.Pop();
      assert (old(s.data) + xs[..k])[..|old(s.data)| + k - 1] == old(s.data) + xs[..k - 1];
      popped := popped + [r.value];
      k := k - 1;
    }
    assert old(s.data) + xs[..0] == old(s.data);
  }
}
