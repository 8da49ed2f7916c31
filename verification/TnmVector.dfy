/**
 The growable vector of pointers (tnmUtil.c). Pointers are positive numbers and
 0 is NULL. The buffer has one slot more than spaceAvl, and every slot from size
 on is NULL: that is what the loops that walk a vector up to its first NULL rely on.
 */
module TnmVectors {
  import opened Vectors

  const STATIC_SIZE: nat := 8

  class TnmVector {
    var elements: array<nat>
    var size: nat
    var spaceAvl: nat

    ghost predicate Valid()
      reads this, elements
    {
      && size <= spaceAvl
      && elements.Length == spaceAvl + 1
      && (forall i :: 0 <= i < size ==> elements[i] != 0)
      && (forall i :: size <= i < elements.Length ==> elements[i] == 0)
    }

    ghost function Contents(): seq<nat>
      requires Valid()
      reads this, elements
    {
      elements[..size]
    }

    constructor ()
      ensures Valid() && fresh(elements)
      ensures Contents() == []
    {
      elements := new nat[STATIC_SIZE + 1](_ => 0);
      size, spaceAvl := 0, STATIC_SIZE;
    }

    method Add(p: nat)
      requires Valid() && p != 0
      modifies this, elements
      ensures Valid() && (elements == old(elements) || fresh(elements))
      ensures Contents() == old(Contents()) + [p]
    {
      if size == spaceAvl {
        spaceAvl := spaceAvl + STATIC_SIZE;
        var dynamicSpace := new nat[spaceAvl + 1](_ => 0);
        for i := 0 to size
          invariant fresh(dynamicSpace) && size == old(size) && spaceAvl == old(spaceAvl) + STATIC_SIZE
          invariant elements == old(elements) && elements[..] == old(elements[..])
          invariant forall j :: 0 <= j < i ==> dynamicSpace[j] == elements[j]
          invariant forall j :: i <= j < dynamicSpace.Length ==> dynamicSpace[j] == 0
        {
          dynamicSpace[i] := elements[i];
        }
        elements := dynamicSpace;
      }
      elements[size] := p;
      size := size + 1;
    }

    // The second loop reads elements[size]: the NULL slot behind the last element moves down with the rest.
    method Delete(p: nat)
      requires Valid() && p != 0
      modifies this, elements
      ensures Valid() && elements == old(elements)
      ensures Contents() == RemoveFirst(old(Contents()), p)
    {
      var i := Find(p);
      ghost var s := Contents();
      if i < size {
        RemoveFirstAt(s, p, i);
        Shift(i);
        size := size - 1;
        assert Contents() == s[..i] + s[i + 1..];
      } else {
        RemoveFirstNone(s, p);
      }
    }

    method Find(p: nat) returns (i: nat)
      requires Valid()
      ensures i <= size && (i < size ==> elements[i] == p) && forall j :: 0 <= j < i ==> elements[j] != p
    {
      i := 0;
      while i < size && elements[i] != p
        invariant i <= size && forall j :: 0 <= j < i ==> elements[j] != p
      {
        i := i + 1;
      }
    }

    method Shift(k: nat)
      requires k < size < elements.Length
      modifies elements
      ensures forall j :: 0 <= j < elements.Length ==>
                elements[j] == if k <= j < size then old(elements[j + 1]) else old(elements[j])
    {
      var i := k;
      while i < size
        invariant k <= i <= size
        invariant forall j :: 0 <= j < elements.Length ==>
                    elements[j] == if k <= j < i then old(elements[j + 1]) else old(elements[j])
      {
        elements[i] := elements[i + 1];
        i := i + 1;
      }
    }

    // Walking the vector up to the first NULL slot visits exactly its elements, in order.
    method Walk() returns (visited: seq<nat>)
      requires Valid()
      ensures visited == Contents()
    {
      visited := [];
      var i := 0;
      while elements[i] != 0
        invariant 0 <= i <= size
        invariant visited == elements[..i]
        decreases size - i
      {
        visited := visited + [elements[i]];
        i := i + 1;
      }
    }
  }
}
