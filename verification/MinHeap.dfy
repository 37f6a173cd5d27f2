/** MinHeap: a vector kept in heap order by std::push_heap and std::pop_heap. */
module MinHeap {
  /** A timer waiting in the heap, and when it expires. */
  datatype Entry = Entry(id: nat, expire: int)

  function Parent(i: nat): (p: nat)
    requires i > 0
    ensures p < i
  {
    (i - 1) / 2
  }

  predicate IsHeap(s: seq<Entry>) { forall i :: 0 < i < |s| ==> s[Parent(i)].expire <= s[i].expire }

  /** The root of a heap is a least element. */
  lemma {:induction false} RootIsLeast(s: seq<Entry>, i: nat)
    requires IsHeap(s) && i < |s|
    ensures s[0].expire <= s[i].expire
  {
    if i > 0 { RootIsLeast(s, Parent(i)); }
  }

  function Swap(s: seq<Entry>, i: nat, j: nat): (t: seq<Entry>)
    requires i < |s| && j < |s|
    ensures |t| == |s| && multiset(t) == multiset(s)
  {
    s[i := s[j]][j := s[i]]
  }

  /** In heap order, except that element `i` may be smaller than its parent. */
  predicate HeapAbove(s: seq<Entry>, i: nat) {
    && (forall k :: 0 < k < |s| && k != i ==> s[Parent(k)].expire <= s[k].expire)
    && (forall k :: 0 < i && 0 < k < |s| && Parent(k) == i ==> s[Parent(i)].expire <= s[k].expire)
  }

  /** In heap order, except that element `i` may be larger than its children. */
  predicate HeapBelow(s: seq<Entry>, i: nat) {
    && (forall k :: 0 < k < |s| && Parent(k) != i ==> s[Parent(k)].expire <= s[k].expire)
    && (forall k :: 0 < i && 0 < k < |s| && Parent(k) == i ==> s[Parent(i)].expire <= s[k].expire)
  }

  lemma {:induction false} SwapUp(s: seq<Entry>, i: nat)
    requires 0 < i < |s| && HeapAbove(s, i) && s[Parent(i)].expire > s[i].expire
    ensures HeapAbove(Swap(s, i, Parent(i)), Parent(i))
  {
    var p := Parent(i);
    var t := Swap(s, i, p);
    forall k | 0 < k < |t| && k != p ensures t[Parent(k)].expire <= t[k].expire {
      if k != i {
        assert s[Parent(k)].expire <= s[k].expire;
        if Parent(k) == i { assert s[p].expire <= s[k].expire; }
      }
    }
    forall k | 0 < p && 0 < k < |t| && Parent(k) == p ensures t[Parent(p)].expire <= t[k].expire {
      assert s[Parent(p)].expire <= s[p].expire;
      if k != i { assert s[Parent(k)].expire <= s[k].expire; }
    }
  }

  /** The smaller child of `i`. */
  function LeastChild(s: seq<Entry>, i: nat): (c: nat)
    requires 2 * i + 1 < |s|
    ensures i < c < |s| && Parent(c) == i && forall k :: 0 < k < |s| && Parent(k) == i ==> s[c].expire <= s[k].expire
  {
    if 2 * i + 2 < |s| && s[2 * i + 2].expire < s[2 * i + 1].expire then 2 * i + 2 else 2 * i + 1
  }

  lemma {:induction false} SwapDown(s: seq<Entry>, i: nat)
    requires 2 * i + 1 < |s| && HeapBelow(s, i) && s[LeastChild(s, i)].expire < s[i].expire
    ensures HeapBelow(Swap(s, i, LeastChild(s, i)), LeastChild(s, i))
  {
    var c := LeastChild(s, i);
    var t := Swap(s, i, c);
    forall k | 0 < k < |t| && Parent(k) != c ensures t[Parent(k)].expire <= t[k].expire {
      if k == i {
        assert s[Parent(i)].expire <= s[c].expire;
      } else if Parent(k) != i {
        assert s[Parent(k)].expire <= s[k].expire;
      }
    }
    forall k | 0 < c && 0 < k < |t| && Parent(k) == c ensures t[Parent(c)].expire <= t[k].expire {
      assert s[Parent(k)].expire <= s[k].expire;
    }
  }

  class Heap {
    var data: seq<Entry>

    ghost predicate Valid()
      reads this
    {
      IsHeap(data)
    }

    constructor ()
      ensures Valid() && data == []
    {
      data := [];
    }

    method Insert(item: Entry)
      requires Valid()
      modifies this
      ensures Valid() && multiset(data) == old(multiset(data)) + multiset{item}
    {
      data := data + [item];
      var i := |data| - 1;
      while i > 0 && data[Parent(i)].expire > data[i].expire
        invariant 0 <= i < |data| && HeapAbove(data, i)
        invariant multiset(data) == old(multiset(data)) + multiset{item}
      {
        SwapUp(data, i);
        data := Swap(data, i, Parent(i));
        i := Parent(i);
      }
    }

    /** The root, if there is one: a least element. */
    method Top() returns (found: bool, item: Entry)
      requires Valid()
      ensures found <==> data != []
      ensures found ==>
        item == data[0] && item in multiset(data) && forall e :: e in multiset(data) ==> item.expire <= e.expire
    {
      if data == [] {
        return false, Entry(0, 0);
      }
      forall i: nat | i < |data| ensures data[0].expire <= data[i].expire { RootIsLeast(data, i); }
      return true, data[0];
    }

    /** Removes the root. */
    method Pop()
      requires Valid()
      modifies this
      ensures Valid()
      ensures old(data) != [] ==> multiset(data) == old(multiset(data)) - multiset{old(data[0])}
      ensures old(data) == [] ==> data == []
    {
      if data == [] {
        return;
      }
      var n := |data| - 1;
      ghost var s := Swap(data, 0, n);
      assert s == s[..n] + [s[n]];
      assert forall k :: 0 < k < n ==> s[k] == data[k];
      data := data[0 := data[n]][..n];
      assert data == s[..n];
      SiftDown();
    }

    method SiftDown()
      requires HeapBelow(data, 0)
      modifies this
      ensures Valid() && multiset(data) == old(multiset(data))
    {
      var i := 0;
      while 2 * i + 1 < |data| && data[LeastChild(data, i)].expire < data[i].expire
        invariant 0 <= i && (data != [] ==> i < |data|) && HeapBelow(data, i) && multiset(data) == old(multiset(data))
        invariant |data| == |old(data)|
        decreases |data| - i
      {
        SwapDown(data, i);
        var c := LeastChild(data, i);
        data := Swap(data, i, c);
        i := c;
      }
      forall k | 0 < k < |data| ensures data[Parent(k)].expire <= data[k].expire {
        if Parent(k) == i { assert data[LeastChild(data, i)].expire <= data[k].expire; }
      }
    }
  }
}
