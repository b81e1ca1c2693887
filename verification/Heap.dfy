/**
 The binary heap behind Dijkstra's queue and ORDER BY ... LIMIT: a slice kept in
 heap order by the sift-up and sift-down of Go's container/heap, driven by a
 caller-supplied `less`.
 */
module BinaryHeap {

  /** `less` orders the values of `dom` as a strict weak order: ties are allowed, cycles are not. */
  ghost predicate StrictWeakOrder<T(!new)>(less: (T, T) -> bool, dom: iset<T>) {
    && (forall a :: a in dom ==> !less(a, a))
    && (forall a, b :: a in dom && b in dom && less(a, b) ==> !less(b, a))
    && (forall a, b, c :: a in dom && b in dom && c in dom && !less(a, b) && !less(b, c) ==> !less(a, c))
  }

  function Parent(i: nat): nat
    requires i > 0
  {
    (i - 1) / 2
  }

  /** Every element but the root is no smaller than its parent. */
  ghost predicate HeapOrdered<T(!new)>(less: (T, T) -> bool, s: seq<T>) {
    forall i :: 0 < i < |s| ==> !less(s[i], s[Parent(i)])
  }

  /** Heap order except, possibly, between `j` and its parent. */
  ghost predicate OrderedButUp<T(!new)>(less: (T, T) -> bool, s: seq<T>, j: nat) {
    && (forall i :: 0 < i < |s| && i != j ==> !less(s[i], s[Parent(i)]))
    && (forall i :: 0 < i < |s| && Parent(i) == j && j > 0 ==> !less(s[i], s[Parent(j)]))
  }

  /** Heap order except, possibly, between `j` and its children. */
  ghost predicate OrderedButDown<T(!new)>(less: (T, T) -> bool, s: seq<T>, j: nat) {
    && (forall i :: 0 < i < |s| && Parent(i) != j ==> !less(s[i], s[Parent(i)]))
    && (forall i :: 0 < i < |s| && Parent(i) == j && j > 0 && j < |s| ==> !less(s[i], s[Parent(j)]))
  }

  function Swapped<T>(s: seq<T>, i: nat, j: nat): (r: seq<T>)
    requires i < |s| && j < |s|
    ensures multiset(r) == multiset(s)
  {
    s[i := s[j]][j := s[i]]
  }

  /** The root of a heap is a least element. */
  lemma {:induction false} RootIsLeast<T(!new)>(less: (T, T) -> bool, dom: iset<T>, s: seq<T>, i: nat)
    requires StrictWeakOrder(less, dom) && (forall x :: x in s ==> x in dom)
    requires HeapOrdered(less, s) && i < |s|
    ensures !less(s[i], s[0])
  {
    if i == 0 {
      assert s[0] in dom;
    } else {
      RootIsLeast(less, dom, s, Parent(i));
      assert s[i] in dom && s[Parent(i)] in dom && s[0] in dom;
    }
  }

  lemma RootIsLeastOfAll<T(!new)>(less: (T, T) -> bool, dom: iset<T>, s: seq<T>)
    requires StrictWeakOrder(less, dom) && (forall x :: x in s ==> x in dom)
    requires HeapOrdered(less, s) && s != []
    ensures forall y :: y in s ==> !less(y, s[0])
  {
    forall y | y in s ensures !less(y, s[0]) {
      var k :| 0 <= k < |s| && s[k] == y;
      RootIsLeast(less, dom, s, k);
    }
  }

  lemma LastDropped<T>(s: seq<T>, n: nat, x: T)
    requires |s| == n + 1 && s[n..] == [x]
    ensures multiset(s[..n]) == multiset(s) - multiset{x}
    ensures forall y :: y in s[..n] ==> y in s
  {
    assert s == s[..n] + s[n..];
  }

  class Heap<T(!new)> {
    var items: seq<T>
    const less: (T, T) -> bool
    ghost const dom: iset<T>

    ghost predicate InDomain()
      reads this
    {
      StrictWeakOrder(less, dom) && forall x :: x in items ==> x in dom
    }

    ghost predicate Valid()
      reads this
    {
      InDomain() && HeapOrdered(less, items)
    }

    constructor (less: (T, T) -> bool, ghost dom: iset<T>)
      requires StrictWeakOrder(less, dom)
      ensures Valid() && items == [] && this.less == less && this.dom == dom
    {
      this.less := less;
      this.dom := dom;
      items := [];
    }

    method Up(start: nat)
      requires InDomain() && start < |items| && OrderedButUp(less, items, start)
      modifies this
      ensures Valid() && multiset(items) == old(multiset(items)) && |items| == old(|items|)
    {
      var j: nat := start;
      while j > 0 && less(items[j], items[Parent(j)])
        invariant j < |items| == old(|items|)
        invariant multiset(items) == old(multiset(items))
        invariant InDomain() && OrderedButUp(less, items, j)
      {
        ghost var before := items;
        var i := Parent(j);
        items := Swapped(items, i, j);
        SiftedUp(less, dom, before, j);
        SameElements(before, items, dom);
        j := i;
      }
    }

    /** One turn of the sift-down loop: exchange `i` with its smaller child unless that is in order already. */
    method DownStep(i: nat, n: nat) returns (j: nat)
      requires n <= |items| && i < n && InDomain() && OrderedButDown(less, items[..n], i)
      modifies this
      ensures InDomain() && multiset(items) == old(multiset(items)) && |items| == old(|items|)
      ensures items[n..] == old(items[n..])
      ensures i <= j < n
      ensures j == i ==> items == old(items) && HeapOrdered(less, items[..n])
      ensures j != i ==> OrderedButDown(less, items[..n], j)
    {
      j := i;
      var left := 2 * i + 1;
      if left >= n {
        ChildrenInOrder(less, items[..n], i);
        return;
      }
      var child := left;
      if left + 1 < n && less(items[left + 1], items[left]) {
        child := left + 1;
      }
      ghost var before := items;
      ChildIsLeast(less, dom, before[..n], i, child);
      if !less(items[child], items[i]) {
        SmallerChildSettles(less, dom, before[..n], i, child);
        return;
      }
      items := Swapped(items, i, child);
      SiftedDown(less, dom, before[..n], i, child);
      assert items[..n] == Swapped(before[..n], i, child);
      SameElements(before, items, dom);
      j := child;
    }

    method Down(start: nat, n: nat)
      requires n <= |items| && start < n && InDomain() && OrderedButDown(less, items[..n], start)
      modifies this
      ensures InDomain() && multiset(items) == old(multiset(items)) && |items| == old(|items|)
      ensures items[n..] == old(items[n..])
      ensures HeapOrdered(less, items[..n])
    {
      var i := start;
      while true
        invariant i < n && |items| == old(|items|)
        invariant multiset(items) == old(multiset(items)) && items[n..] == old(items[n..])
        invariant InDomain() && OrderedButDown(less, items[..n], i)
        decreases n - i
      {
        var j := DownStep(i, n);
        if j == i {
          break;
        }
        i := j;
      }
    }

    /** heap.Push: append, then sift up. */
    method Push(x: T)
      requires Valid() && x in dom
      modifies this
      ensures Valid() && multiset(items) == old(multiset(items)) + multiset{x}
      ensures |items| == old(|items|) + 1
    {
      ghost var before := items;
      items := items + [x];
      assert forall i :: 0 < i < |before| ==> items[i] == before[i] && items[Parent(i)] == before[Parent(i)];
      Up(|items| - 1);
    }

    /** heap.Pop: swap the root with the last element, sift the new root down, drop the last. */
    method Pop() returns (x: T)
      requires Valid() && items != []
      modifies this
      ensures Valid() && |items| == old(|items|) - 1
      ensures x in old(items) && multiset(items) == old(multiset(items)) - multiset{x}
      ensures forall y :: y in old(items) ==> !less(y, x)
    {
      ghost var before := items;
      x := items[0];
      RootIsLeastOfAll(less, dom, before);
      var n := |items| - 1;
      items := Swapped(items, 0, n);
      SameElements(before, items, dom);
      if n > 0 {
        RootReplaced(less, before, items, n);
        Down(0, n);
      }
      LastDropped(items, n, x);
      items := items[..n];
    }

    /** Assigning the root and calling heap.Fix(h, 0): sifting up from the root is never a step. */
    method ReplaceRoot(x: T)
      requires Valid() && items != [] && x in dom
      modifies this
      ensures Valid() && |items| == old(|items|)
      ensures multiset(items) == old(multiset(items)) - multiset{old(items[0])} + multiset{x}
    {
      ghost var before := items;
      items := items[0 := x];
      forall y | y in items ensures y in dom {
        var k :| 0 <= k < |items| && items[k] == y;
        assert k > 0 ==> before[k] == y;
      }
      assert items[..|items|] == items;
      RootReplaced(less, before, items, |items|);
      Down(0, |items|);
      assert items[..|items|] == items;
    }
  }

  lemma SameElements<T(!new)>(before: seq<T>, after: seq<T>, dom: iset<T>)
    requires multiset(before) == multiset(after) && forall x :: x in before ==> x in dom
    ensures forall x :: x in after ==> x in dom
  {
    forall x | x in after ensures x in dom {
      assert x in multiset(after);
      assert x in before;
    }
  }

  lemma ChildIsLeast<T(!new)>(less: (T, T) -> bool, dom: iset<T>, s: seq<T>, i: nat, child: nat)
    requires StrictWeakOrder(less, dom) && (forall x :: x in s ==> x in dom)
    requires 2 * i + 1 < |s|
    requires child == if 2 * i + 2 < |s| && less(s[2 * i + 2], s[2 * i + 1]) then 2 * i + 2 else 2 * i + 1
    ensures !less(s[2 * i + 1], s[child])
    ensures 2 * i + 2 < |s| ==> !less(s[2 * i + 2], s[child])
  {
    assert s[2 * i + 1] in dom && s[child] in dom;
  }

  lemma RootReplaced<T(!new)>(less: (T, T) -> bool, before: seq<T>, after: seq<T>, n: nat)
    requires HeapOrdered(less, before) && |after| == |before| && 0 < n <= |before|
    requires forall i :: 0 < i < n ==> after[i] == before[i]
    ensures OrderedButDown(less, after[..n], 0)
  {
    forall i | 0 < i < n && Parent(i) != 0 ensures !less(after[..n][i], after[..n][Parent(i)]) {
      assert !less(before[i], before[Parent(i)]);
    }
  }

  lemma ChildrenInOrder<T(!new)>(less: (T, T) -> bool, s: seq<T>, i: nat)
    requires OrderedButDown(less, s, i) && 2 * i + 1 >= |s|
    ensures HeapOrdered(less, s)
  {
  }

  lemma SmallerChildSettles<T(!new)>(less: (T, T) -> bool, dom: iset<T>, s: seq<T>, i: nat, j: nat)
    requires StrictWeakOrder(less, dom) && (forall x :: x in s ==> x in dom)
    requires OrderedButDown(less, s, i) && i < j < |s| && (j == 2 * i + 1 || j == 2 * i + 2)
    requires 2 * i + 1 < |s| && !less(s[2 * i + 1], s[j])
    requires 2 * i + 2 < |s| ==> !less(s[2 * i + 2], s[j])
    requires !less(s[j], s[i])
    ensures HeapOrdered(less, s)
  {
    forall c | 0 < c < |s| ensures !less(s[c], s[Parent(c)]) {
      if Parent(c) == i {
        assert c == 2 * i + 1 || c == 2 * i + 2;
        assert s[c] in dom && s[j] in dom && s[i] in dom;
      }
    }
  }

  /** One sift-up step moves the only possible violation to the parent. */
  lemma SiftedUp<T(!new)>(less: (T, T) -> bool, dom: iset<T>, s: seq<T>, j: nat)
    requires StrictWeakOrder(less, dom) && (forall x :: x in s ==> x in dom)
    requires 0 < j < |s| && OrderedButUp(less, s, j) && less(s[j], s[Parent(j)])
    ensures OrderedButUp(less, Swapped(s, Parent(j), j), Parent(j))
  {
    var p := Parent(j);
    var r := Swapped(s, p, j);
    assert s[j] in dom && s[p] in dom;
    forall i | 0 < i < |r| && i != p ensures !less(r[i], r[Parent(i)]) {
      assert s[i] in dom;
      if i != j && Parent(i) == p {
        assert !less(s[i], s[p]);
        assert !less(s[p], s[j]);
      }
    }
    forall i | 0 < i < |r| && Parent(i) == p && p > 0 ensures !less(r[i], r[Parent(p)]) {
      assert s[i] in dom && s[Parent(p)] in dom;
      assert !less(s[p], s[Parent(p)]);
      if i != j {
        assert !less(s[i], s[p]);
      }
    }
  }

  /** One sift-down step moves the only possible violation to the smaller child. */
  lemma SiftedDown<T(!new)>(less: (T, T) -> bool, dom: iset<T>, s: seq<T>, i: nat, j: nat)
    requires StrictWeakOrder(less, dom) && (forall x :: x in s ==> x in dom)
    requires OrderedButDown(less, s, i) && i < j < |s| && (j == 2 * i + 1 || j == 2 * i + 2)
    requires 2 * i + 1 < |s| && !less(s[2 * i + 1], s[j])
    requires 2 * i + 2 < |s| ==> !less(s[2 * i + 2], s[j])
    requires less(s[j], s[i])
    ensures OrderedButDown(less, Swapped(s, i, j), j)
  {
    var r := Swapped(s, i, j);
    assert s[i] in dom && s[j] in dom;
    forall c | 0 < c < |r| && Parent(c) != j ensures !less(r[c], r[Parent(c)]) {
      assert s[c] in dom;
      if Parent(c) == i {
        assert c == 2 * i + 1 || c == 2 * i + 2;
      } else if c == i {
        assert Parent(j) == i;
        assert !less(s[j], s[Parent(i)]);
      } else {
        assert !less(s[c], s[Parent(c)]);
      }
    }
    forall c | 0 < c < |r| && Parent(c) == j && j > 0 ensures !less(r[c], r[Parent(j)]) {
      assert Parent(j) == i;
      assert !less(s[c], s[j]);
    }
  }
}
