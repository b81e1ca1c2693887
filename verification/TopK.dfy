/**
 ORDER BY with LIMIT: a heap of the K best rows, worst at the root, emptied from
 the back. Compared here with a full sort of all rows.
 */
module TopK {
  import opened Types
  import opened Values
  import H = BinaryHeap

  /** A row's evaluated sort key and the row itself, by number. */
  datatype Item = Item(key: seq<Value>, row: nat)

  /** The columns of an ORDER BY: DESC flags, and how values print. */
  datatype Order = Order(desc: seq<bool>, render: Value -> Str) {

    /** isBetter: the first differing column decides. */
    predicate Better(a: seq<Value>, b: seq<Value>, i: nat)
      requires |a| == |b| == |desc| && i <= |desc|
      decreases |desc| - i
    {
      if i == |desc| then false
      else
        var c := Compare(render, a[i], b[i]);
        if c == 0 then Better(a, b, i + 1)
        else if desc[i] then c > 0 else c < 0
    }

    /** The heap's Less: the item that must come last in the result goes to the root. */
    predicate Worse(a: seq<Value>, b: seq<Value>, i: nat)
      requires |a| == |b| == |desc| && i <= |desc|
      decreases |desc| - i
    {
      if i == |desc| then false
      else
        var c := Compare(render, a[i], b[i]);
        if c == 0 then Worse(a, b, i + 1)
        else if desc[i] then c < 0 else c > 0
    }

    predicate Less(x: Item, y: Item) {
      |x.key| == |y.key| == |desc| && Worse(x.key, y.key, 0)
    }

    /** Rows whose key columns each hold values that their column can order. */
    ghost predicate Sortable(cols: seq<Column>, key: seq<Value>) {
      |key| == |cols| == |desc| && forall i :: 0 <= i < |key| ==> InColumn(render, cols[i], key[i])
    }
  }

  lemma {:induction false} BetterIsWorseReversed(o: Order, a: seq<Value>, b: seq<Value>, i: nat)
    requires |a| == |b| == |o.desc| && i <= |o.desc|
    ensures o.Better(a, b, i) <==> o.Worse(b, a, i)
    decreases |o.desc| - i
  {
    if i < |o.desc| {
      CompareAntisymmetric(o.render, a[i], b[i]);
      BetterIsWorseReversed(o, a, b, i + 1);
    }
  }

  lemma {:induction false} WorseAsymmetric(o: Order, a: seq<Value>, b: seq<Value>, i: nat)
    requires |a| == |b| == |o.desc| && i <= |o.desc| && o.Worse(a, b, i)
    ensures !o.Worse(b, a, i)
    decreases |o.desc| - i
  {
    CompareAntisymmetric(o.render, a[i], b[i]);
    if Compare(o.render, a[i], b[i]) == 0 {
      WorseAsymmetric(o, a, b, i + 1);
    }
  }

  /** On sortable keys "not worse than" composes. */
  lemma {:induction false} NotWorseComposes(o: Order, cols: seq<Column>, a: seq<Value>, b: seq<Value>, c: seq<Value>,
      i: nat)
    requires o.Sortable(cols, a) && o.Sortable(cols, b) && o.Sortable(cols, c) && i <= |o.desc|
    requires !o.Worse(a, b, i) && !o.Worse(b, c, i)
    ensures !o.Worse(a, c, i)
    decreases |o.desc| - i
  {
    if i < |o.desc| {
      var ab, bc, ac := Compare(o.render, a[i], b[i]), Compare(o.render, b[i], c[i]), Compare(o.render, a[i], c[i]);
      ColumnComposes(o, cols[i], a[i], b[i], c[i]);
      if ab == 0 && bc == 0 {
        NotWorseComposes(o, cols, a, b, c, i + 1);
      }
    }
  }

  lemma ColumnComposes(o: Order, k: Column, a: Value, b: Value, c: Value)
    requires InColumn(o.render, k, a) && InColumn(o.render, k, b) && InColumn(o.render, k, c)
    ensures var ab, bc, ac := Compare(o.render, a, b), Compare(o.render, b, c), Compare(o.render, a, c);
            && (ab <= 0 && bc <= 0 ==> ac <= 0) && (ab >= 0 && bc >= 0 ==> ac >= 0)
            && (ab <= 0 && bc <= 0 && ac == 0 ==> ab == 0 && bc == 0)
            && (ab >= 0 && bc >= 0 && ac == 0 ==> ab == 0 && bc == 0)
  {
    CompareAntisymmetric(o.render, a, b);
    CompareAntisymmetric(o.render, b, c);
    CompareAntisymmetric(o.render, a, c);
    var ab, bc, ac := Compare(o.render, a, b), Compare(o.render, b, c), Compare(o.render, a, c);
    if ab <= 0 && bc <= 0 {
      ColumnTransitive(o.render, k, a, b, c);
      if ac == 0 {
        ColumnTransitive(o.render, k, c, a, b);
        ColumnTransitive(o.render, k, b, c, a);
      }
    }
    if ab >= 0 && bc >= 0 {
      ColumnTransitive(o.render, k, c, b, a);
      if ac == 0 {
        ColumnTransitive(o.render, k, b, a, c);
        ColumnTransitive(o.render, k, a, c, b);
      }
    }
  }

  ghost function Domain(o: Order, cols: seq<Column>): iset<Item> {
    iset x: Item | o.Sortable(cols, x.key)
  }

  lemma SortableIsStrictWeak(o: Order, cols: seq<Column>)
    ensures H.StrictWeakOrder(o.Less, Domain(o, cols))
  {
    var less := o.Less;
    var dom := Domain(o, cols);
    forall a | a in dom ensures !less(a, a) {
      if less(a, a) {
        WorseAsymmetric(o, a.key, a.key, 0);
      }
    }
    forall a, b | a in dom && b in dom && less(a, b) ensures !less(b, a) {
      WorseAsymmetric(o, a.key, b.key, 0);
    }
    forall a, b, c | a in dom && b in dom && c in dom && !less(a, b) && !less(b, c) ensures !less(a, c) {
      NotWorseComposes(o, cols, a.key, b.key, c.key, 0);
    }
  }

  // ---- sequences in result order ---------------------------------------------

  ghost predicate NotWorse(o: Order, x: Item, y: Item) {
    !o.Less(x, y)
  }

  ghost predicate Ordered(o: Order, s: seq<Item>) {
    forall i, j {:trigger NotWorse(o, s[i], s[j])} :: 0 <= i < j < |s| ==> NotWorse(o, s[i], s[j])
  }

  ghost predicate AllSortable(o: Order, cols: seq<Column>, s: seq<Item>) {
    forall x :: x in s ==> o.Sortable(cols, x.key)
  }

  ghost predicate Tied(o: Order, x: Item, y: Item) {
    NotWorse(o, x, y) && NotWorse(o, y, x)
  }

  lemma NotWorseTrans(o: Order, cols: seq<Column>, x: Item, y: Item, z: Item)
    requires o.Sortable(cols, x.key) && o.Sortable(cols, y.key) && o.Sortable(cols, z.key)
    requires NotWorse(o, x, y) && NotWorse(o, y, z)
    ensures NotWorse(o, x, z)
  {
    NotWorseComposes(o, cols, x.key, y.key, z.key, 0);
  }

  function Without(s: seq<Item>, k: nat): (r: seq<Item>)
    requires k < |s|
    ensures multiset(r) == multiset(s) - multiset{s[k]}
  {
    assert s == s[..k] + [s[k]] + s[k + 1..];
    s[..k] + s[k + 1..]
  }

  lemma OrderedWithout(o: Order, s: seq<Item>, k: nat)
    requires Ordered(o, s) && k < |s|
    ensures Ordered(o, Without(s, k))
  {
    var r := Without(s, k);
    forall i, j | 0 <= i < j < |r| ensures NotWorse(o, r[i], r[j]) {
      assert NotWorse(o, s[if i < k then i else i + 1], s[if j < k then j else j + 1]);
    }
  }

  /** The first element of an ordered sequence is no worse than any. */
  lemma FirstIsBest(o: Order, s: seq<Item>, x: Item)
    requires Ordered(o, s) && x in s && NotWorse(o, x, x)
    ensures NotWorse(o, s[0], x)
  {
    var k :| 0 <= k < |s| && s[k] == x;
    if k > 0 {
      assert NotWorse(o, s[0], s[k]);
    }
  }

  ghost predicate Separated(o: Order, kept: multiset<Item>, dropped: multiset<Item>) {
    forall x, y {:trigger NotWorse(o, x, y)} :: x in kept && y in dropped ==> NotWorse(o, x, y)
  }

  /** `full` is all the rows in result order; `best` are rows of it in result order, no better ones in `rest`. */
  ghost predicate Split(o: Order, cols: seq<Column>, best: seq<Item>, rest: multiset<Item>, full: seq<Item>) {
    && Ordered(o, best) && Ordered(o, full) && AllSortable(o, cols, full)
    && multiset(full) == multiset(best) + rest && Separated(o, multiset(best), rest)
  }

  /** Then `best` has, position by position, the sort keys of `full`. */
  lemma {:induction false} PrefixOfFullSort(o: Order, cols: seq<Column>, best: seq<Item>, rest: multiset<Item>,
      full: seq<Item>)
    requires Split(o, cols, best, rest, full)
    ensures |best| <= |full| && forall i {:trigger Tied(o, best[i], full[i])} :: 0 <= i < |best| ==>
              Tied(o, best[i], full[i])
    decreases |best|
  {
    SplitSize(o, cols, best, rest, full);
    if best != [] {
      var k := DropFirst(o, cols, best, rest, full);
      var shorter := Without(full, k);
      PrefixOfFullSort(o, cols, best[1..], rest, shorter);
      forall i | 0 <= i < |best| ensures Tied(o, best[i], full[i]) {
        if i > 0 {
          assert Tied(o, best[1..][i - 1], shorter[i - 1]);
          assert best[i] in multiset(best);
          assert best[i] in multiset(full);
          ShiftTies(o, cols, full, k, best[i], i);
        }
      }
    }
  }

  lemma SplitSize(o: Order, cols: seq<Column>, best: seq<Item>, rest: multiset<Item>, full: seq<Item>)
    requires Split(o, cols, best, rest, full)
    ensures |best| <= |full|
  {
    assert |multiset(full)| == |multiset(best)| + |rest|;
  }

  /** Removing the first best row from both sides. */
  lemma DropFirst(o: Order, cols: seq<Column>, best: seq<Item>, rest: multiset<Item>, full: seq<Item>) returns (k: nat)
    requires Split(o, cols, best, rest, full) && best != []
    ensures k < |full| && full[k] == best[0] && Tied(o, best[0], full[0]) && Tied(o, full[k], full[0])
    ensures Split(o, cols, best[1..], rest, Without(full, k))
  {
    var x := best[0];
    assert x in multiset(best);
    assert x in multiset(full);
    k :| 0 <= k < |full| && full[k] == x;
    FrontsTie(o, cols, best, rest, full, k);
    OrderedWithout(o, full, k);
    OrderedWithout(o, best, 0);
    assert Without(best, 0) == best[1..];
    StaySortable(o, cols, full, k);
    forall y, z | y in multiset(best[1..]) && z in rest ensures NotWorse(o, y, z) {
      assert y in multiset(best);
    }
  }

  lemma StaySortable(o: Order, cols: seq<Column>, s: seq<Item>, k: nat)
    requires AllSortable(o, cols, s) && k < |s|
    ensures AllSortable(o, cols, Without(s, k))
  {
  }

  lemma SelfTied(o: Order, cols: seq<Column>, x: Item)
    requires o.Sortable(cols, x.key)
    ensures NotWorse(o, x, x)
  {
    if o.Less(x, x) {
      WorseAsymmetric(o, x.key, x.key, 0);
    }
  }

  /** Both sequences start with a best element. */
  lemma FrontsTie(o: Order, cols: seq<Column>, best: seq<Item>, rest: multiset<Item>, full: seq<Item>, k: nat)
    requires best != [] && Split(o, cols, best, rest, full) && k < |full| && full[k] == best[0]
    ensures Tied(o, best[0], full[0])
  {
    assert best[0] in multiset(best);
    SelfTied(o, cols, full[k]);
    FirstIsBest(o, full, full[k]);
    assert full[0] in multiset(full);
    if full[0] in rest {
      assert NotWorse(o, best[0], full[0]);
    } else {
      assert full[0] in best;
      SelfTied(o, cols, full[0]);
      FirstIsBest(o, best, full[0]);
    }
  }

  /** Removing an element tied with the first shifts the earlier ones by ties only. */
  lemma ShiftTies(o: Order, cols: seq<Column>, full: seq<Item>, k: nat, x: Item, i: nat)
    requires Ordered(o, full) && AllSortable(o, cols, full) && k < |full| && 0 < i < |full| && o.Sortable(cols, x.key)
    requires Tied(o, full[k], full[0]) && Tied(o, x, Without(full, k)[i - 1])
    ensures Tied(o, x, full[i])
  {
    var y, z := Without(full, k)[i - 1], full[i];
    if i <= k {
      assert y == full[i - 1];
      assert NotWorse(o, full[i - 1], full[i]);
      if i < k { assert NotWorse(o, full[i], full[k]); } else { SelfTied(o, cols, full[k]); }
      if 0 < i - 1 { assert NotWorse(o, full[0], full[i - 1]); } else { SelfTied(o, cols, full[0]); }
      NotWorseTrans(o, cols, full[i], full[k], full[0]);
      NotWorseTrans(o, cols, full[i], full[0], full[i - 1]);
      NotWorseTrans(o, cols, x, y, z);
      NotWorseTrans(o, cols, z, y, x);
    } else {
      assert y == full[i];
    }
  }

  // ---- the heap ---------------------------------------------------------------

  class Selector {
    const order: Order
    const limit: nat
    const heap: H.Heap<Item>
    ghost const cols: seq<Column>
    ghost var dropped: multiset<Item>
    ghost var offered: multiset<Item>

    /** The heap holds the best `limit` of what was offered. */
    ghost predicate Valid()
      reads this, heap
    {
      && 0 < limit
      && heap.Valid() && heap.less == order.Less && heap.dom == Domain(order, cols)
      && multiset(heap.items) + dropped == offered
      && |heap.items| <= limit && (|heap.items| < limit ==> dropped == multiset{})
      && Separated(order, multiset(heap.items), dropped)
      && (forall x :: x in dropped ==> order.Sortable(cols, x.key))
    }

    constructor (order: Order, limit: nat, ghost cols: seq<Column>)
      requires 0 < limit
      ensures Valid() && fresh(heap) && offered == multiset{} && this.order == order && this.limit == limit &&
              this.cols == cols
    {
      this.order, this.limit, this.cols := order, limit, cols;
      SortableIsStrictWeak(order, cols);
      heap := new H.Heap<Item>(order.Less, Domain(order, cols));
      dropped, offered := multiset{}, multiset{};
    }

    /** offer: fill up, then replace the worst kept row by any better one. */
    method Offer(item: Item)
      requires Valid() && order.Sortable(cols, item.key)
      modifies this, heap
      ensures Valid() && offered == old(offered) + multiset{item}
    {
      offered := offered + multiset{item};
      if |heap.items| < limit {
        heap.Push(item);
      } else {
        Challenge(item);
      }
    }

    /** A full heap: replace the root if the new item is better than it. */
    method Challenge(item: Item)
      requires order.Sortable(cols, item.key) && 0 < limit == |heap.items|
      requires heap.Valid() && heap.less == order.Less && heap.dom == Domain(order, cols)
      requires multiset(heap.items) + dropped + multiset{item} == offered
      requires Separated(order, multiset(heap.items), dropped) && forall x :: x in dropped ==>
                 order.Sortable(cols, x.key)
      modifies this`dropped, heap
      ensures Valid()
    {
      ghost var root, kept := heap.items[0], multiset(heap.items);
      RootIsWorst(heap.items);
      assert root in kept;
      BetterIsWorseReversed(order, item.key, heap.items[0].key, 0);
      if order.Better(item.key, heap.items[0].key, 0) {
        Replace(order, cols, kept, dropped, root, item);
        heap.ReplaceRoot(item);
        dropped := dropped + multiset{root};
      } else {
        Refuse(order, cols, kept, dropped, root, item);
        dropped := dropped + multiset{item};
      }
    }

    lemma RootIsWorst(s: seq<Item>)
      requires heap.Valid() && heap.less == order.Less && heap.dom == Domain(order, cols) && heap.items == s != []
      ensures forall x :: x in multiset(s) ==> NotWorse(order, x, s[0]) && order.Sortable(cols, x.key)
    {
      H.RootIsLeastOfAll(heap.less, heap.dom, s);
      forall x | x in multiset(s) ensures NotWorse(order, x, s[0]) && order.Sortable(cols, x.key) {
        assert x in s && x in heap.dom;
      }
    }

    /** sorted: pop worst-first, fill the result from the back. */
    method Sorted() returns (result: seq<Item>)
      requires Valid()
      modifies heap
      ensures multiset(result) == old(multiset(heap.items)) && Ordered(order, result)
    {
      result := [];
      ghost var all := multiset(heap.items);
      while |heap.items| > 0
        invariant heap.Valid() && heap.less == order.Less && heap.dom == Domain(order, cols)
        invariant multiset(heap.items) + multiset(result) == all
        invariant Ordered(order, result) && Separated(order, multiset(heap.items), multiset(result))
        decreases |heap.items|
      {
        ghost var before, tail := heap.items, result;
        var x := heap.Pop();
        result := [x] + result;
        PopKeepsOrder(order, multiset(before), x, tail, multiset(heap.items));
      }
    }
  }

  lemma PopKeepsOrder(o: Order, before: multiset<Item>, x: Item, tail: seq<Item>, after: multiset<Item>)
    requires x in before && after == before - multiset{x} && Ordered(o, tail) && Separated(o, before, multiset(tail))
    requires forall y :: y in before ==> !o.Less(y, x)
    ensures Ordered(o, [x] + tail) && Separated(o, after, multiset([x] + tail))
  {
    var s := [x] + tail;
    forall i, j | 0 <= i < j < |s| ensures NotWorse(o, s[i], s[j]) {
      assert s[j] == tail[j - 1] && tail[j - 1] in multiset(tail);
      if i > 0 {
        assert NotWorse(o, tail[i - 1], tail[j - 1]);
      }
    }
    forall y, z | y in after && z in multiset(s) ensures NotWorse(o, y, z) {
      assert y in before && (z == x || z in multiset(tail));
    }
  }

  lemma Replace(o: Order, cols: seq<Column>, kept: multiset<Item>, dropped: multiset<Item>, root: Item, item: Item)
    requires Separated(o, kept, dropped) && root in kept && o.Sortable(cols, item.key) && o.Less(root, item)
    requires forall x :: x in kept ==> NotWorse(o, x, root) && o.Sortable(cols, x.key)
    requires forall x :: x in dropped ==> o.Sortable(cols, x.key)
    ensures Separated(o, kept - multiset{root} + multiset{item}, dropped + multiset{root})
  {
    WorseAsymmetric(o, root.key, item.key, 0);
    forall x, y | x in kept - multiset{root} + multiset{item} && y in dropped + multiset{root}
      ensures NotWorse(o, x, y)
    {
      if x == item && y != root {
        assert NotWorse(o, root, y);
        NotWorseTrans(o, cols, item, root, y);
      }
    }
  }

  lemma Refuse(o: Order, cols: seq<Column>, kept: multiset<Item>, dropped: multiset<Item>, root: Item, item: Item)
    requires Separated(o, kept, dropped) && root in kept && o.Sortable(cols, item.key) && NotWorse(o, root, item)
    requires forall x :: x in kept ==> NotWorse(o, x, root) && o.Sortable(cols, x.key)
    ensures Separated(o, kept, dropped + multiset{item})
  {
    forall x, y | x in kept && y in dropped + multiset{item} ensures NotWorse(o, x, y) {
      if y == item {
        NotWorseTrans(o, cols, x, root, item);
      }
    }
  }

  // ---- what the result order is --------------------------------------------------------------------------

  ghost predicate EqualBefore(o: Order, a: seq<Value>, b: seq<Value>, c: nat)
    requires |a| == |b| == |o.desc| && c <= |o.desc|
  {
    forall d {:trigger a[d]} :: 0 <= d < c ==> Equals(o.render, a[d], b[d])
  }

  /**
   A row with keys `a` may stand before one with keys `b`: no ASC column is smaller in `b`
   and no DESC column larger, among the columns before which all others are equal.
   */
  ghost predicate MayPrecede(o: Order, a: seq<Value>, b: seq<Value>) {
    |a| == |b| == |o.desc| && forall c {:trigger EqualBefore(o, a, b, c)} ::
      0 <= c < |o.desc| && EqualBefore(o, a, b, c) ==>
      if o.desc[c] then !Smaller(o.render, a[c], b[c]) else !Smaller(o.render, b[c], a[c])
  }

  lemma {:induction false} WorseMeans(o: Order, a: seq<Value>, b: seq<Value>, i: nat)
    requires |a| == |b| == |o.desc| && i <= |o.desc| && EqualBefore(o, a, b, i)
    ensures !o.Worse(a, b, i) <==> MayPrecede(o, a, b)
    decreases |o.desc| - i
  {
    if i < |o.desc| {
      CompareMeans(o.render, a[i], b[i]);
      if Compare(o.render, a[i], b[i]) == 0 {
        WorseMeans(o, a, b, i + 1);
      } else {
        assert !Equals(o.render, a[i], b[i]);
        forall c | 0 <= c < i ensures Equals(o.render, a[c], b[c]) && !Smaller(o.render, a[c], b[c]) &&
            !Smaller(o.render, b[c], a[c])
        {
          CompareMeans(o.render, a[c], b[c]);
        }
      }
    } else {
      forall c | 0 <= c < i ensures !Smaller(o.render, a[c], b[c]) && !Smaller(o.render, b[c], a[c]) {
        CompareMeans(o.render, a[c], b[c]);
      }
    }
  }

  lemma NotWorseMeans(o: Order, x: Item, y: Item)
    requires |x.key| == |y.key| == |o.desc|
    ensures NotWorse(o, x, y) <==> MayPrecede(o, x.key, y.key)
  {
    WorseMeans(o, x.key, y.key, 0);
  }

  /**
   The first column in which two rows differ: numbers do not fall under ASC nor rise under
   DESC, the same for strings byte by byte and for false before true, and null comes first
   under ASC and last under DESC.
   */
  lemma ColumnsRun(o: Order, a: seq<Value>, b: seq<Value>, c: nat)
    requires MayPrecede(o, a, b) && c < |o.desc| && EqualBefore(o, a, b, c)
    ensures a[c].Num? && b[c].Num? ==> if o.desc[c] then a[c].num >= b[c].num else a[c].num <= b[c].num
    ensures a[c].Text? && b[c].Text? ==>
              if o.desc[c] then a[c] == b[c] || StrSmaller(b[c].str, a[c].str)
              else a[c] == b[c] || StrSmaller(a[c].str, b[c].str)
    ensures a[c].Bool? && b[c].Bool? ==>
              if o.desc[c] then b[c].flag ==> a[c].flag else a[c].flag ==> b[c].flag
    ensures if o.desc[c] then a[c].Nil? ==> b[c].Nil? else b[c].Nil? ==> a[c].Nil?
  {
    if a[c].Text? && b[c].Text? {
      StrCompareMeans(a[c].str, b[c].str);
    }
  }

  /**
   The projection loop: offer every row, then extract. The result is a sub-multiset of the
   rows, each of which may stand before the later ones and before every row left out; so it
   has, position by position, the sort keys of the first `limit` rows of any full sort.
   */
  method OrderByLimit(o: Order, limit: nat, items: seq<Item>, ghost cols: seq<Column>) returns (result: seq<Item>)
    requires 0 < limit && AllSortable(o, cols, items)
    ensures |result| == if |items| < limit then |items| else limit
    ensures multiset(result) <= multiset(items) && Ordered(o, result)
    ensures forall i, j {:trigger MayPrecede(o, result[i].key, result[j].key)} :: 0 <= i < j < |result| ==>
              MayPrecede(o, result[i].key, result[j].key)
    ensures forall x, y {:trigger MayPrecede(o, x.key, y.key)} ::
              x in result && y in multiset(items) - multiset(result) ==> MayPrecede(o, x.key, y.key)
    ensures forall full :: multiset(full) == multiset(items) && Ordered(o, full) ==>
              |result| <= |full| && forall i :: 0 <= i < |result| ==> Tied(o, result[i], full[i])
  {
    var h := new Selector(o, limit, cols);
    for k := 0 to |items|
      invariant h.Valid() && fresh(h) && fresh(h.heap) && h.order == o && h.limit == limit && h.cols == cols
      invariant h.offered == multiset(items[..k])
    {
      assert items[..k + 1] == items[..k] + [items[k]];
      h.Offer(items[k]);
    }
    assert items[..|items|] == items;
    ghost var kept, dropped := multiset(h.heap.items), h.dropped;
    assert |kept| + |dropped| == |multiset(items)|;
    result := h.Sorted();
    assert |multiset(result)| == |result|;
    SplitMeans(o, cols, items, result, dropped);
    forall full | multiset(full) == multiset(items) && Ordered(o, full)
      ensures |result| <= |full| && forall i :: 0 <= i < |result| ==> Tied(o, result[i], full[i])
    {
      FullSortAgrees(o, cols, items, result, dropped, full);
    }
  }

  lemma SplitMeans(o: Order, cols: seq<Column>, items: seq<Item>, result: seq<Item>, dropped: multiset<Item>)
    requires AllSortable(o, cols, items) && multiset(items) == multiset(result) + dropped
    requires Ordered(o, result) && Separated(o, multiset(result), dropped)
    ensures forall i, j {:trigger MayPrecede(o, result[i].key, result[j].key)} :: 0 <= i < j < |result| ==>
              MayPrecede(o, result[i].key, result[j].key)
    ensures forall x, y {:trigger MayPrecede(o, x.key, y.key)} ::
              x in result && y in multiset(items) - multiset(result) ==> MayPrecede(o, x.key, y.key)
  {
    assert multiset(items) - multiset(result) == dropped;
    forall x | x in multiset(items) ensures |x.key| == |o.desc| {
      assert x in items;
    }
    forall i, j | 0 <= i < j < |result| ensures MayPrecede(o, result[i].key, result[j].key) {
      assert result[i] in multiset(result) && result[j] in multiset(result);
      assert NotWorse(o, result[i], result[j]);
      NotWorseMeans(o, result[i], result[j]);
    }
    forall x, y | x in result && y in dropped ensures MayPrecede(o, x.key, y.key) {
      assert x in multiset(result) && NotWorse(o, x, y);
      NotWorseMeans(o, x, y);
    }
  }

  lemma FullSortAgrees(o: Order, cols: seq<Column>, items: seq<Item>, result: seq<Item>, dropped: multiset<Item>,
      full: seq<Item>)
    requires AllSortable(o, cols, items) && multiset(items) == multiset(result) + dropped
    requires Ordered(o, result) && Separated(o, multiset(result), dropped)
    requires multiset(full) == multiset(items) && Ordered(o, full)
    ensures |result| <= |full| && forall i :: 0 <= i < |result| ==> Tied(o, result[i], full[i])
  {
    forall x | x in full ensures o.Sortable(cols, x.key) {
      assert x in multiset(full);
      assert x in items;
    }
    PrefixOfFullSort(o, cols, result, dropped, full);
  }
}
