/** Cloning a container with everything inside it (src/container.cpp, Container::clone). */
module CloneTree {
  import opened Containers

  /** What items are created for a kind: a like one, the room in it, and whether it has pages. */
  datatype Catalog = Catalog(like: Kind -> Kind, sizeOf: Kind -> nat, paged: Kind -> bool) {

    /** The kind of a copy.  A few identifiers stand for others of the same weight; attributes are copied. */
    function KindOf(kind: Kind): Kind {
      like(kind).(attributes := kind.attributes, baseWeight := kind.baseWeight, stackable := kind.stackable)
    }
  }

  /** A container is created from its kind alone, unlocked. */
  predicate Built(types: Catalog, kind: Kind, i: Item, c: Item) {
    c.isContainer == i.isContainer && c.capacity == types.sizeOf(kind) && c.unlocked
        && c.pagination == types.paged(kind)
  }

  lemma SameOwnWeight(types: Catalog, kind: Kind, count: int)
    ensures OwnWeight(types.KindOf(kind), count) == OwnWeight(kind, count)
  {
    OwnWeightIsProduct(kind, count);
    OwnWeightIsProduct(types.KindOf(kind), count);
  }

  /** Every cached weight is right but for containers still being filled. */
  ghost predicate WeighedBut(h: Heap, open: set<Item>) {
    forall j {:trigger WeighedAt(h, j)} :: j in h && j !in open ==> WeighedAt(h, j)
  }

  ghost predicate Extends(h: Heap, h': Heap) {
    forall j {:trigger j in h} :: j in h ==> j in h' && h'[j] == h[j]
  }

  ghost predicate SameRank(rank: map<Item, nat>, rank': map<Item, nat>, bound: nat) {
    && (forall j {:trigger j in rank} :: j in rank ==> j in rank' && rank'[j] == rank[j])
    && forall j :: j in rank' ==> rank'[j] <= bound
  }

  lemma {:induction false} SumExtended(h: Heap, h': Heap, list: seq<Item>)
    requires Extends(h, h') && forall x :: x in list ==> x in h
    ensures (forall x :: x in list ==> x in h') && SumWeights(h', list) == SumWeights(h, list)
  {
    if list != [] {
      SumExtended(h, h', list[1..]);
    }
  }

  /** A new item without parent or contents. */
  lemma LeafAdded(h: Heap, rank: map<Item, nat>, open: set<Item>, c: Item, r: nat, kind: Kind, count: int, h': Heap)
    requires Linked(h) && Ranked(h, rank) && WeighedBut(h, open) && c !in h
    requires h' == h[c := Fields(null, [], 0, kind, count)]
    ensures Linked(h') && Ranked(h', rank[c := r]) && WeighedBut(h', open) && Extends(h, h')
  {
    forall j | j in h'
      ensures LinkedAt(h', j) && RankedAt(h', rank[c := r], j)
    {
      if j != c {
        assert LinkedAt(h, j) && RankedAt(h, rank, j);
      }
    }
    forall j | j in h' && j !in open
      ensures WeighedAt(h', j)
    {
      if j != c {
        assert WeighedAt(h, j);
        SumExtended(h, h', h[j].list);
      }
    }
  }

  /** An item of higher rank joins the back of a container that is being filled. */
  lemma BackFilled(h: Heap, rank: map<Item, nat>, open: set<Item>, c: Item, y: Item, h': Heap)
    requires Linked(h) && Ranked(h, rank) && WeighedBut(h, open) && c in open && c in h && y in h && c.isContainer
    requires h[c].parent == null && h[y].parent == null && rank[c] < rank[y]
    requires h' == Attached(h, c, y, h[c].list + [y])
    ensures Linked(h') && Ranked(h', rank) && WeighedBut(h', open)
    ensures (forall x :: x in h'[c].list ==> x in h') && (forall x :: x in h[c].list ==> x in h)
    ensures SumWeights(h', h'[c].list) == SumWeights(h, h[c].list) + WeightOf(h, y)
  {
    assert LinkedAt(h, c) && LinkedAt(h, y) && RankedAt(h, rank, c) && RankedAt(h, rank, y);
    assert y !in h[c].list;
    assert CanAttach(h, rank, c, y, h[c].list + [y]);
    AttachedLinked(h, rank, c, y, h[c].list + [y]);
    forall j | j in h'
      ensures RankedAt(h', rank, j)
    {
      assert RankedAt(h, rank, j);
    }
    forall j | j in h' && j !in open
      ensures WeighedAt(h', j)
    {
      assert WeighedAt(h, j);
      SameWeights(h, h', h[j].list);
    }
    SumOfInserted(h, h[c].list, y, []);
    assert h[c].list + [y] + [] == h[c].list + [y] && h[c].list + [] == h[c].list;
    SameWeights(h, h', h[c].list + [y]);
  }

  /** A container is full and gets its weight. */
  lemma Filled(h: Heap, rank: map<Item, nat>, open: set<Item>, c: Item, total: int, h': Heap)
    requires Linked(h) && Ranked(h, rank) && WeighedBut(h, open + {c}) && c in h && h[c].parent == null
    requires (forall x :: x in h[c].list ==> x in h) && total == SumWeights(h, h[c].list)
    requires h' == h[c := h[c].(total := total)]
    ensures Linked(h') && Ranked(h', rank) && WeighedBut(h', open)
  {
    forall j | j in h'
      ensures LinkedAt(h', j) && RankedAt(h', rank, j)
    {
      assert LinkedAt(h, j) && RankedAt(h, rank, j);
    }
    forall j | j in h' && j !in open
      ensures WeighedAt(h', j)
    {
      assert LinkedAt(h, j) && c !in h[j].list;
      if j != c {
        assert WeighedAt(h, j);
      }
      SameWeights(h, h', h[j].list);
    }
  }

  lemma SumNext(h: Heap, list: seq<Item>, k: nat)
    requires (forall x :: x in list ==> x in h) && k < |list|
    ensures SumWeights(h, list[..k + 1]) == SumWeights(h, list[..k]) + WeightOf(h, list[k])
  {
    SumOfInserted(h, list[..k], list[k], []);
    assert list[..k] + [list[k]] + [] == list[..k + 1] && list[..k] + [] == list[..k];
  }

  lemma ChildBelow(h: Heap, rank: map<Item, nat>, i: Item, k: nat, x: Item)
    requires Linked(h) && Ranked(h, rank) && i in h && k < |h[i].list| && x == h[i].list[k]
    ensures x in h && rank[i] < rank[x]
  {
    assert x in h[i].list && LinkedAt(h, i) && RankedAt(h, rank, x);
  }

  /** One item is made as the other's kind is, with its count, and down to depth n so are the items they hold, one by
      one. */
  ghost predicate Alike(types: Catalog, h: Heap, i: Item, c: Item, n: nat)
    decreases n
  {
    && i in h && c in h && h[c].kind == types.KindOf(h[i].kind) && h[c].count == h[i].count
    && h[c].kind.attributes == h[i].kind.attributes && h[c].kind.baseWeight == h[i].kind.baseWeight
    && Built(types, h[i].kind, i, c)
    && |h[c].list| == |h[i].list|
    && (n > 0 ==> forall k :: 0 <= k < |h[i].list| ==> Alike(types, h, h[i].list[k], h[c].list[k], n - 1))
  }

  /** What lies at ranks above r keeps its kind, count and contents. */
  ghost predicate SameAbove(h: Heap, h': Heap, rank: map<Item, nat>, r: int)
    requires Ranked(h, rank)
  {
    forall j {:trigger h[j]} {:trigger rank[j]} :: j in h && rank[j] > r ==>
        j in h' && h'[j].kind == h[j].kind && h'[j].count == h[j].count && h'[j].list == h[j].list
  }

  lemma {:induction false} AlikeStays(types: Catalog, h: Heap, h': Heap, rank: map<Item, nat>, r: int, i: Item,
                                      c: Item, n: nat)
    requires Linked(h) && Ranked(h, rank) && SameAbove(h, h', rank, r)
    requires Alike(types, h, i, c, n) && rank[i] > r && rank[c] > r
    ensures Alike(types, h', i, c, n)
    decreases n
  {
    if n > 0 {
      assert h'[i].list == h[i].list && h'[c].list == h[c].list;
      forall k | 0 <= k < |h[i].list|
        ensures Alike(types, h', h[i].list[k], h[c].list[k], n - 1)
      {
        ChildBelow(h, rank, i, k, h[i].list[k]);
        ChildBelow(h, rank, c, k, h[c].list[k]);
        AlikeStays(types, h, h', rank, r, h[i].list[k], h[c].list[k], n - 1);
      }
    }
  }

  /** The first k items of the lists are alike at every depth. */
  ghost predicate AlikeUpTo(types: Catalog, h: Heap, list: seq<Item>, copies: seq<Item>, k: nat) {
    && k <= |list| && k <= |copies|
    && forall m, n: nat {:trigger Alike(types, h, list[m], copies[m], n)} :: 0 <= m < k ==>
          Alike(types, h, list[m], copies[m], n)
  }

  lemma AlikeUpToStays(types: Catalog, h: Heap, h': Heap, rank: map<Item, nat>, r: int, i: Item, c: Item, k: nat)
    requires Linked(h) && Ranked(h, rank) && SameAbove(h, h', rank, r) && i in h && c in h && rank[i] >= r
             && rank[c] >= r
    requires AlikeUpTo(types, h, h[i].list, h[c].list, k)
    ensures AlikeUpTo(types, h', h[i].list, h[c].list, k)
  {
    forall m, n: nat | 0 <= m < k
      ensures Alike(types, h', h[i].list[m], h[c].list[m], n)
    {
      ChildBelow(h, rank, i, m, h[i].list[m]);
      ChildBelow(h, rank, c, m, h[c].list[m]);
      AlikeStays(types, h, h', rank, r, h[i].list[m], h[c].list[m], n);
    }
  }

  lemma ExtendedAbove(h: Heap, h': Heap, rank: map<Item, nat>)
    requires Ranked(h, rank) && Extends(h, h')
    ensures SameAbove(h, h', rank, -1)
  {
  }

  /** The copy c of i holds copies of the first k items. */
  ghost predicate Filling(types: Catalog, h: Heap, v: Heap, rank: map<Item, nat>, rank': map<Item, nat>, bound: nat,
                          open: set<Item>, i: Item, c: Item, k: nat)
    requires Linked(h) && Ranked(h, rank) && i in h
  {
    && Linked(v) && Ranked(v, rank') && WeighedBut(v, open + {c}) && Extends(h, v) && SameRank(rank, rank', bound)
    && c in v && c !in h && rank'[c] == rank[i] && v[c].parent == null && v[c].kind == types.KindOf(h[i].kind)
    && v[c].count == h[i].count
    && k <= |h[i].list| && |v[c].list| == k
    && (forall x :: x in h[i].list ==> x in h) && (forall x :: x in v[c].list ==> x in v)
    && SumWeights(v, v[c].list) == SumWeights(h, h[i].list[..k])
    && AlikeUpTo(types, v, h[i].list, v[c].list, k)
  }

  lemma FillNextAlike(types: Catalog, h: Heap, v: Heap, u: Heap, w: Heap, rank: map<Item, nat>, rank1: map<Item, nat>,
                      rank2: map<Item, nat>, bound: nat,
                      open: set<Item>, i: Item, c: Item, k: nat, y: Item)
    requires Linked(h) && Ranked(h, rank) && i in h && Filling(types, h, v, rank, rank1, bound, open, i, c, k)
             && k < |h[i].list|
    requires Linked(u) && Ranked(u, rank2) && Extends(v, u) && SameRank(rank1, rank2, bound)
    requires i in v && v[i] == h[i] && u[i] == v[i] && c in u && u[c] == v[c]
    requires y in u && y !in v && rank2[y] > rank[i] && h[i].list[k] in h
             && forall n: nat :: Alike(types, u, h[i].list[k], y, n)
    requires w == Attached(u, c, y, u[c].list + [y])
    ensures AlikeUpTo(types, w, h[i].list, w[c].list, k + 1)
  {
    ExtendedAbove(v, u, rank1);
    AlikeUpToStays(types, v, u, rank1, -1, i, c, k);
    assert rank1[i] == rank[i] && rank2[i] == rank[i] && rank1[c] == rank[i] && rank2[c] == rank[i];
    assert SameAbove(u, w, rank2, rank[i]);
    AlikeUpToStays(types, u, w, rank2, rank[i], i, c, k);
    ChildBelow(h, rank, i, k, h[i].list[k]);
    assert rank2[h[i].list[k]] == rank1[h[i].list[k]] == rank[h[i].list[k]];
    forall m, n: nat | 0 <= m < k + 1
      ensures Alike(types, w, h[i].list[m], w[c].list[m], n)
    {
      if m == k {
        AlikeStays(types, u, w, rank2, rank[i], h[i].list[k], y, n);
      } else {
        assert Alike(types, w, h[i].list[m], u[c].list[m], n);
      }
    }
  }

  lemma FillNext(types: Catalog, h: Heap, v: Heap, u: Heap, w: Heap, rank: map<Item, nat>, rank1: map<Item, nat>,
                 rank2: map<Item, nat>, bound: nat,
                 open: set<Item>, i: Item, c: Item, k: nat, y: Item)
    requires Linked(h) && Ranked(h, rank) && i in h && Filling(types, h, v, rank, rank1, bound, open, i, c, k)
             && k < |h[i].list| && c.isContainer
    requires Linked(u) && Ranked(u, rank2) && WeighedBut(u, open + {c}) && Extends(v, u)
             && SameRank(rank1, rank2, bound)
    requires y in u && y !in v && u[y].parent == null && rank2[y] > rank[i]
    requires h[i].list[k] in h && WeightOf(u, y) == WeightOf(h, h[i].list[k])
    requires forall n: nat :: Alike(types, u, h[i].list[k], y, n)
    requires w == Attached(u, c, y, u[c].list + [y])
    ensures Filling(types, h, w, rank, rank2, bound, open, i, c, k + 1)
  {
    assert u[c] == v[c] && u[i] == v[i] == h[i];
    FillNextAlike(types, h, v, u, w, rank, rank1, rank2, bound, open, i, c, k, y);
    BackFilled(u, rank2, open + {c}, c, y, w);
    SumExtended(v, u, v[c].list);
    SumNext(h, h[i].list, k);
    forall j | j in h
      ensures j in w && w[j] == h[j]
    {
      assert j in v && u[j] == v[j];
    }
    forall j | j in rank
      ensures j in rank2 && rank2[j] == rank[j]
    {
      assert j in rank1;
    }
  }

  /** The copy is a new tree with the same weight at every depth; nothing that was there changes.  `open` are the
      copies further up that are still being filled. */
  method Clone(types: Catalog, i: Item, ghost items: set<Item>, ghost rank: map<Item, nat>, ghost bound: nat,
               ghost open: set<Item>)
    returns (c: Item, ghost items': set<Item>, ghost rank': map<Item, nat>)
    requires i in items && Linked(View(items)) && Ranked(View(items), rank) && WeighedBut(View(items), open)
    requires SameRank(rank, rank, bound) && open <= items && forall o :: o in open ==> rank[o] < rank[i]
    ensures fresh(items' - items) && c in items' - items && items <= items'
    ensures Extends(old(View(items)), View(items'))
    ensures Linked(View(items')) && Ranked(View(items'), rank') && WeighedBut(View(items'), open)
    ensures SameRank(rank, rank', bound) && rank'[c] == rank[i]
    ensures c.kind == types.KindOf(i.kind) && c.count == i.count && c.parent == null
    ensures c.kind.attributes == i.kind.attributes && c.kind.baseWeight == i.kind.baseWeight
            && c.kind.stackable == i.kind.stackable
    ensures c.totalWeight == i.totalWeight && c.GetWeight() == i.GetWeight()
    ensures forall n: nat :: Alike(types, View(items'), i, c, n)
    decreases bound - rank[i], 4
  {
    ghost var h := View(items);
    ghost var items1, rank1;
    c, items1, rank1 := NewCopy(types, i, items, rank, bound, open, h);
    items', rank' := FillUp(types, i, c, items, rank, bound, open, h, items1, rank1);
    forall x | x in items' - items
      ensures fresh(x)
    {
      assert x == c || x in items' - items1;
    }
    SameOwnWeight(types, h[i].kind, h[i].count);
  }

  /** The copy gets its contents and its weight. */
  method FillUp(types: Catalog, i: Item, c: Item, ghost items: set<Item>, ghost rank: map<Item, nat>,
                ghost bound: nat, ghost open: set<Item>,
                ghost h: Heap, ghost items1: set<Item>, ghost rank1: map<Item, nat>)
    returns (ghost items2: set<Item>, ghost rank2: map<Item, nat>)
    requires i in items && items1 == items + {c} && c !in items && View(items) == h && Linked(h) && Ranked(h, rank)
    requires WeighedBut(h, open) && SameRank(rank, rank, bound) && open <= items && forall o :: o in open ==>
             rank[o] < rank[i]
    requires Built(types, h[i].kind, i, c) && Filling(types, h, View(items1), rank, rank1, bound, open, i, c, 0)
    modifies c`itemlist, c`totalWeight
    ensures items1 <= items2 && fresh(items2 - items1)
    ensures var w := View(items2);
            && Extends(h, w) && Linked(w) && Ranked(w, rank2) && WeighedBut(w, open) && SameRank(rank, rank2, bound)
            && rank2[c] == rank[i] && w[c].kind == types.KindOf(h[i].kind) && w[c].count == h[i].count
            && w[c].parent == null
            && w[c].total == h[i].total && forall n: nat :: Alike(types, w, i, c, n)
    decreases bound - rank[i], 3
  {
    assert LinkedAt(h, i);
    items2, rank2 := Fill(types, i, c, items, rank, bound, open, h, items1, rank1);
    ghost var full := View(items2);
    SetTotal(c, i.totalWeight, items2);
    FilledUp(types, h, full, rank, rank2, bound, open, i, c, View(items2));
  }

  method Append(c: Item, y: Item, ghost items: set<Item>, ghost u: Heap)
    requires c in items && y in items && y != c && u == View(items)
    modifies c`itemlist, y`parent
    ensures View(items) == Attached(u, c, y, u[c].list + [y])
  {
    c.AddItem(y, items);
  }

  method SetTotal(c: Item, total: int, ghost items: set<Item>)
    requires c in items
    modifies c`totalWeight
    ensures View(items) == old(View(items))[c := old(View(items))[c].(total := total)]
  {
    c.totalWeight := total;
  }

  /** Everything in the container is copied into the copy, in the same order. */
  method Fill(types: Catalog, i: Item, c: Item, ghost items: set<Item>, ghost rank: map<Item, nat>, ghost bound: nat,
              ghost open: set<Item>,
              ghost h: Heap, ghost items1: set<Item>, ghost rank1: map<Item, nat>)
    returns (ghost items2: set<Item>, ghost rank2: map<Item, nat>)
    requires i in items && items <= items1 && View(items) == h && Linked(h) && Ranked(h, rank) && c in items1 - items
    requires c.isContainer == i.isContainer && SameRank(rank, rank, bound) && open <= items
             && forall o :: o in open ==> rank[o] < rank[i]
    requires Filling(types, h, View(items1), rank, rank1, bound, open, i, c, 0)
    modifies c`itemlist
    ensures items1 <= items2 && fresh(items2 - items1)
            && Filling(types, h, View(items2), rank, rank2, bound, open, i, c, |h[i].list|)
    decreases bound - rank[i], 2
  {
    assert LinkedAt(h, i);
    items2, rank2 := items1, rank1;
    for k := 0 to |i.itemlist|
      invariant i.itemlist == h[i].list && View(items) == h
      invariant items1 <= items2 && fresh(items2 - items1)
      invariant Filling(types, h, View(items2), rank, rank2, bound, open, i, c, k)
    {
      items2, rank2 := FillOne(types, i, c, k, items, rank, bound, open, h, items2, rank2);
    }
  }

  lemma FilledUp(types: Catalog, h: Heap, v: Heap, rank: map<Item, nat>, rank': map<Item, nat>, bound: nat,
                 open: set<Item>, i: Item, c: Item, w: Heap)
    requires Linked(h) && Ranked(h, rank) && i in h && i !in open && WeighedBut(h, open)
    requires Filling(types, h, v, rank, rank', bound, open, i, c, |h[i].list|)
             && w == v[c := v[c].(total := h[i].total)]
    requires Built(types, h[i].kind, i, c)
    ensures Linked(w) && Ranked(w, rank') && WeighedBut(w, open) && Extends(h, w) && |w[c].list| == |h[i].list|
    ensures forall n: nat :: Alike(types, w, i, c, n)
  {
    assert i in v && v[i] == h[i] && rank'[i] == rank[i];
    assert SameAbove(v, w, rank', -1);
    AlikeUpToStays(types, v, w, rank', -1, i, c, |h[i].list|);
    forall n: nat
      ensures Alike(types, w, i, c, n)
    {
      forall k | 0 <= k < |h[i].list|
        ensures n > 0 ==> Alike(types, w, w[i].list[k], w[c].list[k], n - 1)
      {
        if n > 0 {
          assert Alike(types, w, h[i].list[k], v[c].list[k], n - 1);
        }
      }
    }
    assert WeighedAt(h, i);
    assert h[i].list[..|h[i].list|] == h[i].list;
    Filled(v, rank', open, c, h[i].total, w);
  }

  /** An empty copy. */
  method NewCopy(types: Catalog, i: Item, ghost items: set<Item>, ghost rank: map<Item, nat>, ghost bound: nat,
                 ghost open: set<Item>, ghost h: Heap)
    returns (c: Item, ghost items': set<Item>, ghost rank': map<Item, nat>)
    requires i in items && View(items) == h && Linked(h) && Ranked(h, rank) && WeighedBut(h, open)
             && SameRank(rank, rank, bound)
    ensures fresh(c) && items' == items + {c} && Filling(types, h, View(items'), rank, rank', bound, open, i, c, 0)
    ensures Built(types, h[i].kind, i, c)
  {
    assert LinkedAt(h, i);
    c := new Item(types.KindOf(i.kind), i.count, i.isContainer, types.sizeOf(i.kind), true, types.paged(i.kind));
    items', rank' := items + {c}, rank[c := rank[i]];
    assert View(items') == h[c := Fields(null, [], 0, types.KindOf(i.kind), i.count)];
    LeafAdded(h, rank, open + {c}, c, rank[i], types.KindOf(i.kind), i.count, View(items'));
  }

  /** One more item is copied into the copy. */
  method FillOne(types: Catalog, i: Item, c: Item, k: nat, ghost items: set<Item>, ghost rank: map<Item, nat>,
                 ghost bound: nat, ghost open: set<Item>,
                 ghost h: Heap, ghost items1: set<Item>, ghost rank1: map<Item, nat>)
    returns (ghost items2: set<Item>, ghost rank2: map<Item, nat>)
    requires i in items && items <= items1 && View(items) == h && Linked(h) && Ranked(h, rank) && c in items1 - items
             && c.isContainer
    requires k < |h[i].list| && SameRank(rank, rank, bound) && open <= items && forall o :: o in open ==>
             rank[o] < rank[i]
    requires Filling(types, h, View(items1), rank, rank1, bound, open, i, c, k)
    modifies c`itemlist
    ensures items1 <= items2 && fresh(items2 - items1)
            && Filling(types, h, View(items2), rank, rank2, bound, open, i, c, k + 1)
    decreases bound - rank[i], 1
  {
    ghost var v := View(items1);
    var y;
    y, items2, rank2 := CopyChild(types, i, c, k, items, rank, bound, open, h, items1, rank1, v);
    ghost var u := View(items2);
    Append(c, y, items2, u);
    FillNext(types, h, v, u, View(items2), rank, rank1, rank2, bound, open, i, c, k, y);
  }

  method CopyChild(types: Catalog, i: Item, c: Item, k: nat, ghost items: set<Item>, ghost rank: map<Item, nat>,
                   ghost bound: nat, ghost open: set<Item>,
                   ghost h: Heap, ghost items1: set<Item>, ghost rank1: map<Item, nat>, ghost v: Heap)
    returns (y: Item, ghost items2: set<Item>, ghost rank2: map<Item, nat>)
    requires i in items && items <= items1 && View(items) == h && Linked(h) && Ranked(h, rank) && c in items1 - items
    requires k < |h[i].list| && open <= items && forall o :: o in open ==> rank[o] < rank[i]
    requires v == View(items1) && Filling(types, h, v, rank, rank1, bound, open, i, c, k)
    ensures items1 <= items2 && fresh(items2 - items1) && y in items2 - items1
    ensures var u := View(items2);
            && Linked(u) && Ranked(u, rank2) && WeighedBut(u, open + {c}) && Extends(v, u)
            && SameRank(rank1, rank2, bound)
            && u[y].parent == null && rank2[y] > rank[i]
            && h[i].list[k] in h && WeightOf(u, y) == WeightOf(h, h[i].list[k])
            && forall n: nat :: Alike(types, u, h[i].list[k], y, n)
    decreases bound - rank[i], 0
  {
    var x := i.itemlist[k];
    ChildBelow(h, rank, i, k, x);
    y, items2, rank2 := Clone(types, x, items1, rank1, bound, open + {c});
  }
}
