/** Items and containers (src/item.h, src/container.h, src/container.cpp): a mutable tree with parent
    pointers and a cached weight in every container.

    The objects are real objects.  To reason about them, `View` takes a snapshot of all fields of a set
    of items as a map, and everything that is proved is proved about such snapshots. */
module Containers {

  /** What the item type table and the attributes say: items with the same kind are `equals`. */
  datatype Kind = Kind(id: nat, attributes: nat, baseWeight: nat, stackable: bool, pickupable: bool, moveable: bool)

  const MAX_STACK := 100

  /** Base weight times the count, at least once. */
  function OwnWeight(kind: Kind, count: int): int
    decreases if count < 0 then 0 else count
  {
    if kind.stackable && count > 1 then OwnWeight(kind, count - 1) + kind.baseWeight else kind.baseWeight
  }

  lemma {:induction false} OwnWeightIsProduct(kind: Kind, count: int)
    ensures OwnWeight(kind, count) == kind.baseWeight * if kind.stackable && count > 1 then count else 1
    decreases if count < 0 then 0 else count
  {
    if kind.stackable && count > 1 {
      OwnWeightIsProduct(kind, count - 1);
    }
  }

  class Item {
    const isContainer: bool
    const capacity: nat
    const unlocked: bool
    const pagination: bool
    var kind: Kind
    var count: int
    var parent: Item?
    var itemlist: seq<Item>
    var totalWeight: int

    constructor (kind: Kind, count: int, isContainer: bool, capacity: nat, unlocked: bool, pagination: bool)
      ensures this.kind == kind && this.count == count && parent == null && itemlist == [] && totalWeight == 0
      ensures this.isContainer == isContainer && this.capacity == capacity && this.unlocked == unlocked
              && this.pagination == pagination
    {
      this.kind, this.count, parent, itemlist, totalWeight := kind, count, null, [], 0;
      this.isContainer, this.capacity, this.unlocked, this.pagination := isContainer, capacity, unlocked, pagination;
    }

    function GetFields(): Fields
      reads this
    {
      Fields(parent, itemlist, totalWeight, kind, count)
    }

    function GetWeight(): int
      reads this
    {
      OwnWeight(kind, count) + totalWeight
    }

    method GainWeight(diff: int, ghost items: set<Item>)
      requires this in items
      modifies this`totalWeight
      ensures View(items) == Heavier(old(View(items)), this, diff)
    {
      totalWeight := totalWeight + diff;
    }

    /** The difference goes to this container and, up the parent chain, to every container around it. */
    method UpdateItemWeight(diff: int, ghost items: set<Item>, ghost rank: map<Item, nat>)
      requires this in items && Ranked(View(items), rank)
      modifies items`totalWeight
      ensures View(items) == Reweighed(old(View(items)), rank, this, diff)
    {
      ghost var h := View(items);
      ReweighedStep(h, rank, this, diff);
      GainWeight(diff, items);
      var parentContainer := parent;
      while parentContainer != null
        invariant Ranked(View(items), rank)
        invariant parentContainer != null ==> parentContainer in items
        invariant Reweighed(h, rank, this, diff) ==
                  if parentContainer == null then View(items) else Reweighed(View(items), rank, parentContainer, diff)
        decreases if parentContainer == null then 0 else rank[parentContainer] + 1
      {
        ReweighedStep(View(items), rank, parentContainer, diff);
        parentContainer.GainWeight(diff, items);
        parentContainer := parentContainer.parent;
      }
    }

    method GetThingIndex(x: Item) returns (index: int)
      ensures x !in itemlist ==> index == -1
      ensures x in itemlist ==> 0 <= index < |itemlist| && itemlist[index] == x && x !in itemlist[..index]
    {
      index := 0;
      while index < |itemlist|
        invariant 0 <= index <= |itemlist|
        invariant x !in itemlist[..index]
      {
        if itemlist[index] == x {
          return;
        }
        index := index + 1;
      }
      return -1;
    }

    function GetItemByIndex(index: int): Item?
      reads this
    {
      if 0 <= index < |itemlist| then itemlist[index] else null
    }

    /** x becomes the first item of this container. */
    method LinkFront(x: Item, ghost items: set<Item>)
      requires this in items && x in items && x != this
      modifies this`itemlist, x`parent
      ensures View(items) == Attached(old(View(items)), this, x, [x] + old(itemlist))
    {
      x.parent := this;
      itemlist := [x] + itemlist;
    }

    /** x goes to the front of this container, whatever the index, unless the index lies beyond the
        capacity: then nothing happens. */
    method AddThing(index: int, x: Item, ghost items: set<Item>, ghost rank: map<Item, nat>)
      returns (ghost rank': map<Item, nat>)
      requires Good(View(items), rank) && this in items && x in items
      requires isContainer && x.parent == null && !Under(View(items), rank, this, x)
      modifies items
      ensures Good(View(items), rank')
      ensures index >= capacity ==> View(items) == old(View(items)) && rank' == rank
      ensures index < capacity ==> SameButWeights(Attached(old(View(items)), this, x, [x] + old(itemlist)), View(items))
    {
      if index >= capacity {
        return rank;
      }
      rank' := InternalAddThing(x, items, rank);
    }

    method InternalAddThing(x: Item, ghost items: set<Item>, ghost rank: map<Item, nat>)
      returns (ghost rank': map<Item, nat>)
      requires Good(View(items), rank) && this in items && x in items
      requires isContainer && x.parent == null && !Under(View(items), rank, this, x)
      modifies items
      ensures Good(View(items), rank')
      ensures SameButWeights(Attached(old(View(items)), this, x, [x] + old(itemlist)), View(items))
    {
      ghost var h := View(items);
      rank' := FrontAttachable(h, rank, this, x);
      LinkFront(x, items);
      ghost var h1 := View(items);
      var weight := x.GetWeight();
      UpdateItemWeight(weight, items, rank');
      ReweighedIsGood(h1, rank', this, weight, View(items));
    }

    /** x goes to the back of this container. */
    method AddItemBack(x: Item, ghost items: set<Item>, ghost rank: map<Item, nat>)
      returns (ghost rank': map<Item, nat>)
      requires Good(View(items), rank) && this in items && x in items
      requires isContainer && x.parent == null && !Under(View(items), rank, this, x)
      modifies items
      ensures Good(View(items), rank')
      ensures SameButWeights(Attached(old(View(items)), this, x, old(itemlist) + [x]), View(items))
    {
      ghost var h := View(items);
      rank' := BackAttachable(h, rank, this, x);
      AddItem(x, items);
      ghost var h1 := View(items);
      var weight := x.GetWeight();
      UpdateItemWeight(weight, items, rank');
      ReweighedIsGood(h1, rank', this, weight, View(items));
    }

    method AddItem(x: Item, ghost items: set<Item>)
      requires this in items && x in items && x != this
      modifies this`itemlist, x`parent
      ensures View(items) == Attached(old(View(items)), this, x, old(itemlist) + [x])
    {
      itemlist := itemlist + [x];
      x.parent := this;
    }

    /** x changes its kind and count in place. */
    method UpdateThing(x: Item, kind': Kind, count': int, ghost items: set<Item>, ghost rank: map<Item, nat>)
      requires Good(View(items), rank) && this in items && x in items
      modifies items
      ensures Good(View(items), rank)
      ensures x !in old(itemlist) ==> View(items) == old(View(items))
      ensures x in old(itemlist) ==> SameButWeights(Changed(old(View(items)), x, kind', count'), View(items))
    {
      var index := GetThingIndex(x);
      if index == -1 {
        return;
      }
      ghost var h := View(items);
      var oldWeight := x.GetWeight();
      x.SetKindAndCount(kind', count', items);
      ChangedOffBy(h, rank, this, x, kind', count');
      ghost var h1 := View(items);
      var diff := -oldWeight + x.GetWeight();
      UpdateItemWeight(diff, items, rank);
      ReweighedIsGood(h1, rank, this, diff, View(items));
    }

    method SetKindAndCount(kind': Kind, count': int, ghost items: set<Item>)
      requires this in items
      modifies this`kind, this`count
      ensures View(items) == Changed(old(View(items)), this, kind', count')
    {
      kind := kind';
      count := count';
    }

    /** Part of a stack is taken off it in place; anything else leaves the container as a whole. */
    method RemoveThing(x: Item, count': nat, ghost items: set<Item>, ghost rank: map<Item, nat>)
      requires Good(View(items), rank) && this in items && x in items
      modifies items
      ensures Good(View(items), rank)
      ensures x !in old(itemlist) ==> View(items) == old(View(items))
      ensures x in old(itemlist) && old(x.kind.stackable) && count' != old(x.count) ==>
                SameButWeights(Changed(old(View(items)), x, old(x.kind), Max(0, old(x.count) - count')), View(items))
      ensures x in old(itemlist) && !(old(x.kind.stackable) && count' != old(x.count)) ==>
                SameButWeights(Detached(old(View(items)), this, x, Without(old(itemlist), x)), View(items))
    {
      var index := GetThingIndex(x);
      if index == -1 {
        return;
      }
      if x.kind.stackable && count' != x.count {
        UpdateThing(x, x.kind, Max(0, x.count - count'), items, rank);
      } else {
        TakeOut(x, index, items, rank);
      }
    }

    method TakeOut(x: Item, index: nat, ghost items: set<Item>, ghost rank: map<Item, nat>)
      requires Good(View(items), rank) && this in items && x in items
      requires index < |itemlist| && itemlist[index] == x && x !in itemlist[..index]
      modifies items
      ensures Good(View(items), rank)
      ensures SameButWeights(Detached(old(View(items)), this, x, Without(old(itemlist), x)), View(items))
    {
      ghost var h := View(items);
      ghost var front, back := itemlist[..index], itemlist[index + 1..];
      assert LinkedAt(h, this);
      NotUnderOwnItem(h, rank, this, x);
      WithoutAt(itemlist, x, index);
      assert itemlist == front + [x] + back;
      var diff := -x.GetWeight();
      UpdateItemWeight(diff, items, rank);
      ghost var h1 := View(items);
      assert itemlist == h1[this].list == h[this].list;
      Unlink(x, index, items);
      RemovedIsGood(h, rank, this, x, front, back, diff, h1, View(items));
    }

    /** The item at the index gives way to x. */
    method ReplaceThing(index: int, x: Item, ghost items: set<Item>, ghost rank: map<Item, nat>)
      returns (ghost rank': map<Item, nat>)
      requires Good(View(items), rank) && this in items && x in items
      requires isContainer && x.parent == null && !Under(View(items), rank, this, x)
      modifies items
      ensures Good(View(items), rank')
      ensures !(0 <= index < |old(itemlist)|) ==> View(items) == old(View(items)) && rank' == rank
      ensures 0 <= index < |old(itemlist)| ==>
                SameButWeights(Replaced(old(View(items)), this, old(itemlist)[index], x, old(itemlist)[index := x]),
                    View(items))
    {
      var replacedItem := GetItemByIndex(index);
      if replacedItem == null {
        return rank;
      }
      ghost var h := View(items);
      assert LinkedAt(h, this);
      ghost var list := itemlist[index := x];
      PutInPlace(index, x, items);
      ghost var h1 := View(items);
      var diff := -replacedItem.GetWeight() + x.GetWeight();
      rank' := ReplacedOffBy(h, rank, this, index, x, h1);
      UpdateItemWeight(diff, items, rank');
      ghost var h2 := View(items);
      replacedItem.Orphan(items);
      ReplacedIsGood(h, rank', this, replacedItem, x, list, diff, h1, h2, View(items));
    }

    method PutInPlace(index: nat, x: Item, ghost items: set<Item>)
      requires this in items && x in items && x != this && index < |itemlist|
      modifies this`itemlist, x`parent
      ensures View(items) == Attached(old(View(items)), this, x, old(itemlist)[index := x])
    {
      itemlist := itemlist[index := x];
      x.parent := this;
    }

    method Orphan(ghost items: set<Item>)
      requires this in items
      modifies this`parent
      ensures View(items) == old(View(items))[this := old(View(items))[this].(parent := null)]
    {
      parent := null;
    }

    method Unlink(x: Item, index: nat, ghost items: set<Item>)
      requires this in items && x in items && x != this && index < |itemlist|
      modifies this`itemlist, x`parent
      ensures View(items) == Detached(old(View(items)), this, x, old(itemlist)[..index] + old(itemlist)[index + 1..])
    {
      x.parent := null;
      itemlist := itemlist[..index] + itemlist[index + 1..];
    }
  }

  datatype Fields = Fields(parent: Item?, list: seq<Item>, total: int, kind: Kind, count: int)

  type Heap = map<Item, Fields>

  ghost function View(items: set<Item>): (h: Heap)
    reads items
    ensures h.Keys == items
  {
    map i | i in items :: i.GetFields()
  }

  // The tree.

  predicate NoDuplicates(list: seq<Item>) {
    forall i, j :: 0 <= i < j < |list| ==> list[i] != list[j]
  }

  ghost predicate LinkedAt(h: Heap, i: Item)
    requires i in h
  {
    && (h[i].parent != null ==> h[i].parent in h && h[i].parent.isContainer && i in h[h[i].parent].list)
    && (forall x :: x in h[i].list ==> x in h && h[x].parent == i)
    && NoDuplicates(h[i].list)
    && (!i.isContainer ==> h[i].list == [])
  }

  /** Every item is listed exactly once, by the container its parent pointer names. */
  ghost predicate Linked(h: Heap) {
    forall i {:trigger LinkedAt(h, i)} :: i in h ==> LinkedAt(h, i)
  }

  ghost predicate RankedAt(h: Heap, rank: map<Item, nat>, i: Item)
    requires i in h && i in rank
  {
    h[i].parent != null ==> h[i].parent in h && h[i].parent in rank && rank[h[i].parent] < rank[i]
  }

  /** The parent chain of every item goes down in rank, so no container is its own ancestor. */
  ghost predicate Ranked(h: Heap, rank: map<Item, nat>) {
    && rank.Keys == h.Keys
    && (forall i {:trigger RankedAt(h, rank, i)} :: i in h ==> RankedAt(h, rank, i))
  }

  /** The item is `top` or lies somewhere inside it. */
  ghost predicate Under(h: Heap, rank: map<Item, nat>, i: Item, top: Item)
    requires Ranked(h, rank) && i in h
    decreases rank[i]
  {
    assert RankedAt(h, rank, i);
    i == top || (h[i].parent != null && Under(h, rank, h[i].parent, top))
  }

  // The weights.

  function WeightOf(h: Heap, i: Item): int
    requires i in h
  {
    OwnWeight(h[i].kind, h[i].count) + h[i].total
  }

  function SumWeights(h: Heap, list: seq<Item>): int
    requires forall x :: x in list ==> x in h
  {
    if list == [] then 0 else WeightOf(h, list[0]) + SumWeights(h, list[1..])
  }

  ghost predicate WeighedAt(h: Heap, c: Item)
    requires c in h
  {
    (forall x :: x in h[c].list ==> x in h) && h[c].total == SumWeights(h, h[c].list)
  }

  /** Every cached weight is the sum of the weights of the items listed. */
  ghost predicate Weighed(h: Heap) {
    forall c {:trigger WeighedAt(h, c)} :: c in h ==> WeighedAt(h, c)
  }

  lemma {:induction false} SameWeights(h: Heap, h': Heap, list: seq<Item>)
    requires forall x :: x in list ==> x in h && x in h' && WeightOf(h', x) == WeightOf(h, x)
    ensures SumWeights(h', list) == SumWeights(h, list)
  {
    if list != [] {
      SameWeights(h, h', list[1..]);
    }
  }

  /** If one item of the list gained some weight, so did the list. */
  lemma {:induction false} OneHeavier(h: Heap, h': Heap, list: seq<Item>, p: Item, diff: int)
    requires NoDuplicates(list) && p in list
    requires forall x :: x in list ==> x in h && x in h' && WeightOf(h', x) == WeightOf(h, x) + if x == p then diff
             else 0
    ensures SumWeights(h', list) == SumWeights(h, list) + diff
  {
    if list[0] == p {
      assert p !in list[1..];
      SameWeights(h, h', list[1..]);
    } else {
      OneHeavier(h, h', list[1..], p, diff);
    }
  }

  function Heavier(h: Heap, c: Item, diff: int): Heap
    requires c in h
  {
    h[c := h[c].(total := h[c].total + diff)]
  }

  /** What updateItemWeight does: the difference goes to the container and to all its ancestors. */
  ghost function Reweighed(h: Heap, rank: map<Item, nat>, c: Item, diff: int): (h': Heap)
    requires Ranked(h, rank) && c in h
    ensures SameButWeights(h, h') && Ranked(h', rank)
    decreases rank[c]
  {
    assert RankedAt(h, rank, c);
    var h1 := Heavier(h, c, diff);
    SameRanks(h, h1, rank);
    if h[c].parent == null then h1 else Reweighed(h1, rank, h[c].parent, diff)
  }

  lemma ReweighedStep(h: Heap, rank: map<Item, nat>, c: Item, diff: int)
    requires Ranked(h, rank) && c in h
    ensures var h1 := Heavier(h, c, diff);
            Ranked(h1, rank) &&
            if h[c].parent == null then Reweighed(h, rank, c, diff) == h1
            else h[c].parent in h && rank[h[c].parent] < rank[c] &&
                 Reweighed(h, rank, c, diff) == Reweighed(h1, rank, h[c].parent, diff)
  {
    assert RankedAt(h, rank, c);
    SameRanks(h, Heavier(h, c, diff), rank);
  }

  lemma SameRanks(h: Heap, h': Heap, rank: map<Item, nat>)
    requires Ranked(h, rank) && SameButWeights(h, h')
    ensures Ranked(h', rank)
  {
    forall i | i in h'
      ensures RankedAt(h', rank, i)
    {
      assert RankedAt(h, rank, i);
    }
  }

  lemma SameLinks(h: Heap, h': Heap)
    requires Linked(h) && SameButWeights(h, h')
    ensures Linked(h')
  {
    forall i | i in h'
      ensures LinkedAt(h', i)
    {
      assert LinkedAt(h, i);
    }
  }

  lemma ParentHeavier(h: Heap, h1: Heap, c: Item, diff: int, i: Item)
    requires Linked(h) && c in h && i in h && h1 == Heavier(h, c, diff)
    requires forall x :: x in h[i].list ==> x in h
    ensures SumWeights(h1, h1[i].list) == SumWeights(h, h[i].list) + if i == h[c].parent then diff else 0
  {
    assert LinkedAt(h, i) && LinkedAt(h, c);
    if i == h[c].parent {
      OneHeavier(h, h1, h[i].list, c, diff);
    } else {
      assert c !in h[i].list;
      SameWeights(h, h1, h[i].list);
    }
  }

  /** All cached weights but c's are right, and c's is off by diff. */
  ghost predicate OffBy(h: Heap, c: Item, diff: int)
    requires c in h
  {
    && (forall i {:trigger WeighedAt(h, i)} :: i in h && i != c ==> WeighedAt(h, i))
    && (forall x :: x in h[c].list ==> x in h) && h[c].total + diff == SumWeights(h, h[c].list)
  }

  /** If only c's cached weight was off, by diff, all cached weights are right afterwards. */
  lemma {:induction false} ReweighedIsWeighed(h: Heap, rank: map<Item, nat>, c: Item, diff: int)
    requires Linked(h) && Ranked(h, rank) && c in h && OffBy(h, c, diff)
    ensures Linked(Reweighed(h, rank, c, diff)) && Weighed(Reweighed(h, rank, c, diff))
    decreases rank[c]
  {
    assert RankedAt(h, rank, c);
    var h1 := Heavier(h, c, diff);
    SameLinks(h, h1);
    SameRanks(h, h1, rank);
    if h[c].parent == null {
      forall i | i in h1
        ensures WeighedAt(h1, i)
      {
        OffByMoves(h, h1, rank, c, diff, i);
      }
    } else {
      forall i | i in h1 && i != h[c].parent
        ensures WeighedAt(h1, i)
      {
        OffByMoves(h, h1, rank, c, diff, i);
      }
      OffByMoves(h, h1, rank, c, diff, h[c].parent);
      ReweighedIsWeighed(h1, rank, h[c].parent, diff);
    }
  }

  /** Correcting c's weight leaves at most its parent's weight off. */
  lemma OffByMoves(h: Heap, h1: Heap, rank: map<Item, nat>, c: Item, diff: int, i: Item)
    requires Linked(h) && Ranked(h, rank) && c in h && OffBy(h, c, diff) && i in h
    requires h1 == Heavier(h, c, diff)
    ensures forall x :: x in h1[i].list ==> x in h1
    ensures i == h[c].parent ==> h1[i].total + diff == SumWeights(h1, h1[i].list)
    ensures i != h[c].parent ==> WeighedAt(h1, i)
  {
    assert RankedAt(h, rank, c);
    assert i != c ==> WeighedAt(h, i);
    ParentHeavier(h, h1, c, diff, i);
  }

  ghost predicate SameButWeights(h: Heap, h': Heap) {
    h'.Keys == h.Keys && forall i :: i in h ==> h'[i] == h[i].(total := h'[i].total)
  }

  /** The container and its ancestors gain diff; nothing else changes. */
  ghost function AddedWeight(h: Heap, rank: map<Item, nat>, c: Item, diff: int): Heap
    requires Ranked(h, rank) && c in h
  {
    map i | i in h :: h[i].(total := h[i].total + if Under(h, rank, c, i) then diff else 0)
  }

  lemma {:induction false} RootsUnder(h: Heap, rank: map<Item, nat>, c: Item, top: Item)
    requires Ranked(h, rank) && c in h && Under(h, rank, c, top)
    ensures top in h && rank[top] <= rank[c]
    ensures top != c ==> rank[top] < rank[c]
    decreases rank[c]
  {
    assert RankedAt(h, rank, c);
    if c != top {
      RootsUnder(h, rank, h[c].parent, top);
    }
  }

  /** Whether c lies under something depends only on the parents along c's chain. */
  lemma {:induction false} UnderSame(h: Heap, h': Heap, rank: map<Item, nat>, c: Item, top: Item)
    requires Ranked(h, rank) && Ranked(h', rank) && c in h
    requires forall i :: i in h && Under(h, rank, c, i) ==> h'[i].parent == h[i].parent
    ensures Under(h', rank, c, top) == Under(h, rank, c, top)
    decreases rank[c]
  {
    assert RankedAt(h, rank, c) && RankedAt(h', rank, c);
    assert Under(h, rank, c, c);
    if c != top && h[c].parent != null {
      UnderSame(h, h', rank, h[c].parent, top);
    }
  }

  lemma {:induction false} ReweighedAddsWeight(h: Heap, rank: map<Item, nat>, c: Item, diff: int)
    requires Ranked(h, rank) && c in h
    ensures Reweighed(h, rank, c, diff) == AddedWeight(h, rank, c, diff)
    decreases rank[c]
  {
    ReweighedStep(h, rank, c, diff);
    AddedStep(h, rank, c, diff);
    if h[c].parent != null {
      ReweighedAddsWeight(Heavier(h, c, diff), rank, h[c].parent, diff);
    }
  }

  lemma AddedStep(h: Heap, rank: map<Item, nat>, c: Item, diff: int)
    requires Ranked(h, rank) && c in h
    ensures var h1 := Heavier(h, c, diff);
            Ranked(h1, rank) &&
            if h[c].parent == null then AddedWeight(h, rank, c, diff) == h1
            else h[c].parent in h && AddedWeight(h, rank, c, diff) == AddedWeight(h1, rank, h[c].parent, diff)
  {
    assert RankedAt(h, rank, c);
    var h1 := Heavier(h, c, diff);
    SameRanks(h, h1, rank);
    if h[c].parent != null {
      forall i | i in h
        ensures AddedWeight(h, rank, c, diff)[i] == AddedWeight(h1, rank, h[c].parent, diff)[i]
      {
        UnderHeavier(h, rank, c, diff, i);
      }
    }
  }

  lemma UnderHeavier(h: Heap, rank: map<Item, nat>, c: Item, diff: int, i: Item)
    requires Ranked(h, rank) && c in h && h[c].parent != null
    ensures h[c].parent in h && Ranked(Heavier(h, c, diff), rank)
    ensures Under(Heavier(h, c, diff), rank, h[c].parent, i) == (i != c && Under(h, rank, c, i))
  {
    assert RankedAt(h, rank, c);
    var h1 := Heavier(h, c, diff);
    SameRanks(h, h1, rank);
    UnderSame(h, h1, rank, h[c].parent, i);
    if Under(h, rank, h[c].parent, c) {
      RootsUnder(h, rank, h[c].parent, c);
    }
  }

  // Attaching and detaching.

  /** x has been put into c, whose list is now `list`. */
  ghost function Attached(h: Heap, c: Item, x: Item, list: seq<Item>): Heap
    requires c in h && x in h
  {
    map i | i in h :: h[i].(parent := if i == x then c else h[i].parent, list := if i == c then list else h[i].list)
  }

  /** Everything inside x moves down below c's rank. */
  ghost function Shifted(h: Heap, rank: map<Item, nat>, x: Item, shift: nat): map<Item, nat>
    requires Ranked(h, rank)
  {
    map i | i in h :: if Under(h, rank, i, x) then rank[i] + shift else rank[i]
  }

  ghost predicate CanAttach(h: Heap, rank: map<Item, nat>, c: Item, x: Item, list: seq<Item>) {
    && Linked(h) && Ranked(h, rank) && c in h && x in h && c.isContainer
    && h[x].parent == null && !Under(h, rank, c, x)
    && NoDuplicates(list) && x in list
    && (forall y :: y in list ==> y == x || y in h[c].list) && (forall y :: y in h[c].list ==> y in list)
  }

  lemma AttachedLinked(h: Heap, rank: map<Item, nat>, c: Item, x: Item, list: seq<Item>)
    requires CanAttach(h, rank, c, x, list)
    ensures Linked(Attached(h, c, x, list))
  {
    assert x != c;
    var h' := Attached(h, c, x, list);
    forall i | i in h'
      ensures LinkedAt(h', i)
    {
      assert LinkedAt(h, i) && LinkedAt(h, c) && LinkedAt(h, x);
    }
  }

  lemma AttachedRanked(h: Heap, rank: map<Item, nat>, c: Item, x: Item, list: seq<Item>)
    requires CanAttach(h, rank, c, x, list)
    ensures Ranked(Attached(h, c, x, list), Shifted(h, rank, x, rank[c] + 1))
  {
    assert x != c;
    var h', rank' := Attached(h, c, x, list), Shifted(h, rank, x, rank[c] + 1);
    forall i | i in h'
      ensures RankedAt(h', rank', i)
    {
      assert RankedAt(h, rank, i);
      assert Under(h, rank, i, x) <==> i == x || (h[i].parent != null && Under(h, rank, h[i].parent, x));
    }
  }

  lemma SumOfInserted(h: Heap, front: seq<Item>, x: Item, back: seq<Item>)
    requires x in h && (forall y :: y in front ==> y in h) && (forall y :: y in back ==> y in h)
    ensures SumWeights(h, front + [x] + back) == SumWeights(h, front + back) + WeightOf(h, x)
    ensures forall y :: y in front + back ==> y in h
    decreases front
  {
    if front == [] {
      assert [] + [x] + back == [x] + back && [] + back == back;
    } else {
      SumOfInserted(h, front[1..], x, back);
      assert (front + [x] + back)[1..] == front[1..] + [x] + back;
      assert (front + back)[1..] == front[1..] + back;
    }
  }

  /** Attaching puts c's weight off by the weight of what was attached, on top of what it was off by. */
  lemma AttachedOffBy(h: Heap, rank: map<Item, nat>, c: Item, x: Item, front: seq<Item>, back: seq<Item>, diff: int)
    requires CanAttach(h, rank, c, x, front + [x] + back) && OffBy(h, c, diff) && h[c].list == front + back
    ensures OffBy(Attached(h, c, x, front + [x] + back), c, diff + WeightOf(h, x))
  {
    assert x != c;
    var h' := Attached(h, c, x, front + [x] + back);
    forall i | i in h' && i != c
      ensures WeighedAt(h', i)
    {
      assert WeighedAt(h, i);
      SameWeights(h, h', h[i].list);
    }
    SumOfInserted(h, front, x, back);
    SameWeights(h, h', front + [x] + back);
  }

  /** x has been taken out of c, whose list is now `list`. */
  ghost function Detached(h: Heap, c: Item, x: Item, list: seq<Item>): Heap
    requires c in h && x in h
  {
    map i | i in h :: h[i].(parent := if i == x then null else h[i].parent, list := if i == c then list else h[i].list)
  }

  ghost predicate CanDetach(h: Heap, rank: map<Item, nat>, c: Item, x: Item, list: seq<Item>) {
    && Linked(h) && Ranked(h, rank) && c in h && x in h
    && h[x].parent == c
    && NoDuplicates(list)
    && (forall y :: y in list ==> y != x && y in h[c].list) && (forall y :: y in h[c].list && y != x ==> y in list)
  }

  lemma DetachedTree(h: Heap, rank: map<Item, nat>, c: Item, x: Item, list: seq<Item>)
    requires CanDetach(h, rank, c, x, list)
    ensures x != c && Linked(Detached(h, c, x, list)) && Ranked(Detached(h, c, x, list), rank)
  {
    assert RankedAt(h, rank, x);
    var h' := Detached(h, c, x, list);
    forall i | i in h'
      ensures LinkedAt(h', i) && RankedAt(h', rank, i)
    {
      assert LinkedAt(h, i) && LinkedAt(h, c) && LinkedAt(h, x) && RankedAt(h, rank, i);
      if h'[i].parent == c {
        assert i != x && i in h[c].list;
      }
    }
  }

  lemma DetachedOffBy(h: Heap, rank: map<Item, nat>, c: Item, x: Item, front: seq<Item>, back: seq<Item>)
    requires CanDetach(h, rank, c, x, front + back) && Weighed(h) && h[c].list == front + [x] + back
    ensures OffBy(Detached(h, c, x, front + back), c, -WeightOf(h, x))
  {
    assert RankedAt(h, rank, x);
    var h' := Detached(h, c, x, front + back);
    forall i | i in h' && i != c
      ensures WeighedAt(h', i)
    {
      assert WeighedAt(h, i);
      SameWeights(h, h', h[i].list);
    }
    assert WeighedAt(h, c);
    SumOfInserted(h, front, x, back);
    SameWeights(h, h', front + back);
  }

  /** A tree of items with right weights. */
  ghost predicate Good(h: Heap, rank: map<Item, nat>) {
    Linked(h) && Ranked(h, rank) && Weighed(h)
  }

  lemma ReweighedIsGood(h: Heap, rank: map<Item, nat>, c: Item, diff: int, h': Heap)
    requires Linked(h) && Ranked(h, rank) && c in h && OffBy(h, c, diff) && h' == Reweighed(h, rank, c, diff)
    ensures Good(h', rank) && SameButWeights(h, h')
  {
    ReweighedIsWeighed(h, rank, c, diff);
  }

  lemma FrontAttachable(h: Heap, rank: map<Item, nat>, c: Item, x: Item) returns (rank': map<Item, nat>)
    requires Good(h, rank) && c in h && x in h && c.isContainer && h[x].parent == null && !Under(h, rank, c, x)
    ensures CanAttach(h, rank, c, x, [x] + h[c].list)
    ensures rank' == Shifted(h, rank, x, rank[c] + 1)
    ensures var h' := Attached(h, c, x, [x] + h[c].list);
            Linked(h') && Ranked(h', rank') && OffBy(h', c, WeightOf(h, x))
  {
    assert LinkedAt(h, c);
    rank' := Shifted(h, rank, x, rank[c] + 1);
    AttachedLinked(h, rank, c, x, [x] + h[c].list);
    AttachedRanked(h, rank, c, x, [x] + h[c].list);
    assert [] + [x] + h[c].list == [x] + h[c].list && [] + h[c].list == h[c].list;
    assert WeighedAt(h, c);
    AttachedOffBy(h, rank, c, x, [], h[c].list, 0);
  }

  lemma BackAttachable(h: Heap, rank: map<Item, nat>, c: Item, x: Item) returns (rank': map<Item, nat>)
    requires Good(h, rank) && c in h && x in h && c.isContainer && h[x].parent == null && !Under(h, rank, c, x)
    ensures CanAttach(h, rank, c, x, h[c].list + [x])
    ensures rank' == Shifted(h, rank, x, rank[c] + 1)
    ensures var h' := Attached(h, c, x, h[c].list + [x]);
            Linked(h') && Ranked(h', rank') && OffBy(h', c, WeightOf(h, x))
  {
    assert LinkedAt(h, c);
    rank' := Shifted(h, rank, x, rank[c] + 1);
    AttachedLinked(h, rank, c, x, h[c].list + [x]);
    AttachedRanked(h, rank, c, x, h[c].list + [x]);
    assert h[c].list + [x] + [] == h[c].list + [x] && h[c].list + [] == h[c].list;
    assert WeighedAt(h, c);
    AttachedOffBy(h, rank, c, x, h[c].list, [], 0);
  }

  function Max(a: int, b: int): int {
    if a > b then a else b
  }

  function Without(list: seq<Item>, x: Item): seq<Item> {
    if list == [] then [] else if list[0] == x then list[1..] else [list[0]] + Without(list[1..], x)
  }

  lemma {:induction false} WithoutAt(list: seq<Item>, x: Item, index: nat)
    requires index < |list| && list[index] == x && x !in list[..index]
    ensures Without(list, x) == list[..index] + list[index + 1..]
  {
    if index > 0 {
      assert list[0] == list[..index][0];
      assert list[1..][..index - 1] == list[..index][1..];
      WithoutAt(list[1..], x, index - 1);
      assert [list[0]] + list[1..][..index - 1] == list[..index];
      assert list[1..][index..] == list[index + 1..];
    }
  }

  ghost function Changed(h: Heap, x: Item, kind: Kind, count: int): Heap
    requires x in h
  {
    h[x := h[x].(kind := kind, count := count)]
  }

  lemma ChangedOffBy(h: Heap, rank: map<Item, nat>, c: Item, x: Item, kind: Kind, count: int)
    requires Good(h, rank) && c in h && x in h && x in h[c].list
    ensures var h' := Changed(h, x, kind, count);
            Linked(h') && Ranked(h', rank) && OffBy(h', c, WeightOf(h', x) - WeightOf(h, x))
  {
    var h' := Changed(h, x, kind, count);
    forall i | i in h'
      ensures LinkedAt(h', i) && RankedAt(h', rank, i)
    {
      assert LinkedAt(h, i) && RankedAt(h, rank, i);
    }
    forall i | i in h' && i != c
      ensures WeighedAt(h', i)
    {
      assert WeighedAt(h, i) && LinkedAt(h, i) && LinkedAt(h, c);
      SameWeights(h, h', h[i].list);
    }
    assert WeighedAt(h, c) && LinkedAt(h, c);
    OneHeavier(h, h', h[c].list, x, WeightOf(h', x) - WeightOf(h, x));
  }

  /** Taking the weight off before unlinking comes to the same as after. */
  lemma UnlinkCommutes(h: Heap, rank: map<Item, nat>, c: Item, x: Item, list: seq<Item>, diff: int, h1: Heap,
                       cut: Heap, h': Heap)
    requires Ranked(h, rank) && c in h && x in h && h[x].parent == c
    requires h1 == Reweighed(h, rank, c, diff) && h' == Detached(h1, c, x, list)
    requires cut == Detached(h, c, x, list) && Ranked(cut, rank)
    ensures h' == Reweighed(cut, rank, c, diff)
  {
    ReweighedAddsWeight(h, rank, c, diff);
    ReweighedAddsWeight(cut, rank, c, diff);
    NotUnderOwnItem(h, rank, c, x);
    var b := Reweighed(cut, rank, c, diff);
    forall i | i in h
      ensures h'[i] == b[i]
    {
      UnderSame(h, cut, rank, c, i);
    }
  }

  lemma NotUnderOwnItem(h: Heap, rank: map<Item, nat>, c: Item, x: Item)
    requires Ranked(h, rank) && c in h && x in h && h[x].parent == c
    ensures c != x && !Under(h, rank, c, x)
  {
    assert RankedAt(h, rank, x);
    if Under(h, rank, c, x) {
      RootsUnder(h, rank, c, x);
    }
  }

  lemma ListWithout(list: seq<Item>, front: seq<Item>, x: Item, back: seq<Item>)
    requires list == front + [x] + back && NoDuplicates(list)
    ensures NoDuplicates(front + back) && x in list
    ensures forall y :: y in front + back ==> y != x && y in list
    ensures forall y :: y in list && y != x ==> y in front + back
  {
    var rest := front + back;
    forall k | 0 <= k < |rest|
      ensures rest[k] == list[if k < |front| then k else k + 1]
    {
    }
    assert list[|front|] == x;
  }

  lemma RemovedIsGood(h: Heap, rank: map<Item, nat>, c: Item, x: Item, front: seq<Item>, back: seq<Item>, diff: int,
                      h1: Heap, h': Heap)
    requires Good(h, rank) && c in h && x in h && h[c].list == front + [x] + back && diff == -WeightOf(h, x)
    requires h1 == Reweighed(h, rank, c, diff)
    requires h' == Detached(h1, c, x, front + back)
    ensures Good(h', rank) && SameButWeights(Detached(h, c, x, front + back), h')
  {
    assert LinkedAt(h, c);
    ListWithout(h[c].list, front, x, back);
    var list := front + back;
    var cut := Detached(h, c, x, list);
    DetachedTree(h, rank, c, x, list);
    DetachedOffBy(h, rank, c, x, front, back);
    UnlinkCommutes(h, rank, c, x, list, diff, h1, cut, h');
    ReweighedIsGood(cut, rank, c, diff, h');
  }

  /** y has left c and x has taken its place in the list. */
  ghost function Replaced(h: Heap, c: Item, y: Item, x: Item, list: seq<Item>): Heap {
    map i | i in h :: h[i].(parent := if i == y then null else if i == x then c else h[i].parent,
                            list := if i == c then list else h[i].list)
  }

  lemma ReplacedOffBy(h: Heap, rank: map<Item, nat>, c: Item, index: nat, x: Item, h1: Heap)
    returns (rank': map<Item, nat>)
    requires Good(h, rank) && c in h && x in h && c.isContainer && h[x].parent == null && !Under(h, rank, c, x)
    requires index < |h[c].list| && h1 == Attached(h, c, x, h[c].list[index := x])
    ensures var y := h[c].list[index];
            var cut := Replaced(h, c, y, x, h[c].list[index := x]);
            && y in h && y != c && y != x && h[y].parent == c
            && Ranked(h1, rank') && Linked(cut) && Ranked(cut, rank')
            && OffBy(cut, c, -WeightOf(h, y) + WeightOf(h, x))
  {
    var list, y := h[c].list, h[c].list[index];
    var front, back := list[..index], list[index + 1..];
    var d := OldOutOffBy(h, rank, c, y, x, front, back);
    ListWith(list, front, y, back, x);
    var cut := NewInOffBy(d, rank, c, x, front, back, -WeightOf(h, y));
    rank' := Shifted(d, rank, x, rank[c] + 1);
    assert cut == Replaced(h, c, y, x, list[index := x]);
    ReplacedRanks(h, rank, c, y, x, d, h1, rank');
  }

  lemma OldOutOffBy(h: Heap, rank: map<Item, nat>, c: Item, y: Item, x: Item, front: seq<Item>, back: seq<Item>)
    returns (d: Heap)
    requires Good(h, rank) && c in h && x in h && h[x].parent == null && !Under(h, rank, c, x)
             && h[c].list == front + [y] + back
    ensures y in h && d == Detached(h, c, y, front + back) && y != c && y != x && h[y].parent == c && x !in h[c].list
    ensures Linked(d) && Ranked(d, rank) && OffBy(d, c, -WeightOf(h, y)) && !Under(d, rank, c, x)
            && NoDuplicates(front + back)
    ensures WeightOf(d, x) == WeightOf(h, x)
  {
    assert LinkedAt(h, c);
    assert h[c].list[|front|] == y;
    NotUnderOwnItem(h, rank, c, y);
    ListWithout(h[c].list, front, y, back);
    d := Detached(h, c, y, front + back);
    DetachedTree(h, rank, c, y, front + back);
    DetachedOffBy(h, rank, c, y, front, back);
    UnderSame(h, d, rank, c, x);
  }

  lemma NewInOffBy(d: Heap, rank: map<Item, nat>, c: Item, x: Item, front: seq<Item>, back: seq<Item>, diff: int)
    returns (cut: Heap)
    requires c in d && x in d && CanAttach(d, rank, c, x, front + [x] + back) && OffBy(d, c, diff)
             && d[c].list == front + back
    ensures cut == Attached(d, c, x, front + [x] + back)
    ensures Linked(cut) && Ranked(cut, Shifted(d, rank, x, rank[c] + 1)) && OffBy(cut, c, diff + WeightOf(d, x))
  {
    cut := Attached(d, c, x, front + [x] + back);
    AttachedLinked(d, rank, c, x, front + [x] + back);
    AttachedRanked(d, rank, c, x, front + [x] + back);
    AttachedOffBy(d, rank, c, x, front, back, diff);
  }

  lemma ReplacedIsGood(h: Heap, rank: map<Item, nat>, c: Item, y: Item, x: Item, list: seq<Item>, diff: int, h1: Heap,
                       h2: Heap, h': Heap)
    requires c in h && x in h && y in h && y != x && h[y].parent == c && h1 == Attached(h, c, x, list)
             && Ranked(h1, rank)
    requires h2 == Reweighed(h1, rank, c, diff) && h' == h2[y := h2[y].(parent := null)]
    requires var cut := Replaced(h, c, y, x, list); Linked(cut) && Ranked(cut, rank) && OffBy(cut, c, diff)
    ensures Good(h', rank) && SameButWeights(Replaced(h, c, y, x, list), h')
  {
    var cut := Replaced(h, c, y, x, list);
    assert h' == Detached(h2, c, y, list);
    assert cut == Detached(h1, c, y, list);
    UnlinkCommutes(h1, rank, c, y, list, diff, h2, cut, h');
    ReweighedIsGood(cut, rank, c, diff, h');
  }

  lemma ListWith(list: seq<Item>, front: seq<Item>, y: Item, back: seq<Item>, x: Item)
    requires list == front + [y] + back && NoDuplicates(front + back) && x !in list
    ensures NoDuplicates(front + [x] + back) && front + [x] + back == list[|front| := x]
    ensures forall z :: z in front + [x] + back ==> z == x || z in front + back
    ensures forall z :: z in front + back ==> z in front + [x] + back
    ensures x in front + [x] + back
  {
    var l, r := front + [x] + back, front + back;
    assert l[|front|] == x;
    forall k | 0 <= k < |l| && k != |front|
      ensures l[k] == r[if k < |front| then k else k - 1] && l[k] == list[k]
    {
    }
  }

  /** The old occupant still points to c while the weights are brought up to date; the ranks bear it. */
  lemma ReplacedRanks(h: Heap, rank: map<Item, nat>, c: Item, y: Item, x: Item, d: Heap, h1: Heap,
                      rank': map<Item, nat>)
    requires Ranked(h, rank) && Ranked(d, rank) && c in h && y in h && x in h && y != c && y != x && x != c
    requires h[y].parent == c && h[x].parent == null && !Under(d, rank, c, x) && d.Keys == h.Keys == h1.Keys
    requires forall i :: i in h ==> d[i].parent == if i == y then null else h[i].parent
    requires forall i :: i in h ==> h1[i].parent == if i == x then c else h[i].parent
    requires rank' == Shifted(d, rank, x, rank[c] + 1)
    ensures Ranked(h1, rank')
  {
    forall i | i in h1
      ensures RankedAt(h1, rank', i)
    {
      assert RankedAt(h, rank, i) && RankedAt(d, rank, i);
      assert Under(d, rank, i, x) <==> i == x || (d[i].parent != null && Under(d, rank, d[i].parent, x));
    }
  }

  // The cached weights against the recursive ones.

  /** An item's own weight and, recursively, that of everything inside it.  Ranks grow inwards and stay
      below `bound`. */
  ghost function DeepWeight(h: Heap, rank: map<Item, nat>, bound: nat, i: Item): int
    requires Linked(h) && Ranked(h, rank) && i in h && forall j :: j in rank ==> rank[j] <= bound
    decreases bound - rank[i], 1, 0
  {
    assert LinkedAt(h, i);
    OwnWeight(h[i].kind, h[i].count) + DeepWeights(h, rank, bound, i, h[i].list)
  }

  ghost function DeepWeights(h: Heap, rank: map<Item, nat>, bound: nat, c: Item, list: seq<Item>): int
    requires Linked(h) && Ranked(h, rank) && c in h && forall j :: j in rank ==> rank[j] <= bound
    requires forall x :: x in list ==> x in h && h[x].parent == c
    decreases bound - rank[c], 0, |list|
  {
    if list == [] then 0
    else
      assert RankedAt(h, rank, list[0]);
      DeepWeight(h, rank, bound, list[0]) + DeepWeights(h, rank, bound, c, list[1..])
  }

  /** In a good tree the cached weight of everything is its recursive weight, at every depth. */
  lemma {:induction false} CachedIsDeep(h: Heap, rank: map<Item, nat>, bound: nat, i: Item)
    requires Good(h, rank) && i in h && forall j :: j in rank ==> rank[j] <= bound
    ensures WeightOf(h, i) == DeepWeight(h, rank, bound, i)
    decreases bound - rank[i], 1, 0
  {
    assert LinkedAt(h, i) && WeighedAt(h, i);
    CachedAreDeep(h, rank, bound, i, h[i].list);
  }

  lemma {:induction false} CachedAreDeep(h: Heap, rank: map<Item, nat>, bound: nat, c: Item, list: seq<Item>)
    requires Good(h, rank) && c in h && forall j :: j in rank ==> rank[j] <= bound
    requires forall x :: x in list ==> x in h && h[x].parent == c
    ensures SumWeights(h, list) == DeepWeights(h, rank, bound, c, list)
    decreases bound - rank[c], 0, |list|
  {
    if list != [] {
      assert RankedAt(h, rank, list[0]);
      CachedIsDeep(h, rank, bound, list[0]);
      CachedAreDeep(h, rank, bound, c, list[1..]);
    }
  }

  /** Ranks are bounded, so the recursion reaches everything. */
  lemma {:induction false} RanksBounded(rank: map<Item, nat>) returns (bound: nat)
    ensures forall j :: j in rank ==> rank[j] <= bound
    decreases |rank|
  {
    if rank == map[] {
      bound := 0;
    } else {
      var i :| i in rank;
      var rest := rank - {i};
      var b := RanksBounded(rest);
      bound := if b > rank[i] then b else rank[i];
      forall j | j in rank
        ensures rank[j] <= bound
      {
        if j != i {
          assert j in rest;
        }
      }
    }
  }
}
