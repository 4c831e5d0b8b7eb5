/** Walking through everything inside a container, level by level (src/container.h and src/container.cpp,
    ContainerIterator and the counts that use it). */
module ContainerWalk {
  import opened Containers

  // What lies below a list of items.

  lemma {:induction false} UnderRank(h: Heap, rank: map<Item, nat>, i: Item, top: Item)
    requires Ranked(h, rank) && i in h && top in h && Under(h, rank, i, top)
    ensures i != top ==> rank[top] < rank[i]
    decreases rank[i]
  {
    assert RankedAt(h, rank, i);
    if i != top {
      UnderRank(h, rank, h[i].parent, top);
    }
  }

  lemma {:induction false} UnderTransitive(h: Heap, rank: map<Item, nat>, i: Item, x: Item, y: Item)
    requires Ranked(h, rank) && i in h && x in h && Under(h, rank, i, x) && Under(h, rank, x, y)
    ensures Under(h, rank, i, y)
    decreases rank[i]
  {
    assert RankedAt(h, rank, i);
    if i != x {
      UnderTransitive(h, rank, h[i].parent, x, y);
    }
  }

  /** What is inside an item is that of one of the items it lists, or inside that. */
  lemma {:induction false} UnderChild(h: Heap, rank: map<Item, nat>, i: Item, top: Item) returns (x: Item)
    requires Linked(h) && Ranked(h, rank) && i in h && top in h && Under(h, rank, i, top) && i != top
    ensures x in h[top].list && x in h && Under(h, rank, i, x)
    decreases rank[i]
  {
    assert RankedAt(h, rank, i) && LinkedAt(h, i) && LinkedAt(h, top);
    if h[i].parent == top {
      x := i;
    } else {
      x := UnderChild(h, rank, h[i].parent, top);
    }
  }

  lemma ChildIsUnder(h: Heap, rank: map<Item, nat>, x: Item, top: Item)
    requires Linked(h) && Ranked(h, rank) && top in h && x in h[top].list
    ensures x in h && Under(h, rank, x, top) && rank[top] < rank[x]
  {
    assert LinkedAt(h, top);
    assert RankedAt(h, rank, x);
    assert Under(h, rank, h[x].parent, top);
  }

  ghost predicate UnderAny(h: Heap, rank: map<Item, nat>, i: Item, queue: seq<Item>)
    requires Ranked(h, rank) && i in h
  {
    exists x {:trigger Under(h, rank, i, x)} :: x in queue && Under(h, rank, i, x)
  }

  /** The items of the queue and everything inside them. */
  ghost function Reach(h: Heap, rank: map<Item, nat>, queue: seq<Item>): set<Item>
    requires Ranked(h, rank)
  {
    set i | i in h && UnderAny(h, rank, i, queue)
  }

  /** Different items none of which is inside another. */
  ghost predicate Frontier(h: Heap, rank: map<Item, nat>, queue: seq<Item>)
    requires Ranked(h, rank)
  {
    && (forall x :: x in queue ==> x in h)
    && NoDuplicates(queue)
    && (forall x, y {:trigger Under(h, rank, x, y)} :: x in queue && y in queue && x != y ==> !Under(h, rank, x, y))
  }

  /** The queue after its first item is visited and the items in it are queued. */
  ghost function After(h: Heap, queue: seq<Item>): seq<Item>
    requires queue != [] && queue[0] in h
  {
    queue[1..] + h[queue[0]].list
  }

  lemma NoDuplicatesJoin(a: seq<Item>, b: seq<Item>)
    requires NoDuplicates(a) && NoDuplicates(b) && forall x :: x in a ==> x !in b
    ensures NoDuplicates(a + b)
  {
    forall i, j | 0 <= i < j < |a + b|
      ensures (a + b)[i] != (a + b)[j]
    {
      assert i < |a| ==> a[i] in a;
    }
  }

  lemma AfterIsFrontier(h: Heap, rank: map<Item, nat>, queue: seq<Item>)
    requires Linked(h) && Ranked(h, rank) && Frontier(h, rank, queue) && queue != []
    ensures Frontier(h, rank, After(h, queue))
  {
    var first, next := queue[0], After(h, queue);
    assert LinkedAt(h, first);
    assert first in queue;
    forall x | x in h[first].list
      ensures x in h && Under(h, rank, x, first) && rank[first] < rank[x] && x !in queue
    {
      ChildIsUnder(h, rank, x, first);
    }
    assert forall x :: x in queue[1..] ==> x in queue && x != first;
    forall x, y | x in next && y in next && x != y
      ensures !Under(h, rank, x, y)
    {
      if x in h[first].list {
        assert RankedAt(h, rank, x);
        if Under(h, rank, first, y) {
          UnderRank(h, rank, first, y);
        }
      } else if y in h[first].list && Under(h, rank, x, y) {
        UnderTransitive(h, rank, x, y, first);
      }
    }
    NoDuplicatesJoin(queue[1..], h[first].list);
  }

  /** Everything that was to be visited still is, but for the item visited. */
  lemma AfterReaches(h: Heap, rank: map<Item, nat>, queue: seq<Item>)
    requires Linked(h) && Ranked(h, rank) && Frontier(h, rank, queue) && queue != []
    ensures queue[0] in Reach(h, rank, queue)
    ensures Reach(h, rank, After(h, queue)) == Reach(h, rank, queue) - {queue[0]}
  {
    var first, next := queue[0], After(h, queue);
    assert first in queue && Under(h, rank, first, first);
    forall i | i in Reach(h, rank, queue) && i != first
      ensures i in Reach(h, rank, next)
    {
      var x :| x in queue && Under(h, rank, i, x);
      if x == first {
        var y := UnderChild(h, rank, i, first);
        assert y in next;
      } else {
        assert x in next;
      }
    }
    forall i | i in Reach(h, rank, next)
      ensures i in Reach(h, rank, queue) && i != first
    {
      var x :| x in next && Under(h, rank, i, x);
      if x in queue[1..] {
        assert x in queue && x != first;
      } else {
        ChildIsUnder(h, rank, x, first);
        UnderTransitive(h, rank, i, x, first);
        UnderRank(h, rank, i, x);
      }
    }
  }

  // The order of the visits.

  /** The items in the order in which a queue is worked off. */
  ghost function Visits(h: Heap, rank: map<Item, nat>, queue: seq<Item>): seq<Item>
    requires Linked(h) && Ranked(h, rank) && Frontier(h, rank, queue)
    decreases |Reach(h, rank, queue)|
  {
    if queue == [] then []
    else
      AfterIsFrontier(h, rank, queue);
      AfterReaches(h, rank, queue);
      [queue[0]] + Visits(h, rank, After(h, queue))
  }

  /** Every item of the queue and everything inside them is visited exactly once. */
  lemma {:induction false} VisitsEverythingOnce(h: Heap, rank: map<Item, nat>, queue: seq<Item>)
    requires Linked(h) && Ranked(h, rank) && Frontier(h, rank, queue)
    ensures NoDuplicates(Visits(h, rank, queue))
    ensures forall i :: i in Visits(h, rank, queue) ==> i in Reach(h, rank, queue)
    ensures forall i :: i in Reach(h, rank, queue) ==> i in Visits(h, rank, queue)
    decreases |Reach(h, rank, queue)|
  {
    if queue != [] {
      AfterIsFrontier(h, rank, queue);
      AfterReaches(h, rank, queue);
      VisitsEverythingOnce(h, rank, After(h, queue));
    }
  }

  /** The items listed by these items. */
  ghost function Children(h: Heap, queue: seq<Item>): seq<Item>
    requires forall x :: x in queue ==> x in h
  {
    if queue == [] then [] else h[queue[0]].list + Children(h, queue[1..])
  }

  lemma {:induction false} ChildrenJoin(h: Heap, a: seq<Item>, b: seq<Item>)
    requires forall x :: x in a + b ==> x in h
    ensures (forall x :: x in a ==> x in h) && (forall x :: x in b ==> x in h)
    ensures Children(h, a + b) == Children(h, a) + Children(h, b)
  {
    assert forall x :: x in a ==> x in a + b;
    assert forall x :: x in b ==> x in a + b;
    if a == [] {
      assert a + b == b;
    } else {
      assert (a + b)[1..] == a[1..] + b;
      ChildrenJoin(h, a[1..], b);
    }
  }

  lemma {:induction false} VisitsFirst(h: Heap, rank: map<Item, nat>, a: seq<Item>, b: seq<Item>)
    requires Linked(h) && Ranked(h, rank) && Frontier(h, rank, a + b)
    ensures forall x :: x in a ==> x in h
    ensures Frontier(h, rank, b + Children(h, a))
    ensures Visits(h, rank, a + b) == a + Visits(h, rank, b + Children(h, a))
  {
    assert forall x :: x in a ==> x in a + b;
    if a == [] {
      assert a + b == b == b + Children(h, a);
    } else {
      var queue := a + b;
      AfterIsFrontier(h, rank, queue);
      assert After(h, queue) == a[1..] + (b + h[a[0]].list);
      VisitsFirst(h, rank, a[1..], b + h[a[0]].list);
      assert b + h[a[0]].list + Children(h, a[1..]) == b + Children(h, a);
    }
  }

  /** Level by level: first what the container lists, then what those items list, and so on. */
  lemma VisitsByLevel(h: Heap, rank: map<Item, nat>, level: seq<Item>)
    requires Linked(h) && Ranked(h, rank) && Frontier(h, rank, level)
    ensures Frontier(h, rank, Children(h, level))
    ensures Visits(h, rank, level) == level + Visits(h, rank, Children(h, level))
  {
    assert level + [] == level;
    VisitsFirst(h, rank, level, []);
    assert [] + Children(h, level) == Children(h, level);
  }

  /** Everything inside an item. */
  ghost function Inside(h: Heap, rank: map<Item, nat>, c: Item): set<Item>
    requires Ranked(h, rank)
  {
    set i | i in h && i != c && Under(h, rank, i, c)
  }

  lemma ListReaches(h: Heap, rank: map<Item, nat>, c: Item)
    requires Linked(h) && Ranked(h, rank) && c in h
    ensures Frontier(h, rank, h[c].list)
    ensures Reach(h, rank, h[c].list) == Inside(h, rank, c)
  {
    assert Frontier(h, rank, [c]);
    AfterIsFrontier(h, rank, [c]);
    AfterReaches(h, rank, [c]);
    assert After(h, [c]) == h[c].list;
    assert Reach(h, rank, [c]) == Inside(h, rank, c) + {c};
  }

  // The iterator: containers still to be walked through, and the place in the first of them.

  class ContainerIterator {
    var over: seq<Item>
    var cur: nat

    /** The iterator over everything inside a container. */
    constructor (c: Item, ghost h: Heap)
      requires c in h && c.itemlist == h[c].list
      ensures Valid(h) && Remaining(h) == h[c].list
    {
      over := if c.itemlist != [] then [c] else [];
      cur := 0;
      new;
      if over != [] {
        assert over[1..] == [];
        assert h[c].list[0..] == h[c].list;
      }
    }

    ghost predicate Valid(h: Heap)
      reads this
    {
      && (forall c :: c in over ==> c in h && h[c].list != [])
      && (over != [] ==> cur < |h[over[0]].list|)
    }

    /** What is queued: the rest of the first container's items and those of the others. */
    ghost function Remaining(h: Heap): seq<Item>
      reads this
      requires Valid(h)
    {
      if over == [] then [] else h[over[0]].list[cur..] + Children(h, over[1..])
    }

    predicate HasNext()
      reads this
    {
      over != []
    }

    method Current(ghost h: Heap, ghost items: set<Item>) returns (i: Item)
      requires Valid(h) && HasNext() && h == View(items)
      ensures Remaining(h) != [] && i == Remaining(h)[0]
    {
      assert over[0] in over;
      i := over[0].itemlist[cur];
    }

    /** The current item is done with, and what it lists is queued. */
    method Advance(ghost h: Heap, ghost items: set<Item>)
      requires Valid(h) && HasNext() && h == View(items) && Linked(h)
      modifies this
      ensures Valid(h)
      ensures old(Remaining(h)) != [] && old(Remaining(h))[0] in h
      ensures Remaining(h) == After(h, old(Remaining(h)))
    {
      assert over[0] in over;
      var i := over[0].itemlist[cur];
      ghost var queue := Remaining(h);
      AdvancedQueue(h, over, cur, i);
      if i.isContainer && i.itemlist != [] {
        over := over + [i];
      }
      cur := cur + 1;
      if cur == |over[0].itemlist| {
        over := over[1..];
        if over != [] {
          cur := 0;
          assert h[over[0]].list[0..] == h[over[0]].list;
        }
      }
    }
  }

  /** Appending the current item's container leaves the queue as if its items were appended. */
  lemma AdvancedQueue(h: Heap, over: seq<Item>, cur: nat, i: Item)
    requires Linked(h) && over != [] && (forall c :: c in over ==> c in h && h[c].list != [])
    requires cur < |h[over[0]].list| && i == h[over[0]].list[cur]
    ensures i in h && (!i.isContainer ==> h[i].list == [])
    ensures var queue := h[over[0]].list[cur..] + Children(h, over[1..]);
            var next := if i.isContainer && h[i].list != [] then over + [i] else over;
            && queue != [] && queue[0] == i
            && (forall c :: c in next ==> c in h && h[c].list != [])
            && After(h, queue) == h[over[0]].list[cur + 1..] + Children(h, next[1..])
  {
    assert over[0] in over && LinkedAt(h, over[0]);
    assert i in h[over[0]].list;
    assert LinkedAt(h, i);
    var list := h[over[0]].list;
    assert list[cur..] == [i] + list[cur + 1..];
    assert forall x :: x in over[1..] ==> x in over;
    ChildrenJoin(h, over[1..], [i]);
    assert over[1..] + [i] == (over + [i])[1..];
    assert [i][1..] == [];
    assert Children(h, [i]) == h[i].list;
    FirstOff(i, list[cur + 1..], Children(h, over[1..]), h[i].list);
  }

  lemma FirstOff<T>(i: T, a: seq<T>, b: seq<T>, c: seq<T>)
    ensures ([i] + a + b)[1..] + c == a + (b + c)
    ensures c == [] ==> ([i] + a + b)[1..] + c == a + b
  {
    assert ([i] + a + b)[1..] == a + b;
  }

  ghost function OnlyContainers(s: set<Item>): set<Item> {
    set i | i in s && i.isContainer
  }

  /** What remains after one more visit. */
  lemma WalkedOn(h: Heap, rank: map<Item, nat>, queue: seq<Item>)
    requires Linked(h) && Ranked(h, rank) && Frontier(h, rank, queue) && queue != []
    ensures var rest := Reach(h, rank, After(h, queue));
            && Frontier(h, rank, After(h, queue))
            && Reach(h, rank, queue) == rest + {queue[0]} && queue[0] !in rest
            && |Reach(h, rank, queue)| == |rest| + 1
            && |OnlyContainers(Reach(h, rank, queue))| == |OnlyContainers(rest)| + if queue[0].isContainer then 1 else 0
  {
    AfterIsFrontier(h, rank, queue);
    AfterReaches(h, rank, queue);
    var rest := Reach(h, rank, After(h, queue));
    assert Reach(h, rank, queue) == rest + {queue[0]};
    var containers := OnlyContainers(rest);
    assert OnlyContainers(Reach(h, rank, queue)) == if queue[0].isContainer then containers + {queue[0]}
           else containers;
  }

  /** The iterator stands before this queue. */
  ghost predicate Before(it: ContainerIterator, items: set<Item>, h: Heap, rank: map<Item, nat>, queue: seq<Item>)
    reads it, items
  {
    && View(items) == h && Linked(h) && Ranked(h, rank)
    && it.Valid(h) && queue == it.Remaining(h) && Frontier(h, rank, queue)
  }

  method Start(c: Item, ghost items: set<Item>, ghost h: Heap, ghost rank: map<Item, nat>)
    returns (it: ContainerIterator, ghost queue: seq<Item>)
    requires c in items && View(items) == h && Linked(h) && Ranked(h, rank)
    ensures fresh(it) && Before(it, items, h, rank, queue)
    ensures Reach(h, rank, queue) == Inside(h, rank, c)
  {
    ListReaches(h, rank, c);
    it := new ContainerIterator(c, h);
    queue := it.Remaining(h);
  }

  method Next(it: ContainerIterator, ghost items: set<Item>, ghost h: Heap, ghost rank: map<Item, nat>,
              ghost queue: seq<Item>)
    returns (i: Item, ghost rest: seq<Item>)
    requires Before(it, items, h, rank, queue) && it.HasNext()
    modifies it
    ensures Before(it, items, h, rank, rest)
    ensures var now, later := Reach(h, rank, queue), Reach(h, rank, rest);
            && now == later + {i} && i !in later
            && |now| == |later| + 1
            && |OnlyContainers(now)| == |OnlyContainers(later)| + if i.isContainer then 1 else 0
  {
    i := it.Current(h, items);
    it.Advance(h, items);
    WalkedOn(h, rank, queue);
    rest := it.Remaining(h);
  }

  lemma Done(it: ContainerIterator, items: set<Item>, h: Heap, rank: map<Item, nat>, queue: seq<Item>)
    requires Before(it, items, h, rank, queue) && !it.HasNext()
    ensures Reach(h, rank, queue) == {} && OnlyContainers({}) == {}
  {
  }

  /** The number of items inside a container, at every depth. */
  method GetItemHoldingCount(c: Item, ghost items: set<Item>, ghost rank: map<Item, nat>) returns (counter: nat)
    requires c in items && Linked(View(items)) && Ranked(View(items), rank)
    ensures counter == |Inside(View(items), rank, c)|
  {
    ghost var h := View(items);
    ghost var queue, total := [], |Inside(h, rank, c)|;
    var it;
    it, queue := Start(c, items, h, rank);
    counter := 0;
    while it.HasNext()
      invariant Before(it, items, h, rank, queue)
      invariant counter + |Reach(h, rank, queue)| == total
      decreases total - counter
    {
      var i;
      i, queue := Next(it, items, h, rank, queue);
      counter := counter + 1;
    }
    Done(it, items, h, rank, queue);
  }

  method GetContainerHoldingCount(c: Item, ghost items: set<Item>, ghost rank: map<Item, nat>) returns (counter: nat)
    requires c in items && Linked(View(items)) && Ranked(View(items), rank)
    ensures counter == |OnlyContainers(Inside(View(items), rank, c))|
  {
    ghost var h := View(items);
    ghost var queue, total := [], |OnlyContainers(Inside(h, rank, c))|;
    var it;
    it, queue := Start(c, items, h, rank);
    counter := 0;
    while it.HasNext()
      invariant Before(it, items, h, rank, queue)
      invariant counter + |OnlyContainers(Reach(h, rank, queue))| == total
      decreases |Reach(h, rank, queue)|
    {
      var i;
      i, queue := Next(it, items, h, rank, queue);
      if i.isContainer {
        counter := counter + 1;
      }
    }
    Done(it, items, h, rank, queue);
  }

  /** Whether the item is inside the container, at any depth. */
  method IsHoldingItem(c: Item, item: Item, ghost items: set<Item>, ghost rank: map<Item, nat>) returns (holding: bool)
    requires c in items && item in items && Linked(View(items)) && Ranked(View(items), rank)
    ensures holding == (item in Inside(View(items), rank, c))
  {
    ghost var h, queue := View(items), [];
    ghost var inside := Inside(h, rank, c);
    var it;
    it, queue := Start(c, items, h, rank);
    ghost var left := inside;
    holding := false;
    while it.HasNext()
      invariant Before(it, items, h, rank, queue)
      invariant left == Reach(h, rank, queue) && (item in left <==> item in inside)
      decreases |left|
    {
      var i;
      i, queue := Next(it, items, h, rank, queue);
      left := Reach(h, rank, queue);
      if i == item {
        return true;
      }
    }
    Done(it, items, h, rank, queue);
  }
}
