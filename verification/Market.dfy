/** Collecting the items of a market offer from a depot and taking them (src/game.cpp, Game::getMarketItemList and
    the removal loops of Game::playerCreateMarketOffer and Game::playerAcceptMarketOffer). */
module Market {
  import opened Containers
  import opened ContainerWalk
  import opened MoveItem

  /** The most that one offer is for. */
  const MAX_AMOUNT := 64000
  const BITS16 := 0x1_0000

  /** An item is considered unless it is a container with something in it; `matches` says whether it is of the ware,
      as new as the market wants it. */
  predicate Considered(h: Heap, i: Item, matches: Item -> bool)
    requires i in h
  {
    !(i.isContainer && h[i].list != []) && matches(i)
  }

  /** The wanted ones of these items, in order. */
  function Wanted(h: Heap, list: seq<Item>, matches: Item -> bool): (w: seq<Item>)
    requires forall x :: x in list ==> x in h
    ensures forall x :: x in w ==> x in list && Considered(h, x, matches)
    ensures forall x :: x in list ==> (Considered(h, x, matches) ==> x in w)
  {
    if list == [] then []
    else (if Considered(h, list[0], matches) then [list[0]] else []) + Wanted(h, list[1..], matches)
  }

  function Total(h: Heap, list: seq<Item>): int
    requires forall x :: x in list ==> x in h
  {
    if list == [] then 0 else h[list[0]].count + Total(h, list[1..])
  }

  function Reversed(list: seq<Item>): (r: seq<Item>)
    ensures |r| == |list|
    ensures forall k :: 0 <= k < |list| ==> r[k] == list[|list| - 1 - k]
    ensures forall x :: x in r ==> x in list
    ensures forall x :: x in list ==> x in r
  {
    if list == [] then [] else Reversed(list[1..]) + [list[0]]
  }

  lemma {:induction false} WantedOnce(h: Heap, list: seq<Item>, matches: Item -> bool)
    requires (forall x :: x in list ==> x in h) && NoDuplicates(list)
    ensures NoDuplicates(Wanted(h, list, matches))
  {
    if list != [] {
      WantedOnce(h, list[1..], matches);
      assert list[0] !in list[1..];
    }
  }

  lemma VisitsKnown(h: Heap, rank: map<Item, nat>, queue: seq<Item>)
    requires Linked(h) && Ranked(h, rank) && Frontier(h, rank, queue)
    ensures NoDuplicates(Visits(h, rank, queue))
    ensures forall x :: x in Visits(h, rank, queue) ==> x in h
    ensures forall x :: x in Visits(h, rank, queue) ==> x in Reach(h, rank, queue)
  {
    VisitsEverythingOnce(h, rank, queue);
  }

  /** Everything wanted below a queue of items, in the order of a walk. */
  ghost function WantedBelow(h: Heap, rank: map<Item, nat>, queue: seq<Item>, matches: Item -> bool): (w: seq<Item>)
    requires Linked(h) && Ranked(h, rank) && Frontier(h, rank, queue)
    ensures forall x :: x in w ==> x in Reach(h, rank, queue) && x in h && matches(x)
  {
    VisitsKnown(h, rank, queue);
    Wanted(h, Visits(h, rank, queue), matches)
  }

  lemma WantedNext(h: Heap, rank: map<Item, nat>, queue: seq<Item>, matches: Item -> bool)
    requires Linked(h) && Ranked(h, rank) && Frontier(h, rank, queue) && queue != []
    ensures Frontier(h, rank, After(h, queue))
    ensures WantedBelow(h, rank, queue, matches)
         == (if Considered(h, queue[0], matches) then [queue[0]] else [])
             + WantedBelow(h, rank, After(h, queue), matches)
    ensures |Reach(h, rank, After(h, queue))| < |Reach(h, rank, queue)|
  {
    WalkedOn(h, rank, queue);
    assert Visits(h, rank, queue)[1..] == Visits(h, rank, After(h, queue));
  }

  /** What the collection for an amount is: nothing when there is not enough; else the first wanted items that
      reach the amount, the last one found in front, which would not be enough without it. */
  ghost predicate Collected(h: Heap, wanted: seq<Item>, amount: nat, list: seq<Item>)
    requires forall x :: x in wanted ==> x in h
  {
    if wanted == [] || Total(h, wanted) < amount then list == []
    else
      && 0 < |list| <= |wanted| && list == Reversed(wanted[..|list|])
      && Total(h, list) >= amount
      && (|list| > 1 ==> Total(h, list[1..]) < amount)
  }

  lemma {:induction false} TotalJoin(h: Heap, a: seq<Item>, b: seq<Item>)
    requires forall x :: x in a + b ==> x in h
    ensures (forall x :: x in a ==> x in h) && (forall x :: x in b ==> x in h)
    ensures Total(h, a + b) == Total(h, a) + Total(h, b)
  {
    assert forall x :: x in a ==> x in a + b;
    assert forall x :: x in b ==> x in a + b;
    if a == [] {
      assert a + b == b;
    } else {
      assert (a + b)[1..] == a[1..] + b;
      TotalJoin(h, a[1..], b);
    }
  }

  lemma {:induction false} TotalReversed(h: Heap, list: seq<Item>)
    requires forall x :: x in list ==> x in h
    ensures Total(h, Reversed(list)) == Total(h, list)
  {
    if list != [] {
      TotalReversed(h, list[1..]);
      TotalJoin(h, Reversed(list[1..]), [list[0]]);
    }
  }

  /** Counts of wanted items are what an 8-bit field holds. */
  ghost predicate Counted(h: Heap, list: seq<Item>)
    requires forall x :: x in list ==> x in h
  {
    forall x :: x in list ==> 0 <= h[x].count < 256
  }

  lemma {:induction false} TotalIsPositive(h: Heap, list: seq<Item>)
    requires (forall x :: x in list ==> x in h) && Counted(h, list)
    ensures Total(h, list) >= 0
  {
    if list != [] {
      TotalIsPositive(h, list[1..]);
    }
  }

  /** Where the search stands: what was found, and what is still to be found, make up everything wanted; what was found
      is not enough yet. */
  ghost predicate Searching(h: Heap, rank: map<Item, nat>, queue: seq<Item>, matches: Item -> bool, wanted: seq<Item>,
                            amount: nat,
                            itemList: seq<Item>, count: int)
    requires Linked(h) && Ranked(h, rank) && forall x :: x in wanted ==> x in h
  {
    && Frontier(h, rank, queue)
    && wanted == Reversed(itemList) + WantedBelow(h, rank, queue, matches)
    && (forall x :: x in itemList ==> x in wanted)
    && count == Total(h, itemList) && (itemList != [] ==> count < amount)
  }

  /** The search goes on behind an item that is not wanted. */
  lemma NotFound(h: Heap, rank: map<Item, nat>, queue: seq<Item>, matches: Item -> bool, wanted: seq<Item>, amount: nat,
                 itemList: seq<Item>, count: int)
    requires Linked(h) && Ranked(h, rank) && (forall x :: x in wanted ==> x in h)
    requires Searching(h, rank, queue, matches, wanted, amount, itemList, count) && queue != [] && queue[0] in h
    requires !Considered(h, queue[0], matches)
    ensures Frontier(h, rank, After(h, queue)) && |Reach(h, rank, After(h, queue))| < |Reach(h, rank, queue)|
    ensures Searching(h, rank, After(h, queue), matches, wanted, amount, itemList, count)
  {
    WantedNext(h, rank, queue, matches);
    var rest := WantedBelow(h, rank, After(h, queue), matches);
    assert [] + rest == rest;
  }

  lemma FrontReversed(itemList: seq<Item>, item: Item, rest: seq<Item>, wanted: seq<Item>, next: seq<Item>)
    requires next == [item] + itemList && wanted == Reversed(itemList) + ([item] + rest)
    ensures wanted == Reversed(next) + rest
    ensures next != [] && next[0] == item && next[1..] == itemList && forall x :: x in next ==> x in wanted
  {
    assert next[1..] == itemList;
    assert Reversed(next) == Reversed(itemList) + [item];
  }

  /** A found item comes to the front of the list. */
  lemma Found(h: Heap, rank: map<Item, nat>, queue: seq<Item>, matches: Item -> bool, wanted: seq<Item>, amount: nat,
              itemList: seq<Item>, count: int, next: seq<Item>)
    requires Linked(h) && Ranked(h, rank) && (forall x :: x in wanted ==> x in h)
    requires Searching(h, rank, queue, matches, wanted, amount, itemList, count) && queue != [] && queue[0] in h
    requires Considered(h, queue[0], matches) && next == [queue[0]] + itemList
    ensures Frontier(h, rank, After(h, queue)) && |Reach(h, rank, After(h, queue))| < |Reach(h, rank, queue)|
    ensures wanted == Reversed(next) + WantedBelow(h, rank, After(h, queue), matches)
    ensures next != [] && (forall x :: x in next ==> x in wanted) && next[1..] == itemList
    ensures Total(h, next) == count + h[queue[0]].count
  {
    WantedNext(h, rank, queue, matches);
    FrontReversed(itemList, queue[0], WantedBelow(h, rank, After(h, queue), matches), wanted, next);
  }

  lemma EnoughIsCollected(h: Heap, wanted: seq<Item>, amount: nat, next: seq<Item>, rest: seq<Item>)
    requires (forall x :: x in wanted ==> x in h) && Counted(h, wanted) && wanted == Reversed(next) + rest
    requires next != [] && (forall x :: x in next ==> x in wanted)
    requires Total(h, next) >= amount && (|next| > 1 ==> Total(h, next[1..]) < amount)
    ensures Collected(h, wanted, amount, next)
  {
    TotalJoin(h, Reversed(next), rest);
    TotalReversed(h, next);
    TotalIsPositive(h, rest);
    assert wanted[..|next|] == Reversed(next);
    ReversedTwice(next);
  }

  lemma ReversedTwice(list: seq<Item>)
    ensures Reversed(Reversed(list)) == list
  {
  }

  lemma FoundOutcome(h: Heap, rank: map<Item, nat>, queue: seq<Item>, matches: Item -> bool, wanted: seq<Item>,
                     amount: nat,
                     itemList: seq<Item>, count: int, next: seq<Item>, total: int)
    requires Linked(h) && Ranked(h, rank) && (forall x :: x in wanted ==> x in h) && Counted(h, wanted)
    requires Searching(h, rank, queue, matches, wanted, amount, itemList, count) && queue != [] && queue[0] in h
    requires Considered(h, queue[0], matches) && amount <= MAX_AMOUNT && count >= 0
    requires next == [queue[0]] + itemList && total == count + h[queue[0]].count
    ensures Frontier(h, rank, After(h, queue)) && |Reach(h, rank, After(h, queue))| < |Reach(h, rank, queue)|
    ensures 0 <= total < BITS16
    ensures if total < amount then Searching(h, rank, After(h, queue), matches, wanted, amount, next, total)
            else Collected(h, wanted, amount, next)
  {
    Found(h, rank, queue, matches, wanted, amount, itemList, count, next);
    assert next[0] in next;
    if count + h[queue[0]].count >= amount {
      EnoughIsCollected(h, wanted, amount, next, WantedBelow(h, rank, After(h, queue), matches));
    }
  }

  lemma CollectedOnce(h: Heap, wanted: seq<Item>, amount: nat, list: seq<Item>)
    requires (forall x :: x in wanted ==> x in h) && NoDuplicates(wanted) && Collected(h, wanted, amount, list)
    ensures NoDuplicates(list) && forall x :: x in list ==> x in wanted
  {
    if list != [] {
      var front := wanted[..|list|];
      forall i, j | 0 <= i < j < |list|
        ensures list[i] != list[j]
      {
        assert list[i] == front[|list| - 1 - i] && list[j] == front[|list| - 1 - j];
      }
      forall x | x in list
        ensures x in front
      {
        assert x in Reversed(front);
      }
    }
  }

  /** When nothing is left to search, there is not enough. */
  lemma SearchedInVain(h: Heap, rank: map<Item, nat>, matches: Item -> bool, wanted: seq<Item>, amount: nat,
                       itemList: seq<Item>, count: int)
    requires Linked(h) && Ranked(h, rank) && (forall x :: x in wanted ==> x in h)
    requires Searching(h, rank, [], matches, wanted, amount, itemList, count)
    ensures Collected(h, wanted, amount, [])
  {
    assert wanted == Reversed(itemList);
    TotalReversed(h, itemList);
  }

  /** The wares inside a depot, in the order of a walk through it. */
  ghost function Wares(h: Heap, rank: map<Item, nat>, depotLocker: Item, matches: Item -> bool): (w: seq<Item>)
    requires Linked(h) && Ranked(h, rank) && depotLocker in h
    ensures NoDuplicates(w) && forall x :: x in w ==> x in h && x in Inside(h, rank, depotLocker) && matches(x)
    ensures forall x :: x in w ==> Considered(h, x, matches)
  {
    var queue := h[depotLocker].list;
    ListReaches(h, rank, depotLocker);
    VisitsKnown(h, rank, queue);
    WantedOnce(h, Visits(h, rank, queue), matches);
    WantedBelow(h, rank, queue, matches)
  }

  /** The wares are all items inside the depot that are of the ware, but for containers with something in them: an
      empty container of the ware is one. */
  lemma WaresExactly(h: Heap, rank: map<Item, nat>, depotLocker: Item, matches: Item -> bool, x: Item)
    requires Linked(h) && Ranked(h, rank) && depotLocker in h
    ensures x in Wares(h, rank, depotLocker, matches)
       <==> x in Inside(h, rank, depotLocker) && matches(x) && (x.isContainer ==> h[x].list == [])
  {
    var queue := h[depotLocker].list;
    ListReaches(h, rank, depotLocker);
    VisitsKnown(h, rank, queue);
    VisitsEverythingOnce(h, rank, queue);
  }

  lemma SearchBegins(h: Heap, rank: map<Item, nat>, depotLocker: Item, matches: Item -> bool, amount: nat)
    requires Linked(h) && Ranked(h, rank) && depotLocker in h
    ensures Searching(h, rank, h[depotLocker].list, matches, Wares(h, rank, depotLocker, matches), amount, [], 0)
    ensures Children(h, [depotLocker]) == h[depotLocker].list
  {
    ListReaches(h, rank, depotLocker);
    assert [] + WantedBelow(h, rank, h[depotLocker].list, matches)
           == WantedBelow(h, rank, h[depotLocker].list, matches);
    assert [depotLocker][1..] == [];
  }

  /** The items of an offer, searched for container by container. */
  method GetMarketItemList(depotLocker: Item, amount: nat, matches: Item -> bool, ghost items: set<Item>,
                           ghost rank: map<Item, nat>, ghost h: Heap)
    returns (itemList: seq<Item>)
    requires h == View(items) && Linked(h) && Ranked(h, rank) && depotLocker in h && amount <= MAX_AMOUNT
    requires Counted(h, Wares(h, rank, depotLocker, matches))
    ensures Collected(h, Wares(h, rank, depotLocker, matches), amount, itemList)
    ensures NoDuplicates(itemList) && forall x :: x in itemList ==> x in Inside(h, rank, depotLocker) && matches(x)
  {
    ghost var wanted, queue := Wares(h, rank, depotLocker, matches), h[depotLocker].list;
    SearchBegins(h, rank, depotLocker, matches, amount);
    itemList := [];
    var count, enough := 0, false;
    var containers := [depotLocker];
    while containers != []
      invariant (containers != [] ==> containers[0] in h && Filled(h, containers[1..]))
                && queue == Children(h, containers) && count >= 0
      invariant Searching(h, rank, queue, matches, wanted, amount, itemList, count)
      decreases |Reach(h, rank, queue)|, |containers|
    {
      enough, itemList, count, containers, queue :=
        SearchContainer(containers[0], containers[1..], amount, matches, itemList, count, items, rank, h, queue,
            wanted);
      if enough {
        CollectedOnce(h, wanted, amount, itemList);
        return;
      }
    }
    SearchedInVain(h, rank, matches, wanted, amount, itemList, count);
    itemList := [];
  }

  /** The items of one container, until there is enough; what is found non-empty is queued. */
  method SearchContainer(container: Item, containers: seq<Item>, amount: nat, matches: Item -> bool,
                         itemList: seq<Item>, count: int,
                         ghost items: set<Item>, ghost rank: map<Item, nat>, ghost h: Heap, ghost queue: seq<Item>,
                             ghost wanted: seq<Item>)
    returns (enough: bool, itemList': seq<Item>, count': int, containers': seq<Item>, ghost queue': seq<Item>)
    requires View(items) == h && Linked(h) && Ranked(h, rank) && (forall x :: x in wanted ==> x in h)
             && Counted(h, wanted)
    requires container in h && Filled(h, containers) && queue == h[container].list + Children(h, containers)
    requires Searching(h, rank, queue, matches, wanted, amount, itemList, count) && amount <= MAX_AMOUNT && count >= 0
    ensures enough ==> Collected(h, wanted, amount, itemList')
    ensures !enough ==> && Filled(h, containers') && queue' == Children(h, containers') && count' >= 0
                        && Searching(h, rank, queue', matches, wanted, amount, itemList', count')
                        && (|Reach(h, rank, queue')| < |Reach(h, rank, queue)|
                              || (queue' == queue && containers' == containers))
  {
    itemList', count', containers', queue', enough := itemList, count, containers, queue, false;
    var k := 0;
    assert h[container].list[0..] == h[container].list;
    while k < |container.itemlist|
      invariant 0 <= k <= |h[container].list| && count' >= 0 && Filled(h, containers')
      invariant queue' == h[container].list[k..] + Children(h, containers')
      invariant Searching(h, rank, queue', matches, wanted, amount, itemList', count')
      invariant |Reach(h, rank, queue')| < |Reach(h, rank, queue)|
                || (k == 0 && queue' == queue && containers' == containers)
    {
      var item := container.itemlist[k];
      QueueStep(h, container, containers', k, item);
      k := k + 1;
      enough, itemList', count',
          queue' := Consider(item, amount, matches, itemList', count', items, rank, h, queue', wanted);
      if item.isContainer && item.itemlist != [] {
        containers' := containers' + [item];
      }
      if enough {
        return;
      }
    }
    assert h[container].list[k..] == [];
  }

  /** One item: it is added to the list if it is one of the wares. */
  method Consider(item: Item, amount: nat, matches: Item -> bool, itemList: seq<Item>, count: int,
                  ghost items: set<Item>, ghost rank: map<Item, nat>, ghost h: Heap, ghost queue: seq<Item>,
                      ghost wanted: seq<Item>)
    returns (enough: bool, itemList': seq<Item>, count': int, ghost queue': seq<Item>)
    requires View(items) == h && Linked(h) && Ranked(h, rank) && (forall x :: x in wanted ==> x in h)
             && Counted(h, wanted)
    requires Searching(h, rank, queue, matches, wanted, amount, itemList, count) && amount <= MAX_AMOUNT && count >= 0
    requires queue != [] && queue[0] == item && item in h
    ensures queue' == After(h, queue) && Frontier(h, rank, queue')
            && |Reach(h, rank, queue')| < |Reach(h, rank, queue)| && count' >= 0
    ensures if enough then Collected(h, wanted, amount, itemList')
            else Searching(h, rank, queue', matches, wanted, amount, itemList', count')
  {
    queue' := After(h, queue);
    itemList', count', enough := itemList, count, false;
    if !(item.isContainer && item.itemlist != []) && matches(item) {
      itemList' := [item] + itemList;
      count' := (count + item.count) % BITS16;
      enough := count' >= amount;
    }
    ConsideredOutcome(h, rank, queue, matches, wanted, amount, itemList, count, enough, itemList', count');
  }

  lemma ConsideredOutcome(h: Heap, rank: map<Item, nat>, queue: seq<Item>, matches: Item -> bool, wanted: seq<Item>,
                          amount: nat,
                          itemList: seq<Item>, count: int, enough: bool, itemList': seq<Item>, count': int)
    requires Linked(h) && Ranked(h, rank) && (forall x :: x in wanted ==> x in h) && Counted(h, wanted)
    requires Searching(h, rank, queue, matches, wanted, amount, itemList, count) && amount <= MAX_AMOUNT && count >= 0
    requires queue != [] && queue[0] in h
    requires if Considered(h, queue[0], matches)
             then itemList' == [queue[0]] + itemList && count' == (count + h[queue[0]].count) % BITS16
                 && enough == (count' >= amount)
             else itemList' == itemList && count' == count && !enough
    ensures Frontier(h, rank, After(h, queue)) && |Reach(h, rank, After(h, queue))| < |Reach(h, rank, queue)|
            && count' >= 0
    ensures if enough then Collected(h, wanted, amount, itemList')
            else Searching(h, rank, After(h, queue), matches, wanted, amount, itemList', count')
  {
    if Considered(h, queue[0], matches) {
      var total := count + h[queue[0]].count;
      FoundOutcome(h, rank, queue, matches, wanted, amount, itemList, count, itemList', total);
      assert count' == total;
    } else {
      assert itemList' == itemList && count' == count;
      NotFound(h, rank, queue, matches, wanted, amount, itemList', count');
    }
  }

  /** Containers with something in them. */
  ghost predicate Filled(h: Heap, containers: seq<Item>) {
    forall c :: c in containers ==> c in h && h[c].list != []
  }

  lemma QueueStep(h: Heap, container: Item, containers: seq<Item>, k: nat, item: Item)
    requires Linked(h) && container in h && Filled(h, containers) && k < |h[container].list|
             && item == h[container].list[k]
    ensures item in h
    ensures var queue, next := h[container].list[k..] + Children(h, containers),
            if item.isContainer && h[item].list != [] then containers + [item] else containers;
            queue != [] && queue[0] == item && Filled(h, next)
                && After(h, queue) == h[container].list[k + 1..] + Children(h, next)
  {
    var over := [container] + containers;
    AdvancedQueue(h, over, k, item);
    assert over[1..] == containers;
    assert (over + [item])[1..] == containers + [item];
  }

  // Taking what was collected.

  /** How many units each stack gives. */
  function Shares(counts: seq<int>, amount: nat): (s: seq<int>)
    requires forall k :: 0 <= k < |counts| ==> counts[k] >= 0
    ensures |s| == |counts| && forall k :: 0 <= k < |s| ==> 0 <= s[k] <= counts[k]
  {
    if counts == [] then []
    else [Min(amount, counts[0])] + Shares(counts[1..], amount - Min(amount, counts[0]))
  }

  function Sum(s: seq<int>): int {
    if s == [] then 0 else s[0] + Sum(s[1..])
  }

  /** Together they give exactly the amount when they hold it. */
  lemma {:induction false} SharesAddUp(counts: seq<int>, amount: nat)
    requires (forall k :: 0 <= k < |counts| ==> counts[k] >= 0) && Sum(counts) >= amount
    ensures Sum(Shares(counts, amount)) == amount
  {
    if counts != [] {
      var rest, first := counts[1..], Min(amount, counts[0]);
      assert forall k :: 0 <= k < |rest| ==> rest[k] == counts[k + 1];
      SumIsPositive(rest);
      SharesAddUp(rest, amount - first);
      assert Shares(counts, amount)[1..] == Shares(rest, amount - first);
    }
  }

  lemma {:induction false} SumIsPositive(counts: seq<int>)
    requires forall k :: 0 <= k < |counts| ==> counts[k] >= 0
    ensures Sum(counts) >= 0
  {
    if counts != [] {
      assert forall k :: 0 <= k < |counts[1..]| ==> counts[1..][k] == counts[k + 1];
      SumIsPositive(counts[1..]);
    }
  }

  /** A stack is touched only when all before it have given everything. */
  lemma {:induction false} SharesInOrder(counts: seq<int>, amount: nat, j: nat, k: nat)
    requires (forall i :: 0 <= i < |counts| ==> counts[i] >= 0) && j < k < |counts| && Shares(counts, amount)[k] > 0
    ensures Shares(counts, amount)[j] == counts[j]
  {
    var rest, first := counts[1..], Min(amount, counts[0]);
    assert forall i :: 0 <= i < |rest| ==> rest[i] == counts[i + 1];
    assert Shares(counts, amount)[k] == Shares(rest, amount - first)[k - 1];
    if amount == first {
      NothingShared(rest);
    }
    if j > 0 {
      SharesInOrder(rest, amount - first, j - 1, k - 1);
    }
  }

  lemma {:induction false} NothingShared(counts: seq<int>)
    requires forall k :: 0 <= k < |counts| ==> counts[k] >= 0
    ensures forall k :: 0 <= k < |counts| ==> Shares(counts, 0)[k] == 0
  {
    if counts != [] {
      assert forall k :: 0 <= k < |counts[1..]| ==> counts[1..][k] == counts[k + 1];
      NothingShared(counts[1..]);
    }
  }

  function Counts(h: Heap, list: seq<Item>): (c: seq<int>)
    requires forall x :: x in list ==> x in h
    ensures |c| == |list| && forall k :: 0 <= k < |c| ==> c[k] == h[list[k]].count
  {
    if list == [] then [] else [h[list[0]].count] + Counts(h, list[1..])
  }

  lemma {:induction false} SumOfCounts(h: Heap, list: seq<Item>)
    requires forall x :: x in list ==> x in h
    ensures Sum(Counts(h, list)) == Total(h, list)
  {
    if list != [] {
      SumOfCounts(h, list[1..]);
      assert Counts(h, list)[1..] == Counts(h, list[1..]);
    }
  }

  /** When every item counts once, as many are collected as were asked for. */
  lemma CollectedSingly(h: Heap, wanted: seq<Item>, amount: nat, list: seq<Item>)
    requires (forall x :: x in wanted ==> x in h) && Collected(h, wanted, amount, list) && amount > 0 && list != []
    requires forall x :: x in wanted ==> h[x].count == 1
    ensures |list| == amount
  {
    assert forall x :: x in list ==> x in wanted[..|list|];
    TotalOfSingles(h, list);
    TotalOfSingles(h, list[1..]);
  }

  lemma {:induction false} TotalOfSingles(h: Heap, list: seq<Item>)
    requires forall x :: x in list ==> x in h && h[x].count == 1
    ensures Total(h, list) == |list|
  {
    if list != [] {
      TotalOfSingles(h, list[1..]);
    }
  }

  /** One item after it gave its share: untouched, smaller, or gone. */
  ghost predicate Gave(h: Heap, h': Heap, x: Item, share: int)
    requires x in h && x in h'
  {
    if share == h[x].count then h'[x].parent == null
    else h'[x].count == h[x].count - share && h'[x].parent == h[x].parent
  }

  ghost predicate StacksToTake(h: Heap, list: seq<Item>) {
    NoDuplicates(list) && forall x :: x in list ==>
        x in h && h[x].parent != null && h[x].kind.stackable && h[x].count >= 1
  }

  lemma SharesFrom(counts: seq<int>, all: seq<int>, k: nat, amount: nat)
    requires (forall i :: 0 <= i < |counts| ==> counts[i] >= 0) && k < |counts| && |all| == |counts|
    requires Shares(counts[k..], amount) == all[k..]
    ensures all[k] == Min(amount, counts[k]) <= amount
    ensures Shares(counts[k + 1..], amount - all[k]) == all[k + 1..]
  {
    assert counts[k..][0] == counts[k] && counts[k..][1..] == counts[k + 1..];
    assert all[k..][0] == all[k] && all[k..][1..] == all[k + 1..];
  }

  lemma SharesOfNothing(counts: seq<int>, all: seq<int>, k: nat)
    requires (forall i :: 0 <= i < |counts| ==> counts[i] >= 0) && k <= |counts| && |all| == |counts|
    requires Shares(counts[k..], 0) == all[k..]
    ensures forall j :: k <= j < |counts| ==> all[j] == 0
  {
    assert forall i :: 0 <= i < |counts[k..]| ==> counts[k..][i] == counts[k + i];
    NothingShared(counts[k..]);
    forall j | k <= j < |counts|
      ensures all[j] == 0
    {
      assert all[j] == all[k..][j - k];
    }
  }

  ghost predicate Untouched(h: Heap, h': Heap, x: Item)
    requires x in h && x in h'
  {
    h'[x].parent == h[x].parent && h'[x].count == h[x].count && h'[x].kind == h[x].kind
  }

  /** internalRemoveItem: units of an item leave the container that holds it. */
  method RemoveItem(g: Game, x: Item, count: nat)
    requires g.Valid() && x in g.items && x.parent != null && (x.kind.stackable ==> 1 <= count <= x.count)
    modifies g.items
    ensures g.Valid()
    ensures var h, h' := old(View(g.items)), View(g.items);
            && (forall y :: y in h && y != x ==> y in h' && Untouched(h, h', y))
            && Gave(h, h', x, if h[x].kind.stackable then count else h[x].count)
  {
    assert LinkedAt(View(g.items), x);
    g.Take(x.parent, x, count);
  }

  /** From place k on the shares are those of what is still to be taken. */
  ghost predicate StillToGive(counts: seq<int>, all: seq<int>, k: nat, amount: int) {
    && (forall i :: 0 <= i < |counts| ==> counts[i] >= 0) && k <= |counts| == |all|
    && amount >= 0 && Shares(counts[k..], amount) == all[k..]
  }

  lemma GivesNext(counts: seq<int>, all: seq<int>, k: nat, amount: int)
    requires StillToGive(counts, all, k, amount) && k < |counts|
    ensures all[k] == Min(amount, counts[k])
    ensures forall next, rest :: next == k + 1 && rest == amount - all[k] ==> StillToGive(counts, all, next, rest)
  {
    SharesFrom(counts, all, k, amount);
  }

  /** The first k stacks have given their shares, the others are untouched. */
  ghost predicate GivenUpTo(h: Heap, v: Heap, list: seq<Item>, all: seq<int>, k: nat) {
    && k <= |list| == |all| && (forall x :: x in list ==> x in h && x in v)
    && (forall j :: 0 <= j < k ==> Gave(h, v, list[j], all[j]))
    && (forall j :: k <= j < |list| ==> Untouched(h, v, list[j]))
    && OthersUntouched(h, v, list)
  }

  /** Nothing is taken but from these items. */
  ghost predicate OthersUntouched(h: Heap, v: Heap, list: seq<Item>) {
    h.Keys == v.Keys && forall y {:trigger h[y]} :: y in h && y !in list ==> Untouched(h, v, y)
  }

  lemma OneMoreGave(h: Heap, u: Heap, v: Heap, list: seq<Item>, all: seq<int>, k: nat, item: Item)
    requires k < |list| && NoDuplicates(list) && item == list[k] && GivenUpTo(h, u, list, all, k)
    requires u.Keys == v.Keys && (forall y :: y in u && y != item ==> Untouched(u, v, y)) && item in v
             && Gave(u, v, item, all[k])
    ensures GivenUpTo(h, v, list, all, k + 1)
  {
    assert forall j :: 0 <= j < |list| && j != k ==> list[j] != item && list[j] in list;
    assert Untouched(h, u, item) && item in list;
    forall y | y in h && y !in list
      ensures Untouched(h, v, y)
    {
      assert Untouched(h, u, y) && Untouched(u, v, y);
    }
  }

  /** The stacks left when the amount is reached give nothing. */
  lemma AllGave(h: Heap, v: Heap, list: seq<Item>, counts: seq<int>, all: seq<int>, k: nat, amount: int)
    requires GivenUpTo(h, v, list, all, k) && |counts| == |list|
             && (forall i :: 0 <= i < |counts| ==> counts[i] == h[list[i]].count >= 1)
    requires StillToGive(counts, all, k, amount) && (k < |list| ==> amount == 0)
    ensures GivenUpTo(h, v, list, all, |list|)
  {
    if k < |list| {
      SharesOfNothing(counts, all, k);
      forall j | k <= j < |list|
        ensures Gave(h, v, list[j], all[j])
      {
        assert Untouched(h, v, list[j]);
      }
    }
  }

  /** Where the loop stands. */
  ghost predicate Taking(h: Heap, v: Heap, list: seq<Item>, counts: seq<int>, all: seq<int>, k: nat, amount: int) {
    && GivenUpTo(h, v, list, all, k) && StillToGive(counts, all, k, amount)
    && |counts| == |list| && (forall i :: 0 <= i < |counts| ==> counts[i] == h[list[i]].count >= 1)
    && NoDuplicates(list)
  }

  lemma TakingNext(h: Heap, u: Heap, v: Heap, list: seq<Item>, counts: seq<int>, all: seq<int>, k: nat, amount: int,
                   k': nat, amount': int)
    requires Taking(h, u, list, counts, all, k, amount) && k < |list| && k' == k + 1
             && amount' == amount - Min(amount, counts[k])
    requires u.Keys == v.Keys && list[k] in v && Gave(u, v, list[k], Min(amount, counts[k]))
    requires forall y :: y in u && y != list[k] ==> Untouched(u, v, y)
    ensures Taking(h, v, list, counts, all, k', amount')
  {
    GivesNext(counts, all, k, amount);
    OneMoreGave(h, u, v, list, all, k, list[k]);
  }

  lemma TakingBegins(h: Heap, list: seq<Item>, counts: seq<int>, all: seq<int>, amount: nat)
    requires StacksToTake(h, list) && counts == Counts(h, list) && (forall i :: 0 <= i < |counts| ==> counts[i] >= 0)
             && all == Shares(counts, amount)
    ensures Taking(h, h, list, counts, all, 0, amount)
  {
    assert counts[0..] == counts && all[0..] == all;
  }

  /** An item gives what is still to be taken, or all it has. */
  method TakeShare(g: Game, item: Item, tmpAmount: nat) returns (left: nat)
    requires g.Valid() && item in g.items && item.parent != null && item.kind.stackable && item.count >= 1
             && tmpAmount > 0
    modifies g.items
    ensures g.Valid()
    ensures var h, h' := old(View(g.items)), View(g.items);
            && (forall y :: y in h && y != item ==> y in h' && Untouched(h, h', y))
            && Gave(h, h', item, Min(tmpAmount, h[item].count)) && left == tmpAmount - Min(tmpAmount, h[item].count)
  {
    var removeCount := if tmpAmount < item.count then tmpAmount else item.count;
    left := tmpAmount - removeCount;
    RemoveItem(g, item, removeCount);
  }

  /** Exactly the amount is taken from the stacks, in the order of the list. */
  method TakeStacks(g: Game, itemList: seq<Item>, amount: nat)
    requires g.Valid() && StacksToTake(View(g.items), itemList)
    requires 0 < amount <= Total(View(g.items), itemList)
    modifies g.items
    ensures g.Valid()
    ensures var h := old(View(g.items));
            && OthersUntouched(h, View(g.items), itemList)
            && forall k :: 0 <= k < |itemList| ==>
                  Gave(h, View(g.items), itemList[k], Shares(Counts(h, itemList), amount)[k])
  {
    ghost var h, counts := View(g.items), Counts(View(g.items), itemList);
    ghost var all := Shares(counts, amount);
    var tmpAmount: nat := amount;
    var k: nat := 0;
    TakingBegins(h, itemList, counts, all, amount);
    while k < |itemList| && tmpAmount > 0
      invariant g.Valid() && k <= |itemList|
      invariant Taking(h, View(g.items), itemList, counts, all, k, tmpAmount)
    {
      ghost var u, before := View(g.items), tmpAmount;
      var item := itemList[k];
      assert Untouched(h, u, item) && item in itemList;
      tmpAmount := TakeShare(g, item, tmpAmount);
      TakingNext(h, u, View(g.items), itemList, counts, all, k, before, k + 1, tmpAmount);
      k := k + 1;
    }
    AllGave(h, View(g.items), itemList, counts, all, k, tmpAmount);
  }

  /** Of a ware that does not stack, every collected item is taken. */
  method TakeAll(g: Game, itemList: seq<Item>)
    requires g.Valid() && NoDuplicates(itemList)
    requires forall x :: x in itemList ==> x in g.items && x.parent != null && !x.kind.stackable && x.count >= 0
    modifies g.items
    ensures g.Valid()
    ensures forall x :: x in itemList ==> x.parent == null
    ensures OthersUntouched(old(View(g.items)), View(g.items), itemList)
  {
    ghost var h := View(g.items);
    var k: nat := 0;
    while k < |itemList|
      invariant k <= |itemList| && g.Valid() && OthersUntouched(h, View(g.items), itemList)
      invariant forall j :: 0 <= j < k ==> View(g.items)[itemList[j]].parent == null
      invariant forall j :: k <= j < |itemList| ==> Untouched(h, View(g.items), itemList[j])
    {
      ghost var h1 := View(g.items);
      var item := itemList[k];
      assert Untouched(h, h1, item) && item in itemList;
      RemoveItem(g, item, item.count);
      assert forall j :: 0 <= j < |itemList| && j != k ==>
             itemList[j] != item && Untouched(h1, View(g.items), itemList[j]);
      k := k + 1;
    }
  }

  // What the whole sale does to the depot.

  /** All items of the ware inside the depot. */
  ghost function WareSet(h: Heap, rank: map<Item, nat>, depotLocker: Item, matches: Item -> bool): set<Item>
    requires Ranked(h, rank)
  {
    set i | i in h && i in Inside(h, rank, depotLocker) && matches(i)
  }

  ghost function SetTotal(h: Heap, s: set<Item>): int
    requires s <= h.Keys
  {
    if s == {} then 0
    else
      var x :| x in s;
      h[x].count + SetTotal(h, s - {x})
  }

  lemma {:induction false} SetTotalWithout(h: Heap, s: set<Item>, x: Item)
    requires s <= h.Keys && x in s
    ensures SetTotal(h, s) == h[x].count + SetTotal(h, s - {x})
  {
    var y :| y in s && SetTotal(h, s) == h[y].count + SetTotal(h, s - {y});
    if y != x {
      SetTotalWithout(h, s - {y}, x);
      SetTotalWithout(h, s - {x}, y);
      assert s - {y} - {x} == s - {x} - {y};
    }
  }

  lemma {:induction false} SetTotalSame(h: Heap, h': Heap, s: set<Item>)
    requires s <= h.Keys && s <= h'.Keys && forall x :: x in s ==> h'[x].count == h[x].count
    ensures SetTotal(h', s) == SetTotal(h, s)
  {
    if s != {} {
      var x :| x in s;
      SetTotalWithout(h, s, x);
      SetTotalWithout(h', s, x);
      SetTotalSame(h, h', s - {x});
    }
  }

  /** A list of different items makes up its part of the set's total. */
  lemma {:induction false} SetTotalOfList(h: Heap, s: set<Item>, list: seq<Item>)
    requires s <= h.Keys && NoDuplicates(list) && forall x :: x in list ==> x in s
    ensures SetTotal(h, s) == SetTotal(h, s - (set x | x in list)) + Total(h, list)
  {
    if list == [] {
      assert s - (set x | x in list) == s;
    } else {
      assert list[0] !in list[1..];
      SetTotalWithout(h, s, list[0]);
      SetTotalOfList(h, s - {list[0]}, list[1..]);
      assert s - {list[0]} - (set x | x in list[1..]) == s - (set x | x in list);
    }
  }

  /** The items of the list that did not give all they have. */
  function Kept(h: Heap, list: seq<Item>, shares: seq<int>): (kept: seq<Item>)
    requires |shares| == |list| && forall x :: x in list ==> x in h
    ensures forall x :: x in kept ==> x in list
  {
    if list == [] then []
    else (if shares[0] != h[list[0]].count then [list[0]] else []) + Kept(h, list[1..], shares[1..])
  }

  ghost predicate Given(h: Heap, h': Heap, list: seq<Item>, shares: seq<int>) {
    && |shares| == |list| && NoDuplicates(list) && (forall x :: x in list ==> x in h && x in h')
    && forall k :: 0 <= k < |list| ==> Gave(h, h', list[k], shares[k])
  }

  lemma GivenRest(h: Heap, h': Heap, list: seq<Item>, shares: seq<int>)
    requires list != [] && Given(h, h', list, shares)
    ensures Given(h, h', list[1..], shares[1..]) && list[0] !in list[1..]
  {
    assert forall k :: 0 <= k < |list[1..]| ==> list[1..][k] == list[k + 1] && shares[1..][k] == shares[k + 1];
  }

  lemma {:induction false} KeptTotal(h: Heap, h': Heap, list: seq<Item>, shares: seq<int>)
    requires Given(h, h', list, shares)
    ensures NoDuplicates(Kept(h, list, shares))
    ensures Total(h', Kept(h, list, shares)) == Total(h, list) - Sum(shares)
    ensures forall k :: 0 <= k < |list| ==> (list[k] in Kept(h, list, shares) <==> shares[k] != h[list[k]].count)
  {
    if list != [] {
      GivenRest(h, h', list, shares);
      KeptTotal(h, h', list[1..], shares[1..]);
      var rest := Kept(h, list[1..], shares[1..]);
      assert list[0] !in rest;
      assert Gave(h, h', list[0], shares[0]);
      if shares[0] != h[list[0]].count {
        assert Kept(h, list, shares) == [list[0]] + rest;
      } else {
        assert Kept(h, list, shares) == rest;
      }
      forall k | 0 <= k < |list|
        ensures list[k] in Kept(h, list, shares) <==> shares[k] != h[list[k]].count
      {
        if k > 0 {
          assert list[k] == list[1..][k - 1] && shares[k] == shares[1..][k - 1];
        }
      }
    }
  }

  /** Where nothing but items without contents leave, what is inside what stays the same for all others. */
  lemma {:induction false} UnderStays(h: Heap, h': Heap, rank: map<Item, nat>, gone: set<Item>, y: Item, top: Item)
    requires Linked(h) && Ranked(h, rank) && Ranked(h', rank) && h.Keys == h'.Keys && y in h && y !in gone
    requires forall z :: z in h && z !in gone ==> h'[z].parent == h[z].parent
    requires forall z :: z in gone ==> z in h && h[z].list == []
    ensures Under(h', rank, y, top) <==> Under(h, rank, y, top)
    decreases rank[y]
  {
    assert RankedAt(h, rank, y) && LinkedAt(h, y);
    if h[y].parent != null {
      UnderStays(h, h', rank, gone, h[y].parent, top);
    }
  }

  /** When items of the ware without contents give their shares, the depot holds exactly their sum less. */
  lemma DepotLowered(h: Heap, h': Heap, rank: map<Item, nat>, depotLocker: Item, matches: Item -> bool,
                     list: seq<Item>, shares: seq<int>)
    requires Linked(h) && Ranked(h, rank) && Ranked(h', rank) && depotLocker in h
    requires Given(h, h', list, shares) && OthersUntouched(h, h', list)
    requires forall x :: x in list ==> x in WareSet(h, rank, depotLocker, matches) && h[x].list == []
    ensures SetTotal(h', WareSet(h', rank, depotLocker, matches))
            == SetTotal(h, WareSet(h, rank, depotLocker, matches)) - Sum(shares)
  {
    var was, now := WareSet(h, rank, depotLocker, matches), WareSet(h', rank, depotLocker, matches);
    var all, kept := (set x | x in list), Kept(h, list, shares);
    KeptTotal(h, h', list, shares);
    var gone := set x | x in list && x !in kept;
    forall z | z in h && z !in gone
      ensures h'[z].parent == h[z].parent
    {
      if z in list {
        var k :| 0 <= k < |list| && list[k] == z;
        assert Gave(h, h', list[k], shares[k]);
      } else {
        assert Untouched(h, h', z);
      }
    }
    forall z | z in h
      ensures z in now <==> z in was && z !in gone
    {
      if z in gone {
        var k :| 0 <= k < |list| && list[k] == z;
        assert Gave(h, h', list[k], shares[k]);
      } else {
        UnderStays(h, h', rank, gone, z, depotLocker);
      }
    }
    SetTotalOfList(h, was, list);
    SetTotalOfList(h', now, kept);
    assert now - (set x | x in kept) == was - all;
    forall x | x in was - all
      ensures h'[x].count == h[x].count
    {
      assert Untouched(h, h', x);
    }
    SetTotalSame(h, h', was - all);
  }

  /** The wares of one item type: they all stack, or all count once. */
  ghost predicate OneType(h: Heap, wares: seq<Item>, stackable: bool)
    requires forall x :: x in wares ==> x in h
  {
    forall x :: x in wares ==>
        h[x].kind.stackable == stackable && 1 <= h[x].count < 256 && (!stackable ==> h[x].count == 1)
  }

  lemma WareIsLeaf(h: Heap, rank: map<Item, nat>, depotLocker: Item, matches: Item -> bool, x: Item)
    requires Linked(h) && Ranked(h, rank) && depotLocker in h && x in Wares(h, rank, depotLocker, matches)
    ensures x in WareSet(h, rank, depotLocker, matches) && h[x].list == [] && h[x].parent != null
  {
    assert LinkedAt(h, x) && Considered(h, x, matches);
    assert x in Inside(h, rank, depotLocker) && Under(h, rank, x, depotLocker);
  }

  lemma CollectedAreWares(h: Heap, rank: map<Item, nat>, depotLocker: Item, matches: Item -> bool, amount: nat,
                          list: seq<Item>)
    requires Linked(h) && Ranked(h, rank) && depotLocker in h
    requires Collected(h, Wares(h, rank, depotLocker, matches), amount, list)
    ensures NoDuplicates(list)
    ensures forall x :: x in list ==>
            x in Wares(h, rank, depotLocker, matches) && x in WareSet(h, rank, depotLocker, matches)
                                      && h[x].list == [] && h[x].parent != null
  {
    CollectedOnce(h, Wares(h, rank, depotLocker, matches), amount, list);
    forall x | x in list
      ensures x in Wares(h, rank, depotLocker, matches) && x in WareSet(h, rank, depotLocker, matches)
              && h[x].list == [] && h[x].parent != null
    {
      WareIsLeaf(h, rank, depotLocker, matches, x);
    }
  }

  /** An offer is served from a depot: when it holds enough of the ware, exactly the amount goes and nothing
      but the ware; else nothing happens. */
  method Serve(g: Game, depotLocker: Item, amount: nat, matches: Item -> bool, stackable: bool) returns (served: bool)
    requires g.Valid() && depotLocker in g.items && 0 < amount <= MAX_AMOUNT
    requires OneType(View(g.items), Wares(View(g.items), g.rank, depotLocker, matches), stackable)
    modifies g.items
    ensures g.Valid()
    ensures var h, h' := old(View(g.items)), View(g.items);
            var wares := Wares(h, g.rank, depotLocker, matches);
            && served == (Total(h, wares) >= amount)
            && (!served ==> h' == h)
            && (served ==> OthersUntouched(h, h', wares)
                           && SetTotal(h', WareSet(h', g.rank, depotLocker, matches))
                              == SetTotal(h, WareSet(h, g.rank, depotLocker, matches)) - amount)
  {
    ghost var h, rank := View(g.items), g.rank;
    ghost var wares := Wares(h, rank, depotLocker, matches);
    var itemList := GetMarketItemList(depotLocker, amount, matches, g.items, rank, h);
    CollectedAreWares(h, rank, depotLocker, matches, amount, itemList);
    if itemList == [] {
      return false;
    }
    ghost var shares := TakeCollected(g, itemList, amount, stackable, h, wares);
    DepotServed(h, View(g.items), rank, depotLocker, matches, amount, itemList, shares);
    served := true;
  }

  /** What was collected is taken, by one loop or the other; the shares add up to the amount. */
  method TakeCollected(g: Game, itemList: seq<Item>, amount: nat, stackable: bool, ghost h: Heap,
                       ghost wares: seq<Item>)
    returns (ghost shares: seq<int>)
    requires g.Valid() && View(g.items) == h && (forall x :: x in wares ==> x in h) && OneType(h, wares, stackable)
    requires Collected(h, wares, amount, itemList) && itemList != [] && amount > 0
    requires NoDuplicates(itemList) && forall x :: x in itemList ==> x in wares && h[x].parent != null
    modifies g.items
    ensures g.Valid()
    ensures Given(h, View(g.items), itemList, shares) && OthersUntouched(h, View(g.items), itemList)
            && Sum(shares) == amount
  {
    SumOfCounts(h, itemList);
    if stackable {
      shares := Shares(Counts(h, itemList), amount);
      SharesAddUp(Counts(h, itemList), amount);
      TakeStacks(g, itemList, amount);
    } else {
      shares := Counts(h, itemList);
      CollectedSingly(h, wares, amount, itemList);
      TotalOfSingles(h, itemList);
      TakeAll(g, itemList);
    }
  }

  lemma DepotServed(h: Heap, h': Heap, rank: map<Item, nat>, depotLocker: Item, matches: Item -> bool, amount: nat,
                    list: seq<Item>, shares: seq<int>)
    requires Linked(h) && Ranked(h, rank) && Ranked(h', rank) && depotLocker in h
    requires Collected(h, Wares(h, rank, depotLocker, matches), amount, list)
    requires Given(h, h', list, shares) && OthersUntouched(h, h', list) && Sum(shares) == amount
    ensures SetTotal(h', WareSet(h', rank, depotLocker, matches))
            == SetTotal(h, WareSet(h, rank, depotLocker, matches)) - amount
    ensures OthersUntouched(h, h', Wares(h, rank, depotLocker, matches))
  {
    CollectedAreWares(h, rank, depotLocker, matches, amount, list);
    DepotLowered(h, h', rank, depotLocker, matches, list, shares);
  }
}
