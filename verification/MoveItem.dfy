/** Moving items between containers (src/game.cpp, Game::internalMoveItem, with the query methods of
    src/container.cpp). */
module MoveItem {
  import opened Containers

  datatype ReturnValue = NoError | NotPossible | CannotPickup | ThisIsImpossible | ContainerNotEnoughRoom
                       | NotMoveable | NotEnoughRoom | NotEnoughCapacity

  datatype Flags = Flags(noLimit: bool, ignoreNotMoveable: bool, ignoreAutoStack: bool)

  const NO_FLAGS := Flags(false, false, false)

  const INDEX_WHEREEVER := -1
  const MOVE_UP := 254
  const ADD_WHEREEVER := 255
  const MAP_MAX_LAYERS := 16

  function Min(a: int, b: int): int {
    if a < b then a else b
  }

  // Stacks.

  ghost predicate StackAt(h: Heap, i: Item)
    requires i in h
  {
    && (h[i].kind.stackable && h[i].parent != null ==> 1 <= h[i].count <= MAX_STACK)
    && (i.isContainer ==> !h[i].kind.stackable)
    && !i.pagination
  }

  /** Every stack that lies in a container holds 1 to 100; containers do not stack. */
  ghost predicate Stacked(h: Heap) {
    forall i {:trigger StackAt(h, i)} :: i in h ==> StackAt(h, i)
  }

  // The ledger.

  /** Units of a kind in a list of items. */
  ghost function Units(h: Heap, list: seq<Item>, kind: Kind): int
    requires forall x :: x in list ==> x in h
  {
    if list == [] then 0 else (if h[list[0]].kind == kind then h[list[0]].count else 0) + Units(h, list[1..], kind)
  }

  /** Of all containers only c's ledger changes: it gains delta units of the one kind. */
  ghost predicate OnlyGain(h: Heap, h': Heap, c: Item, kind: Kind, delta: int)
    requires Linked(h) && Linked(h')
  {
    h.Keys <= h'.Keys && forall d, k {:trigger UnitsIn(h', d, k)} :: d in h ==>
      UnitsIn(h', d, k) == UnitsIn(h, d, k) + if d == c && k == kind then delta else 0
  }

  ghost function UnitsIn(h: Heap, d: Item, kind: Kind): int
    requires Linked(h) && d in h
  {
    assert LinkedAt(h, d);
    Units(h, h[d].list, kind)
  }

  lemma {:induction false} SameUnits(h: Heap, h': Heap, list: seq<Item>, kind: Kind)
    requires forall x :: x in list ==> x in h && x in h' && h'[x].kind == h[x].kind && h'[x].count == h[x].count
    ensures Units(h', list, kind) == Units(h, list, kind)
  {
    if list != [] {
      SameUnits(h, h', list[1..], kind);
    }
  }

  lemma {:induction false} OneRecounted(h: Heap, h': Heap, list: seq<Item>, x: Item, kind: Kind)
    requires NoDuplicates(list) && x in list
    requires forall y :: y in list ==>
             y in h && y in h' && h'[y].kind == h[y].kind && (y != x ==> h'[y].count == h[y].count)
    ensures Units(h', list, kind) == Units(h, list, kind) + if h[x].kind == kind then h'[x].count - h[x].count else 0
  {
    if list[0] == x {
      assert x !in list[1..];
      SameUnits(h, h', list[1..], kind);
    } else {
      OneRecounted(h, h', list[1..], x, kind);
    }
  }

  lemma {:induction false} UnitsWithout(h: Heap, list: seq<Item>, x: Item, kind: Kind)
    requires x in list && forall y :: y in list ==> y in h
    ensures forall y :: y in Without(list, x) ==> y in list
    ensures Units(h, Without(list, x), kind) == Units(h, list, kind) - if h[x].kind == kind then h[x].count else 0
  {
    if list[0] != x {
      UnitsWithout(h, list[1..], x, kind);
      assert Without(list, x)[1..] == Without(list[1..], x);
    }
  }

  lemma RecountGain(h: Heap, x: Item, c: Item, count: int, h': Heap)
    requires Linked(h) && Linked(h') && x in h && h[x].parent == c && c in h
    requires SameButWeights(Changed(h, x, h[x].kind, count), h')
    ensures OnlyGain(h, h', c, h[x].kind, count - h[x].count)
  {
    forall d, k | d in h
      ensures UnitsIn(h', d, k) == UnitsIn(h, d, k) + if d == c && k == h[x].kind then count - h[x].count else 0
    {
      assert LinkedAt(h, d) && LinkedAt(h', d) && LinkedAt(h, x);
      if d == c {
        OneRecounted(h, h', h[d].list, x, k);
      } else {
        SameUnits(h, h', h[d].list, k);
      }
    }
  }

  lemma DetachGain(h: Heap, x: Item, c: Item, h': Heap)
    requires Linked(h) && Linked(h') && x in h && h[x].parent == c && c in h
    requires SameButWeights(Detached(h, c, x, Without(h[c].list, x)), h')
    ensures OnlyGain(h, h', c, h[x].kind, -h[x].count)
  {
    forall d, k | d in h
      ensures UnitsIn(h', d, k) == UnitsIn(h, d, k) + if d == c && k == h[x].kind then -h[x].count else 0
    {
      assert LinkedAt(h, d) && LinkedAt(h', d) && LinkedAt(h, x);
      if d == c {
        UnitsWithout(h, h[d].list, x, k);
      }
      SameUnits(h, h', h'[d].list, k);
    }
  }

  lemma AttachGain(h: Heap, x: Item, c: Item, h': Heap)
    requires Linked(h) && Linked(h') && x in h && c in h
    requires SameButWeights(Attached(h, c, x, [x] + h[c].list), h')
    ensures OnlyGain(h, h', c, h[x].kind, h[x].count)
  {
    forall d, k | d in h
      ensures UnitsIn(h', d, k) == UnitsIn(h, d, k) + if d == c && k == h[x].kind then h[x].count else 0
    {
      assert LinkedAt(h, d) && LinkedAt(h', d);
      SameUnits(h, h', h[d].list, k);
      if d == c {
        assert h'[d].list[1..] == h[d].list;
      }
    }
  }

  /** What the holding limits of the topmost container and the carrier around it answer. */
  type Limits = (Item, Item) -> ReturnValue

  // The queries.

  ghost predicate AddAllowed(h: Heap, rank: map<Item, nat>, c: Item, addIndex: int, x: Item, flags: Flags,
                             limits: Limits)
    requires Ranked(h, rank) && c in h && x in h
  {
    && c.unlocked && h[x].kind.pickupable && !Under(h, rank, c, x)
    && (flags.noLimit || addIndex != INDEX_WHEREEVER || |h[c].list| < c.capacity || c.pagination)
    && limits(c, x) == NoError
  }

  /** Room on the stacks of x's kind in a list. */
  ghost function StackRoom(h: Heap, list: seq<Item>, x: Item): nat
    requires x in h && forall y :: y in list ==> y in h
  {
    if list == [] then 0
    else RoomOn(h, list[0], x) + StackRoom(h, list[1..], x)
  }

  ghost function RoomOn(h: Heap, y: Item, x: Item): nat
    requires x in h && y in h
  {
    if y != x && h[y].kind == h[x].kind && h[y].count < MAX_STACK then MAX_STACK - h[y].count else 0
  }

  lemma {:induction false} StackRoomSnoc(h: Heap, list: seq<Item>, y: Item, x: Item)
    requires x in h && y in h && forall z :: z in list ==> z in h
    ensures StackRoom(h, list + [y], x) == StackRoom(h, list, x) + RoomOn(h, y, x)
  {
    if list == [] {
      assert [] + [y] == [y];
    } else {
      assert (list + [y])[1..] == list[1..] + [y];
      StackRoomSnoc(h, list[1..], y, x);
    }
  }

  /** How many units (or, for what does not stack, slots) the container has room for. */
  ghost function MaxCount(h: Heap, rank: map<Item, nat>, c: Item, index: int, x: Item, count: nat, flags: Flags,
                          limits: Limits): nat
    requires Linked(h) && Ranked(h, rank) && c in h && x in h
  {
    assert LinkedAt(h, c);
    var freeSlots := Max(c.capacity - |h[c].list|, 0);
    var accepted := AddAllowed(h, rank, c, 0, x, flags, limits);
    if flags.noLimit || c.pagination then Max(1, count)
    else if !h[x].kind.stackable then freeSlots
    else if index == INDEX_WHEREEVER then freeSlots * MAX_STACK + if accepted then StackRoom(h, h[c].list, x) else 0
    else if 0 <= index < |h[c].list| && h[h[c].list[index]].kind == h[x].kind && h[h[c].list[index]].count < MAX_STACK
        && accepted
      then freeSlots * MAX_STACK + (MAX_STACK - h[h[c].list[index]].count)
    else freeSlots * MAX_STACK
  }

  ghost predicate RemoveAllowed(h: Heap, c: Item, x: Item, count: int, flags: Flags)
    requires c in h && x in h
  {
    && x in h[c].list && count != 0 && !(h[x].kind.stackable && count > h[x].count)
    && (h[x].kind.moveable || flags.ignoreNotMoveable)
  }

  /** Where a dropped item goes: which container, at which index, onto which item. */
  datatype Target = Target(dest: Item, index: int, item: Item?)

  ghost predicate StacksOnto(h: Heap, y: Item, x: Item)
    requires x in h && y in h
  {
    h[y].kind == h[x].kind && h[y].count < MAX_STACK
  }

  /** The first stack of x's kind with room, or the length of the list. */
  ghost function FirstStack(h: Heap, list: seq<Item>, x: Item): (n: nat)
    requires x in h && forall y :: y in list ==> y in h
    ensures n <= |list|
    ensures n < |list| ==> list[n] != x && StacksOnto(h, list[n], x)
    ensures forall k :: 0 <= k < n ==> list[k] == x || !StacksOnto(h, list[k], x)
  {
    if list == [] then 0
    else if list[0] != x && StacksOnto(h, list[0], x) then 0
    else 1 + FirstStack(h, list[1..], x)
  }

  /** One container's answer: the container above, the container at the index, or itself, perhaps onto
      a stack. */
  ghost function Destination(h: Heap, c: Item, index: int, x: Item, flags: Flags): Target
    requires Linked(h) && c in h && x in h
  {
    assert LinkedAt(h, c);
    var list := h[c].list;
    if !c.unlocked then Target(c, index, null)
    else if index == MOVE_UP then Target(if h[c].parent != null then h[c].parent else c, INDEX_WHEREEVER, null)
    else
      var i := if index == ADD_WHEREEVER || (index >= c.capacity && !c.pagination) then INDEX_WHEREEVER else index;
      var there: Item? := if 0 <= i < |list| then list[i] else null;
      if there != null && there.isContainer then Target(there, INDEX_WHEREEVER, null)
      else if !flags.ignoreAutoStack && h[x].kind.stackable && h[x].parent != c &&
              !(there != null && StacksOnto(h, there, x)) && FirstStack(h, list, x) < |list|
        then Target(c, FirstStack(h, list, x), list[FirstStack(h, list, x)])
      else Target(c, i, there)
  }

  /** Where a drop goes: up to the container around this one, into the container dropped on, onto a stack of its kind
      if it comes from elsewhere and one has room, and else where it was dropped. */
  lemma WhereDropped(h: Heap, c: Item, index: int, x: Item, flags: Flags)
    requires Linked(h) && c in h && x in h && c.unlocked
    ensures forall y :: y in h[c].list ==> y in h
    ensures var t, list := Destination(h, c, index, x, flags), h[c].list;
            var inside := 0 <= index < |list| && index < c.capacity && index != 254 && index != 255;
            && (index == 254 && h[c].parent != null ==> t == Target(h[c].parent, -1, null))
            && (inside && list[index].isContainer ==> t == Target(list[index], -1, null))
            && (index != 254 && !c.pagination && !(inside && list[index].isContainer) ==>
                  && t.dest == c
                  && (h[x].kind.stackable && h[x].parent != c && !flags.ignoreAutoStack
                      && (exists k ::
                            0 <= k < |list| && list[k] != x && h[list[k]].kind == h[x].kind && h[list[k]].count < 100)
                      ==> 0 <= t.index < |list| && t.item == list[t.index] && h[t.item].kind == h[x].kind
                          && h[t.item].count < 100
                          && (inside && h[list[index]].kind == h[x].kind && h[list[index]].count < 100 ==>
                                t.index == index))
                  && (flags.ignoreAutoStack || !h[x].kind.stackable || h[x].parent == c ==>
                        t.index == (if index == 255 || index >= c.capacity then -1 else index)
                        && t.item == if inside then list[index] else null))
  {
    assert LinkedAt(h, c);
  }

  /** The target is a stack that lies beyond the capacity of an overfull container. */
  ghost predicate OverfullStack(h: Heap, t: Target, x: Item)
    requires x in h
  {
    && t.dest in h && t.dest.capacity <= t.index < |h[t.dest].list| && h[t.dest].list[t.index] == t.item
    && t.item in h && t.item != x && StacksOnto(h, t.item, x)
  }

  lemma DestinationStays(h: Heap, c: Item, index: int, x: Item, flags: Flags)
    requires Linked(h) && Stacked(h) && c in h && x in h && c.isContainer
    ensures var t := Destination(h, c, index, x, flags);
            && t.dest in h && t.dest.isContainer
            && (t.dest != c ==> t.index == INDEX_WHEREEVER && t.item == null)
            && (t.dest == c && t.item != null ==> t.item in h[c].list)
            && (t.dest == c && c.unlocked && 0 <= t.index < |h[c].list| ==> t.item == h[c].list[t.index])
            && (t.dest == c && c.unlocked && t.index >= c.capacity ==>
                  h[x].kind.stackable && OverfullStack(h, t, x))
  {
    assert LinkedAt(h, c) && StackAt(h, c);
  }

  /** What is known of the place a dropped item finally goes to. */
  ghost predicate GoodTarget(h: Heap, t: Target, x: Item)
    requires x in h
  {
    && t.dest in h && t.dest.isContainer
    && (t.item != null ==> t.item in h && t.item in h[t.dest].list)
    && (t.dest.unlocked && 0 <= t.index < |h[t.dest].list| ==> t.item == h[t.dest].list[t.index])
    && (t.dest.unlocked && t.index >= t.dest.capacity ==> h[x].kind.stackable && OverfullStack(h, t, x))
  }

  /** The chain of answers, cut short after MAP_MAX_LAYERS containers. */
  ghost function Settled(h: Heap, c: Item, index: int, x: Item, flags: Flags, layers: nat): (r: (Target, Flags))
    requires Linked(h) && Stacked(h) && c in h && x in h && c.isContainer && layers < MAP_MAX_LAYERS
    ensures GoodTarget(h, r.0, x)
    decreases MAP_MAX_LAYERS - layers
  {
    var t := Destination(h, c, index, x, flags);
    DestinationStays(h, c, index, x, flags);
    assert LinkedAt(h, c);
    if t.dest == c then (t, flags)
    else if layers + 1 == MAP_MAX_LAYERS then (t, NO_FLAGS)
    else Settled(h, t.dest, t.index, x, NO_FLAGS, layers + 1)
  }

  /** The chain has one link or two: a drop stays where it was made, or goes on into one other container, wherever there
      is room and with all flags off. */
  lemma SettledIn(h: Heap, c: Item, index: int, x: Item, flags: Flags)
    requires Linked(h) && Stacked(h) && c in h && x in h && c.isContainer
    ensures var t, (end, flags') := Destination(h, c, index, x, flags), Settled(h, c, index, x, flags, 0);
            && (t.dest == c ==> end == t && flags' == flags)
            && (t.dest != c ==> t.dest in h && end == Destination(h, t.dest, -1, x, NO_FLAGS) && end.dest == t.dest
                                && !flags'.noLimit && !flags'.ignoreNotMoveable && !flags'.ignoreAutoStack)
  {
    DestinationStays(h, c, index, x, flags);
  }

  /** How much is asked to move: at most what there is room for. */
  ghost function MoveCount(h: Heap, rank: map<Item, nat>, t: Target, x: Item, count: nat, flags: Flags,
                           limits: Limits): nat
    requires Linked(h) && Ranked(h, rank) && t.dest in h && x in h
  {
    var maxQueryCount := MaxCount(h, rank, t.dest, t.index, x, count, flags, limits);
    if h[x].kind.stackable then Min(count, maxQueryCount) else maxQueryCount
  }

  ghost predicate MoveAllowed(h: Heap, rank: map<Item, nat>, from: Item, t: Target, x: Item, m: int, flags: Flags,
                              limits: Limits, tradeItem: Item?)
    requires Ranked(h, rank) && t.dest in h && from in h && x in h
  {
    && x != t.item && AddAllowed(h, rank, t.dest, t.index, x, flags, limits) && RemoveAllowed(h, from, x, m, flags)
    && (tradeItem != null ==> !Under(h, rank, t.dest, tradeItem))
  }

  /** The units that come in: all, unless the index lies beyond the capacity; then only what joins the
      stack found there. */
  ghost function ArrivedUnits(h: Heap, t: Target, x: Item, m: int): int
    requires x in h && (t.item != null ==> t.item in h)
  {
    if h[x].kind.stackable && t.index >= t.dest.capacity then
      if t.item != null && h[t.item].kind == h[x].kind then Min(MAX_STACK - h[t.item].count, m) else 0
    else TakenUnits(h, x, m)
  }

  /** What is left after m units, or the whole, of x were removed from c. */
  lemma TakenOutcome(h: Heap, c: Item, x: Item, m: nat, h': Heap)
    requires Linked(h) && Linked(h') && Stacked(h) && c in h && x in h && h[x].parent == c && StackAt(h, x)
    requires h[x].kind.stackable ==> 1 <= m <= h[x].count
    requires if h[x].kind.stackable && m != h[x].count
             then SameButWeights(Changed(h, x, h[x].kind, Max(0, h[x].count - m)), h')
             else SameButWeights(Detached(h, c, x, Without(h[c].list, x)), h')
    ensures OnlyGain(h, h', c, h[x].kind, -TakenUnits(h, x, m)) && OnlyTouched(h, h', {c}, {x}) && Stacked(h')
    ensures h'[x].kind == h[x].kind
    ensures if h[x].kind.stackable && m < h[x].count
            then h'[x].count == h[x].count - m && h'[x].parent == c && h'[c].list == h[c].list
            else h'[x].count == h[x].count && h'[x].parent == null && h'[c].list == Without(h[c].list, x)
  {
    if h[x].kind.stackable && m < h[x].count {
      RecountGain(h, x, c, h[x].count - m, h');
    } else {
      DetachGain(h, x, c, h');
    }
    StillStacked(h, h', x);
  }

  /** What m units of a stack x become: x keeps the rest or is gone, a stack of its kind found at the target takes
      what it has room for, and what is left over is one new stack, inside the container if the index lies
      within its capacity. */
  ghost predicate StackMoved(h: Heap, h': Heap, from: Item, t: Target, x: Item, m: int, moveItem: Item?)
    requires x in h && (t.item != null ==> t.item in h)
  {
    var n := if t.item != null && h[t.item].kind == h[x].kind then Min(MAX_STACK - h[t.item].count, m) else 0;
    && x in h' && (if m < h[x].count then h'[x].count == h[x].count - m && h'[x].parent == from
          else h'[x].parent == null)
    && (t.item != null ==> t.item in h' && h'[t.item].count == h[t.item].count + n && h'[t.item].parent == t.dest)
    && (moveItem == null <==> m == n)
    && h'.Keys == (if moveItem == null then h.Keys else h.Keys + {moveItem})
    && (moveItem != null ==>
          && moveItem !in h && h'[moveItem].kind == h[x].kind && h'[moveItem].count == m - n
          && h'[moveItem].parent == if t.index < t.dest.capacity then t.dest else null)
  }

  lemma StackSplit(h: Heap, h2: Heap, h': Heap, from: Item, t: Target, x: Item, m: int, n: int, moveItem: Item?)
    requires x in h && x in h2 && (t.item != null ==> t.item in h && t.item in h2) && h2.Keys == h.Keys
    requires n == if t.item != null && h[t.item].kind == h[x].kind then Min(MAX_STACK - h[t.item].count, m) else 0
    requires if m < h[x].count then h2[x].count == h[x].count - m && h2[x].parent == from else h2[x].parent == null
    requires t.item != null ==> h2[t.item].count == h[t.item].count + n && h2[t.item].parent == t.dest
    requires if moveItem == null then m == n && h' == h2
             else
               && m != n && OnlyTouched(h2, h', {t.dest}, {}) && moveItem !in h2 && h'.Keys == h2.Keys + {moveItem}
               && h'[moveItem].kind == h[x].kind && h'[moveItem].count == m - n
               && h'[moveItem].parent == if t.index < t.dest.capacity then t.dest else null
    ensures StackMoved(h, h', from, t, x, m, moveItem)
  {
  }

  /** The items in containers that do not stack. */
  ghost function Whole(h: Heap): set<Item> {
    set i | i in h && h[i].parent != null && !h[i].kind.stackable
  }

  /** No move brings one in or takes one out. */
  lemma WholeStays(h: Heap, h': Heap, from: Item, t: Target, x: Item, m: int, moveItem: Item?, xs: set<Item>)
    requires x in h && h[x].parent != null && (t.item != null ==> t.item in h)
    requires if h[x].kind.stackable
             then StackMoved(h, h', from, t, x, m, moveItem) && OnlyTouched(h, h', {from, t.dest}, xs)
                  && (forall y :: y in xs ==> y == x || (y == t.item && h[x].parent != null && h[y].parent == t.dest))
             else WholeMoved(h, h', from, t, x)
    ensures Whole(h') == Whole(h)
  {
    forall i | i in h
      ensures i in Whole(h') <==> i in Whole(h)
    {
      assert h'[i].kind == h[i].kind;
    }
  }

  /** Units leave the one container and come into the other, and every other ledger, list and item stays as it
      is.  Of every kind there are as many units as before, but for those lost behind the capacity, and the
      items that do not stack are the same. */
  ghost predicate Moved(h: Heap, h': Heap, from: Item, t: Target, x: Item, m: int, moveItem: Item?)
    requires Linked(h) && Linked(h') && x in h && (t.item != null ==> t.item in h)
  {
    && Ledger(h, h', from, t.dest, h[x].kind, TakenUnits(h, x, m), ArrivedUnits(h, t, x, m))
    && OnlyTouched(h, h', {from, t.dest}, if t.item == null then {x} else {x, t.item})
    && (if h[x].kind.stackable then StackMoved(h, h', from, t, x, m, moveItem)
          else WholeMoved(h, h', from, t, x) && moveItem == x)
    && (forall k :: TotalUnits(h', h.Keys, k) == TotalUnits(h, h.Keys, k) - if k == h[x].kind then Lost(h, t, x, m)
          else 0)
    && Whole(h') == Whole(h)
  }

  lemma MovedTotals(h: Heap, h': Heap, from: Item, t: Target, x: Item, m: int, moveItem: Item?)
    requires Linked(h) && Linked(h') && x in h && h[x].parent != null && from in h && t.dest in h
    requires t.item != null ==> t.item in h && h[t.item].parent == t.dest
    requires Ledger(h, h', from, t.dest, h[x].kind, TakenUnits(h, x, m), ArrivedUnits(h, t, x, m))
    requires OnlyTouched(h, h', {from, t.dest}, if t.item == null then {x} else {x, t.item})
    requires if h[x].kind.stackable then StackMoved(h, h', from, t, x, m, moveItem)
             else WholeMoved(h, h', from, t, x) && moveItem == x
    ensures Moved(h, h', from, t, x, m, moveItem)
  {
    LedgerTotals(h, h', from, t.dest, h[x].kind, TakenUnits(h, x, m), ArrivedUnits(h, t, x, m));
    LostUnits(h, t, x, m);
    WholeStays(h, h', from, t, x, m, moveItem, if t.item == null then {x} else {x, t.item});
  }

  /** What does not stack is itself listed by the target container, and nothing is new. */
  ghost predicate WholeMoved(h: Heap, h': Heap, from: Item, t: Target, x: Item) {
    && h'.Keys == h.Keys && x in h' && h'[x].parent == t.dest && t.dest in h' && x in h'[t.dest].list
    && OnlyTouched(h, h', {from, t.dest}, {x})
  }

  lemma StillStacked(h: Heap, h': Heap, x: Item)
    requires Stacked(h) && h'.Keys == h.Keys && x in h && StackAt(h', x)
    requires forall i :: i in h ==>
             h'[i].kind == h[i].kind && (i != x ==> h'[i].parent == h[i].parent && h'[i].count == h[i].count)
    ensures Stacked(h')
  {
    forall i | i in h'
      ensures StackAt(h', i)
    {
      assert StackAt(h, i);
    }
  }

  /** Of all containers only two ledgers change: `out` units of the kind leave the one, `arrived` units
      come into the other. */
  ghost predicate Ledger(h: Heap, h': Heap, from: Item, to: Item, kind: Kind, out: int, arrived: int)
    requires Linked(h) && Linked(h')
  {
    h.Keys <= h'.Keys && forall d, k {:trigger UnitsIn(h', d, k)} :: d in h ==>
      UnitsIn(h', d, k) == UnitsIn(h, d, k)
                                      - (if d == from && k == kind then out else 0)
                                      + (if d == to && k == kind then arrived else 0)
  }

  lemma TwoGains(h0: Heap, h1: Heap, h2: Heap, from: Item, to: Item, kind: Kind, out: int, merged: int)
    requires Linked(h0) && Linked(h1) && Linked(h2)
    requires OnlyGain(h0, h1, from, kind, -out) && OnlyGain(h1, h2, to, kind, merged)
    ensures Ledger(h0, h2, from, to, kind, out, merged)
  {
    forall d, k | d in h0
      ensures UnitsIn(h2, d, k) == UnitsIn(h0, d, k) - (if d == from && k == kind then out else 0)
                                                     + (if d == to && k == kind then merged else 0)
    {
      assert UnitsIn(h1, d, k) == UnitsIn(h0, d, k) + if d == from && k == kind then -out else 0;
    }
  }

  lemma ComposedLedger(h0: Heap, h2: Heap, h3: Heap, from: Item, to: Item, kind: Kind, out: int, merged: int, rest: int)
    requires Linked(h0) && Linked(h2) && Linked(h3)
    requires Ledger(h0, h2, from, to, kind, out, merged) && OnlyGain(h2, h3, to, kind, rest)
    ensures Ledger(h0, h3, from, to, kind, out, merged + rest)
  {
    forall d, k | d in h0
      ensures UnitsIn(h3, d, k) == UnitsIn(h0, d, k) - (if d == from && k == kind then out else 0)
                                                     + (if d == to && k == kind then merged + rest else 0)
    {
      assert UnitsIn(h2, d, k) == UnitsIn(h0, d, k) - (if d == from && k == kind then out else 0)
                                                    + (if d == to && k == kind then merged else 0);
    }
  }

  lemma ExtendedGain(h: Heap, h1: Heap, h2: Heap, to: Item, kind: Kind, delta: int)
    requires Linked(h) && Linked(h1) && Linked(h2) && h.Keys <= h1.Keys
    requires forall d, k :: d in h ==> UnitsIn(h1, d, k) == UnitsIn(h, d, k)
    requires OnlyGain(h1, h2, to, kind, delta)
    ensures OnlyGain(h, h2, to, kind, delta)
  {
    forall d, k | d in h
      ensures UnitsIn(h2, d, k) == UnitsIn(h, d, k) + if d == to && k == kind then delta else 0
    {
      assert UnitsIn(h1, d, k) == UnitsIn(h, d, k);
    }
  }

  lemma {:induction false} WithoutKeeps(list: seq<Item>, x: Item, y: Item)
    requires y in list && y != x
    ensures y in Without(list, x)
  {
    if list[0] != x && list[0] != y {
      WithoutKeeps(list[1..], x, y);
    }
  }

  lemma {:induction false} NothingUnderLeaf(h: Heap, rank: map<Item, nat>, c: Item, leaf: Item)
    requires Linked(h) && Ranked(h, rank) && c in h && leaf in h && h[leaf].list == [] && c != leaf
    ensures !Under(h, rank, c, leaf)
    decreases rank[c]
  {
    assert RankedAt(h, rank, c) && LinkedAt(h, c);
    if h[c].parent != null {
      NothingUnderLeaf(h, rank, h[c].parent, leaf);
    }
  }

  /** A new item outside every container changes nothing for the others. */
  lemma Extended(h: Heap, rank: map<Item, nat>, y: Item, h': Heap, rank': map<Item, nat>)
    requires Good(h, rank) && Stacked(h) && y !in h && !y.isContainer && !y.pagination
    requires h'.Keys == h.Keys + {y} && (forall i :: i in h ==> h'[i] == h[i]) && h'[y].parent == null
             && h'[y].list == [] && h'[y].total == 0
    requires rank' == rank[y := 0]
    ensures Good(h', rank') && Stacked(h')
    ensures forall d, k :: d in h ==> UnitsIn(h', d, k) == UnitsIn(h, d, k)
  {
    forall i | i in h'
      ensures LinkedAt(h', i) && RankedAt(h', rank', i) && WeighedAt(h', i) && StackAt(h', i)
    {
      if i != y {
        assert LinkedAt(h, i) && RankedAt(h, rank, i) && WeighedAt(h, i) && StackAt(h, i);
        SameWeights(h, h', h[i].list);
      }
    }
    forall d, k | d in h
      ensures UnitsIn(h', d, k) == UnitsIn(h, d, k)
    {
      assert LinkedAt(h, d);
      SameUnits(h, h', h[d].list, k);
    }
  }

  /** The units that leave with x: m of a stack, the whole count of anything else. */
  ghost function TakenUnits(h: Heap, x: Item, m: int): int
    requires x in h
  {
    if h[x].kind.stackable then m else h[x].count
  }

  /** Lists changed at most in the containers `cs`, and parents and counts at most for the items `xs`. */
  ghost predicate OnlyTouched(h: Heap, h': Heap, cs: set<Item>, xs: set<Item>) {
    forall i {:trigger h'[i]} :: i in h ==>
      && i in h' && h'[i].kind == h[i].kind
      && (i !in cs ==> h'[i].list == h[i].list)
      && (i !in xs ==> h'[i].parent == h[i].parent && h'[i].count == h[i].count)
  }

  // What a move comes down to.

  /** Nothing but room stands against the move. */
  ghost predicate Movable(h: Heap, rank: map<Item, nat>, from: Item, t: Target, x: Item, flags: Flags, limits: Limits,
                          tradeItem: Item?)
    requires Ranked(h, rank) && t.dest in h && from in h && x in h
  {
    && x != t.item && x in h[from].list && (h[x].kind.moveable || flags.ignoreNotMoveable) && h[x].kind.pickupable
    && t.dest.unlocked && !Under(h, rank, t.dest, x) && limits(t.dest, x) == NoError
    && (tradeItem != null ==> !Under(h, rank, t.dest, tradeItem))
  }

  /** The target is a place taken by a stack of x's kind with room. */
  ghost predicate OntoStack(h: Heap, t: Target, x: Item)
    requires t.dest in h && x in h && forall y :: y in h[t.dest].list ==> y in h
  {
    && 0 <= t.index < |h[t.dest].list| && h[t.dest].list[t.index] == t.item
    && h[t.item].kind == h[x].kind && h[t.item].count < 100
  }

  /** What is in the way: a lock, a ban, a place inside itself or no room at all. */
  lemma RefusedMoves(h: Heap, rank: map<Item, nat>, from: Item, t: Target, x: Item, count: nat, flags: Flags,
                     limits: Limits, tradeItem: Item?)
    requires Linked(h) && Ranked(h, rank) && Stacked(h) && from in h && x in h && GoodTarget(h, t, x)
    ensures forall y :: y in h[t.dest].list ==> y in h
    ensures !Movable(h, rank, from, t, x, flags, limits, tradeItem)
            || (|h[t.dest].list| >= t.dest.capacity && !flags.noLimit && !(h[x].kind.stackable && OntoStack(h, t, x)))
            ==> !MoveAllowed(h, rank, from, t, x, MoveCount(h, rank, t, x, count, flags, limits), flags, limits,
                tradeItem)
  {
    assert LinkedAt(h, t.dest) && StackAt(h, t.dest);
  }

  /** With a free slot, or free of limits, all that is asked for moves. */
  lemma AllMoves(h: Heap, rank: map<Item, nat>, from: Item, t: Target, x: Item, count: nat, flags: Flags,
                 limits: Limits, tradeItem: Item?)
    requires Linked(h) && Ranked(h, rank) && Stacked(h) && from in h && x in h && GoodTarget(h, t, x)
    requires Movable(h, rank, from, t, x, flags, limits, tradeItem)
    requires if h[x].kind.stackable then 1 <= count <= 100 && count <= h[x].count else count >= 1
    requires |h[t.dest].list| < t.dest.capacity || flags.noLimit
    ensures var m := MoveCount(h, rank, t, x, count, flags, limits);
            MoveAllowed(h, rank, from, t, x, m, flags, limits, tradeItem) && (h[x].kind.stackable ==> m == count)
  {
    assert LinkedAt(h, t.dest) && StackAt(h, t.dest);
  }

  /** Without one, what the stack found has room for. */
  lemma WhatFitsMoves(h: Heap, rank: map<Item, nat>, from: Item, t: Target, x: Item, count: nat, flags: Flags,
                      limits: Limits, tradeItem: Item?)
    requires Linked(h) && Ranked(h, rank) && Stacked(h) && from in h && x in h && GoodTarget(h, t, x)
    requires Movable(h, rank, from, t, x, flags, limits, tradeItem) && h[x].kind.stackable && 1 <= count <= h[x].count
    requires |h[t.dest].list| >= t.dest.capacity && !flags.noLimit
    requires forall y :: y in h[t.dest].list ==> y in h
    requires OntoStack(h, t, x)
    ensures var m := MoveCount(h, rank, t, x, count, flags, limits);
            MoveAllowed(h, rank, from, t, x, m, flags, limits, tradeItem) && m == Min(count, 100 - h[t.item].count)
  {
    assert LinkedAt(h, t.dest) && StackAt(h, t.dest);
  }

  lemma Decided(h: Heap, rank: map<Item, nat>, from: Item, t: Target, x: Item, count: nat, flags: Flags,
                limits: Limits, tradeItem: Item?)
    requires Linked(h) && Ranked(h, rank) && Stacked(h) && from in h && x in h && GoodTarget(h, t, x)
    ensures forall y :: y in h[t.dest].list ==> y in h
    ensures var m := MoveCount(h, rank, t, x, count, flags, limits);
            var allowed := MoveAllowed(h, rank, from, t, x, m, flags, limits, tradeItem);
            var movable := Movable(h, rank, from, t, x, flags, limits, tradeItem);
            var free, stackable := |h[t.dest].list| < t.dest.capacity || flags.noLimit, h[x].kind.stackable;
            var onto := stackable && OntoStack(h, t, x);
            && (!movable || (!free && !onto) ==> !allowed)
            && (movable && free && stackable && 1 <= count <= 100 && count <= h[x].count ==> allowed && m == count)
            && (movable && free && !stackable && count >= 1 ==> allowed)
            && (movable && !free && onto && 1 <= count <= h[x].count ==>
                  allowed && m == Min(count, 100 - h[t.item].count))
  {
    RefusedMoves(h, rank, from, t, x, count, flags, limits, tradeItem);
    if Movable(h, rank, from, t, x, flags, limits, tradeItem) {
      if |h[t.dest].list| < t.dest.capacity || flags.noLimit {
        if if h[x].kind.stackable then 1 <= count <= 100 && count <= h[x].count else count >= 1 {
          AllMoves(h, rank, from, t, x, count, flags, limits, tradeItem);
        }
      } else if h[x].kind.stackable && OntoStack(h, t, x) && 1 <= count <= h[x].count {
        WhatFitsMoves(h, rank, from, t, x, count, flags, limits, tradeItem);
      }
    }
  }

  /** What a move does.  If something is in the way, nothing; with a free slot, or free of limits, all that is asked for
      moves; without one, what the stack found at the target has room for. */
  ghost predicate Outcome(h: Heap, h': Heap, rank: map<Item, nat>, from: Item, t: Target, x: Item, count: nat,
                          flags: Flags, limits: Limits, tradeItem: Item?, moved: Item?, noError: bool)
    requires Linked(h) && Linked(h') && Ranked(h, rank) && from in h && x in h && GoodTarget(h, t, x)
  {
    assert LinkedAt(h, t.dest);
    var movable := Movable(h, rank, from, t, x, flags, limits, tradeItem);
    var free, stackable := |h[t.dest].list| < t.dest.capacity || flags.noLimit, h[x].kind.stackable;
    var onto := stackable && OntoStack(h, t, x);
    && (!movable || (!free && !onto) ==> h' == h && moved == null && (noError <==> x == t.item))
    && (movable && free && stackable && 1 <= count <= 100 && count <= h[x].count ==>
          Moved(h, h', from, t, x, count, if moved == x then null else moved) && noError)
    && (movable && free && !stackable && count >= 1 ==>
          t.dest in h' && x in h'[t.dest].list && x in h' && h'[x].parent == t.dest && moved == x && noError)
    && (movable && !free && onto && 1 <= count <= h[x].count ==>
          Moved(h, h', from, t, x, Min(count, 100 - h[t.item].count), if moved == x then null else moved)
          && (noError <==> count <= 100 - h[t.item].count))
  }

  lemma MoveOutcome(h: Heap, h': Heap, rank: map<Item, nat>, from: Item, t: Target, x: Item, count: nat,
                    flags: Flags, limits: Limits, tradeItem: Item?, moved: Item?, noError: bool)
    requires Linked(h) && Linked(h') && Ranked(h, rank) && Stacked(h) && from in h && x in h && GoodTarget(h, t, x)
    requires var m := MoveCount(h, rank, t, x, count, flags, limits);
             if MoveAllowed(h, rank, from, t, x, m, flags, limits, tradeItem) then
               && Moved(h, h', from, t, x, m, if h[x].kind.stackable && moved == x then null else moved)
               && (noError <==> flags.noLimit || !h[x].kind.stackable || count <= m)
             else h' == h && moved == null && (noError <==> x == t.item)
    ensures Outcome(h, h', rank, from, t, x, count, flags, limits, tradeItem, moved, noError)
  {
    assert LinkedAt(h, t.dest) && LinkedAt(h, from);
    Decided(h, rank, from, t, x, count, flags, limits, tradeItem);
  }

  /** A move that goes ahead loses nothing exactly when the stack it falls on has room for all of it or
      does not lie beyond the capacity; only a move that may ignore the limits can lose anything. */
  lemma NothingLost(h: Heap, rank: map<Item, nat>, from: Item, t: Target, x: Item, count: nat, flags: Flags,
                    limits: Limits, tradeItem: Item?)
    requires Linked(h) && Ranked(h, rank) && from in h && x in h && GoodTarget(h, t, x) && !t.dest.pagination
    requires MoveAllowed(h, rank, from, t, x, MoveCount(h, rank, t, x, count, flags, limits), flags, limits, tradeItem)
    ensures var m := MoveCount(h, rank, t, x, count, flags, limits);
            && (Lost(h, t, x, m) == 0 <==> t.index < t.dest.capacity || m <= MAX_STACK - h[t.item].count)
            && (!flags.noLimit ==> Lost(h, t, x, m) == 0)
  {
    assert LinkedAt(h, t.dest);
  }

  /** Such a loss: a full container into which its contents were put free of limits, so that the only stack of
      the kind, sixty high, lies just behind the capacity.  Fifty units moved there free of limits lose ten. */
  lemma OverfullLoses(h: Heap, rank: map<Item, nat>, chest: Item, front: seq<Item>, stack: Item, from: Item, x: Item,
                      limits: Limits)
    requires Linked(h) && Ranked(h, rank) && Stacked(h) && chest in h && stack in h && from in h && x in h
             && x in h[from].list
    requires chest.isContainer && chest.unlocked && chest.capacity == |front| > 0 && h[chest].list == front + [stack]
    requires forall y :: y in front ==> y in h && h[y].kind != h[x].kind
    requires h[stack].kind == h[x].kind && h[x].kind.stackable && h[stack].count == 60 && h[x].count == 50
             && from != chest
    requires h[x].kind.pickupable && h[x].kind.moveable && limits(chest, x) == NoError
    ensures var free := Flags(true, false, false);
            var (t, flags) := Settled(h, chest, INDEX_WHEREEVER, x, free, 0);
            && t == Target(chest, chest.capacity, stack) && flags == free
            && MoveCount(h, rank, t, x, 50, flags, limits) == 50
            && MoveAllowed(h, rank, from, t, x, 50, flags, limits, null) && Lost(h, t, x, 50) == 10
  {
    assert LinkedAt(h, chest) && LinkedAt(h, stack) && LinkedAt(h, from) && StackAt(h, chest) && StackAt(h, stack)
           && StackAt(h, x);
    assert LinkedAt(h, x);
    NothingUnderLeaf(h, rank, chest, x);
    var list := h[chest].list;
    assert list[|front|] == stack && stack in list;
    forall k | 0 <= k < |front|
      ensures !StacksOnto(h, list[k], x)
    {
      assert list[k] == front[k];
    }
    assert FirstStack(h, list, x) == |front|;
  }

  /** The units of a kind in a set of containers. */
  ghost function TotalUnits(h: Heap, cs: set<Item>, kind: Kind): int
    requires Linked(h) && cs <= h.Keys
    decreases cs
  {
    if cs == {} then 0
    else
      var c :| c in cs;
      UnitsIn(h, c, kind) + TotalUnits(h, cs - {c}, kind)
  }

  /** Summed over any containers that take part on both sides, a move that loses nothing changes nothing. */
  lemma {:induction false} LedgerTotal(h: Heap, h': Heap, from: Item, to: Item, kind: Kind, out: int, arrived: int,
                                       cs: set<Item>, k: Kind)
    requires Linked(h) && Linked(h') && Ledger(h, h', from, to, kind, out, arrived) && cs <= h.Keys
    ensures TotalUnits(h', cs, k) ==
            TotalUnits(h, cs, k) - (if from in cs && k == kind then out else 0)
                + (if to in cs && k == kind then arrived else 0)
    decreases cs
  {
    if cs != {} {
      var c :| c in cs && TotalUnits(h, cs, k) == UnitsIn(h, c, k) + TotalUnits(h, cs - {c}, k);
      LedgerTotal(h, h', from, to, kind, out, arrived, cs - {c}, k);
      TotalSplit(h', cs, k, c);
      assert UnitsIn(h', c, k) == UnitsIn(h, c, k) - (if c == from && k == kind then out else 0)
                                                   + (if c == to && k == kind then arrived else 0);
    }
  }

  lemma {:induction false} TotalSplit(h: Heap, cs: set<Item>, kind: Kind, c: Item)
    requires Linked(h) && cs <= h.Keys && c in cs
    ensures TotalUnits(h, cs, kind) == UnitsIn(h, c, kind) + TotalUnits(h, cs - {c}, kind)
    decreases cs
  {
    var d :| d in cs && TotalUnits(h, cs, kind) == UnitsIn(h, d, kind) + TotalUnits(h, cs - {d}, kind);
    if d != c {
      TotalSplit(h, cs - {d}, kind, c);
      TotalSplit(h, cs - {c}, kind, d);
      assert cs - {d} - {c} == cs - {c} - {d};
    }
  }

  /** Over all items that were there, the units of every kind are as before, but for what left and did not arrive. */
  lemma LedgerTotals(h: Heap, h': Heap, from: Item, to: Item, kind: Kind, out: int, arrived: int)
    requires Linked(h) && Linked(h') && from in h && to in h && Ledger(h, h', from, to, kind, out, arrived)
    ensures forall k :: TotalUnits(h', h.Keys, k) == TotalUnits(h, h.Keys, k) - if k == kind then out - arrived else 0
  {
    forall k
      ensures TotalUnits(h', h.Keys, k) == TotalUnits(h, h.Keys, k) - if k == kind then out - arrived else 0
    {
      LedgerTotal(h, h', from, to, kind, out, arrived, h.Keys, k);
    }
  }

  /** The units a move loses: those that neither fit on the stack found at the target nor may join a container
      behind its capacity. */
  ghost function Lost(h: Heap, t: Target, x: Item, m: int): int
    requires x in h && (t.item != null ==> t.item in h)
  {
    if !h[x].kind.stackable || t.index < t.dest.capacity then 0
    else m - if t.item != null && h[t.item].kind == h[x].kind then Min(MAX_STACK - h[t.item].count, m) else 0
  }

  lemma LostUnits(h: Heap, t: Target, x: Item, m: int)
    requires x in h && (t.item != null ==> t.item in h)
    ensures TakenUnits(h, x, m) - ArrivedUnits(h, t, x, m) == Lost(h, t, x, m)
  {
  }

  class Game {
    ghost var items: set<Item>
    ghost var rank: map<Item, nat>

    /** The items form a tree with right weights and proper stacks. */
    ghost predicate Valid()
      reads this, items
    {
      Good(View(items), rank) && Stacked(View(items))
    }

    method QueryAdd(c: Item, addIndex: int, x: Item, flags: Flags, limits: Limits) returns (ret: ReturnValue)
      requires Valid() && c in items && x in items
      ensures ret == NoError <==> AddAllowed(View(items), rank, c, addIndex, x, flags, limits)
    {
      ghost var h := View(items);
      if !c.unlocked {
        return NotPossible;
      }
      if !x.kind.pickupable {
        return CannotPickup;
      }
      if x == c {
        return ThisIsImpossible;
      }
      var cylinder := c.parent;
      assert RankedAt(h, rank, c);
      while cylinder != null
        invariant cylinder != null ==> cylinder in items
        invariant Under(h, rank, c, x) <==> cylinder != null && Under(h, rank, cylinder, x)
        decreases if cylinder == null then 0 else rank[cylinder] + 1
      {
        if cylinder == x {
          return ThisIsImpossible;
        }
        assert RankedAt(h, rank, cylinder);
        cylinder := cylinder.parent;
      }
      if !flags.noLimit && addIndex == INDEX_WHEREEVER && |c.itemlist| >= c.capacity && !c.pagination {
        return ContainerNotEnoughRoom;
      }
      return limits(c, x);
    }

    /** The room on all stacks of the kind, if the item may be added at all. */
    method RoomOnStacks(c: Item, x: Item, flags: Flags, limits: Limits) returns (n: int)
      requires Valid() && c in items && x in items && x.kind.stackable
      ensures forall y :: y in View(items)[c].list ==> y in View(items)
      ensures n == if AddAllowed(View(items), rank, c, 0, x, flags, limits) then StackRoom(View(items), c.itemlist, x)
              else 0
    {
      ghost var h := View(items);
      assert LinkedAt(h, c);
      n := 0;
      var slotIndex, i := 0, 0;
      ghost var accepted := AddAllowed(h, rank, c, 0, x, flags, limits);
      while i < |c.itemlist|
        invariant 0 <= i <= |c.itemlist| && slotIndex >= 0
        invariant n == if accepted then StackRoom(h, c.itemlist[..i], x) else 0
      {
        var containerItem := c.itemlist[i];
        assert containerItem in c.itemlist;
        StackRoomSnoc(h, c.itemlist[..i], containerItem, x);
        assert c.itemlist[..i] + [containerItem] == c.itemlist[..i + 1];
        if containerItem != x && containerItem.kind == x.kind && containerItem.count < MAX_STACK {
          var remainder := MAX_STACK - containerItem.count;
          var ok := QueryAdd(c, slotIndex, x, flags, limits);
          slotIndex := slotIndex + 1;
          if ok == NoError {
            n := n + remainder;
          }
        }
        i := i + 1;
      }
      assert c.itemlist[..i] == c.itemlist;
    }

    method QueryMaxCount(c: Item, index: int, x: Item, count: nat, flags: Flags, limits: Limits)
      returns (ret: ReturnValue, maxQueryCount: int)
      requires Valid() && c in items && x in items
      ensures maxQueryCount == MaxCount(View(items), rank, c, index, x, count, flags, limits)
      ensures ret == NoError || ret == ContainerNotEnoughRoom
      ensures ret == NoError <==>
              flags.noLimit || c.pagination || if x.kind.stackable then count <= maxQueryCount else maxQueryCount != 0
    {
      ghost var h := View(items);
      assert LinkedAt(h, c);
      if flags.noLimit || c.pagination {
        return NoError, Max(1, count);
      }
      var freeSlots := Max(c.capacity - |c.itemlist|, 0);
      if x.kind.stackable {
        var n := 0;
        if index == INDEX_WHEREEVER {
          n := RoomOnStacks(c, x, flags, limits);
        } else {
          var destItem := c.GetItemByIndex(index);
          if destItem != null && x.kind == destItem.kind && destItem.count < MAX_STACK {
            assert destItem in c.itemlist;
            var ok := QueryAdd(c, index, x, flags, limits);
            if ok == NoError {
              n := MAX_STACK - destItem.count;
            }
          }
        }
        maxQueryCount := freeSlots * MAX_STACK + n;
        return if maxQueryCount < count then ContainerNotEnoughRoom else NoError, maxQueryCount;
      } else {
        maxQueryCount := freeSlots;
        return if maxQueryCount == 0 then ContainerNotEnoughRoom else NoError, maxQueryCount;
      }
    }

    method QueryRemove(c: Item, x: Item, count: int, flags: Flags) returns (ret: ReturnValue)
      requires c in items && x in items
      ensures ret == NoError <==> RemoveAllowed(View(items), c, x, count, flags)
    {
      var index := c.GetThingIndex(x);
      if index == -1 {
        return NotPossible;
      }
      if count == 0 || (x.kind.stackable && count > x.count) {
        return NotPossible;
      }
      if !x.kind.moveable && !flags.ignoreNotMoveable {
        return NotMoveable;
      }
      return NoError;
    }

    /** Where an item dropped on a container goes next. */
    method QueryDestination(c: Item, index: int, x: Item, flags: Flags)
      returns (dest: Item, index': int, destItem: Item?)
      requires Valid() && c in items && x in items && c.isContainer
      ensures Target(dest, index', destItem) == Destination(View(items), c, index, x, flags)
    {
      ghost var h := View(items);
      assert LinkedAt(h, c);
      index' := index;
      destItem := null;
      if !c.unlocked {
        return c, index', destItem;
      }
      if index' == MOVE_UP {
        index' := INDEX_WHEREEVER;
        if c.parent != null {
          return c.parent, index', destItem;
        }
        return c, index', destItem;
      }
      if index' == ADD_WHEREEVER {
        index' := INDEX_WHEREEVER;
      } else if index' >= c.capacity && !c.pagination {
        index' := INDEX_WHEREEVER;
      }
      if index' != INDEX_WHEREEVER {
        var itemFromIndex := c.GetItemByIndex(index');
        if itemFromIndex != null {
          destItem := itemFromIndex;
          if itemFromIndex.isContainer {
            return itemFromIndex, INDEX_WHEREEVER, null;
          }
        }
      }
      if !flags.ignoreAutoStack && x.kind.stackable && x.parent != c {
        if destItem != null && destItem.kind == x.kind && destItem.count < MAX_STACK {
          return c, index', destItem;
        }
        var n := 0;
        while n < |c.itemlist|
          invariant 0 <= n <= |c.itemlist|
          invariant forall k :: 0 <= k < n ==> c.itemlist[k] == x || !StacksOnto(h, c.itemlist[k], x)
        {
          var listItem := c.itemlist[n];
          assert listItem in c.itemlist;
          if listItem != x && listItem.kind == x.kind && listItem.count < MAX_STACK {
            return c, n, listItem;
          }
          n := n + 1;
        }
      }
      return c, index', destItem;
    }

    /** m units of a stack, or the whole of anything else, leave a container.  What leaves it as a whole
        has no parent any more. */
    method Take(c: Item, x: Item, m: nat)
      requires Valid() && c in items && x in items && x in c.itemlist
      requires x.kind.stackable ==> 1 <= m <= x.count
      modifies items
      ensures Valid()
      ensures OnlyGain(old(View(items)), View(items), c, old(x.kind), -TakenUnits(old(View(items)), x, m))
      ensures OnlyTouched(old(View(items)), View(items), {c}, {x})
      ensures x.kind == old(x.kind)
      ensures if x.kind.stackable && m < old(x.count)
              then x.count == old(x.count) - m && x.parent == c && c.itemlist == old(c.itemlist)
              else x.count == old(x.count) && x.parent == null && c.itemlist == Without(old(c.itemlist), x)
    {
      ghost var h := View(items);
      assert LinkedAt(h, c) && StackAt(h, x);
      c.RemoveThing(x, m, items, rank);
      TakenOutcome(h, c, x, m, View(items));
    }

    /** n units join a stack. */
    method Merge(c: Item, y: Item, n: nat)
      requires Valid() && c in items && y in items && y in c.itemlist
      requires y.kind.stackable && y.count + n <= MAX_STACK
      modifies items
      ensures Valid()
      ensures OnlyGain(old(View(items)), View(items), c, old(y.kind), n)
      ensures OnlyTouched(old(View(items)), View(items), {}, {y})
      ensures y.count == old(y.count) + n && y.parent == c
    {
      ghost var h := View(items);
      assert LinkedAt(h, c) && StackAt(h, y);
      c.UpdateThing(y, y.kind, y.count + n, items, rank);
      ghost var h' := View(items);
      RecountGain(h, y, c, h[y].count + n, h');
      StillStacked(h, h', y);
    }

    /** An item outside goes in, unless the index lies beyond the capacity. */
    method Put(c: Item, index: int, x: Item)
      requires Valid() && c in items && x in items && c.isContainer
      requires x.parent == null && !Under(View(items), rank, c, x)
      requires x.kind.stackable ==> 1 <= x.count <= MAX_STACK
      modifies this`rank, items
      ensures Valid()
      ensures OnlyGain(old(View(items)), View(items), c, old(x.kind), if index < c.capacity then old(x.count) else 0)
      ensures OnlyTouched(old(View(items)), View(items), {c}, {x})
      ensures x.kind == old(x.kind) && x.count == old(x.count)
      ensures if index < c.capacity then x.parent == c && c.itemlist == [x] + old(c.itemlist)
              else x.parent == null && c.itemlist == old(c.itemlist)
    {
      ghost var h := View(items);
      rank := c.AddThing(index, x, items, rank);
      ghost var h' := View(items);
      if index < c.capacity {
        AttachGain(h, x, c, h');
      }
      assert StackAt(h, x);
      StillStacked(h, h', x);
    }

    /** A new stack with the kind of an old one. */
    method Clone(x: Item, count: nat) returns (y: Item)
      requires Valid() && x in items && x.kind.stackable
      modifies this`items, this`rank
      ensures Valid() && fresh(y) && items == old(items) + {y}
      ensures y.kind == x.kind && y.count == count && y.parent == null && y.itemlist == []
      ensures OnlyTouched(old(View(items)), View(items), {}, {})
      ensures forall d, k :: d in old(items) ==> UnitsIn(View(items), d, k) == UnitsIn(old(View(items)), d, k)
    {
      ghost var h, was := View(items), items;
      y := new Item(x.kind, count, false, 0, true, false);
      items := items + {y};
      rank := rank[y := 0];
      ghost var h' := View(items);
      assert h' == h[y := Fields(null, [], 0, x.kind, count)];
      Extended(h, old(rank), y, h', rank);
    }

    /** The chain of containers a drop passes through. */
    method FindDestination(to: Item, index: int, item: Item, flags: Flags)
      returns (dest: Item, index': int, toItem: Item?, flags': Flags)
      requires Valid() && to in items && item in items && to.isContainer
      ensures Settled(View(items), to, index, item, flags, 0) == (Target(dest, index', toItem), flags')
    {
      ghost var h := View(items);
      var toCylinder := to;
      index', flags' := index, flags;
      var floorN := 0;
      while true
        invariant 0 <= floorN < MAP_MAX_LAYERS && toCylinder in items && toCylinder.isContainer
        invariant Settled(h, toCylinder, index', item, flags', floorN) == Settled(h, to, index, item, flags, 0)
        decreases MAP_MAX_LAYERS - floorN
      {
        DestinationStays(h, toCylinder, index', item, flags');
        dest, index', toItem := QueryDestination(toCylinder, index', item, flags');
        if dest == toCylinder {
          return;
        }
        toCylinder := dest;
        flags' := NO_FLAGS;
        floorN := floorN + 1;
        if floorN >= MAP_MAX_LAYERS {
          return;
        }
      }
    }

    method IsInside(c: Item, top: Item) returns (inside: bool)
      requires Valid() && c in items
      ensures inside == Under(View(items), rank, c, top)
    {
      ghost var h := View(items);
      var cylinder: Item? := c;
      while cylinder != null
        invariant cylinder != null ==> cylinder in items
        invariant Under(h, rank, c, top) <==> cylinder != null && Under(h, rank, cylinder, top)
        decreases if cylinder == null then 0 else rank[cylinder] + 1
      {
        assert RankedAt(h, rank, cylinder);
        if cylinder == top {
          return true;
        }
        cylinder := cylinder.parent;
      }
      return false;
    }

    /** Everything that is asked before anything is touched: whether the move goes ahead, where to, and
        how many units are asked for.  The queries change nothing, so their order does not matter. */
    method DecideMove(from: Item, to: Item, index: int, item: Item, count: nat, flags: Flags, limits: Limits,
                      tradeItem: Item?)
      returns (go: bool, ret: ReturnValue, dest: Item, index': int, toItem: Item?, m: nat)
      requires Valid() && from in items && to in items && item in items && to.isContainer
      ensures var (t, flags') := Settled(View(items), to, index, item, flags, 0);
              && t == Target(dest, index', toItem)
              && go == MoveAllowed(View(items), rank, from, t, item, m, flags', limits, tradeItem)
              && m == MoveCount(View(items), rank, t, item, count, flags', limits)
              && (!go ==> (ret == NoError <==> item == toItem))
              && (go ==> (ret == NoError <==> flags'.noLimit || !item.kind.stackable || count <= m))
    {
      ghost var h := View(items);
      var flags';
      dest, index', toItem, flags' := FindDestination(to, index, item, flags);
      assert StackAt(h, dest);
      var retMaxCount, maxQueryCount := QueryMaxCount(dest, index', item, count, flags', limits);
      m := if item.kind.stackable then Min(count, maxQueryCount) else maxQueryCount;
      if item == toItem {
        return false, NoError, dest, index', toItem, m;
      }
      ret := QueryAdd(dest, index', item, flags', limits);
      if ret != NoError {
        return false, ret, dest, index', toItem, m;
      }
      if retMaxCount != NoError && maxQueryCount == 0 {
        return false, retMaxCount, dest, index', toItem, m;
      }
      ret := QueryRemove(from, item, m, flags');
      if ret != NoError {
        return false, ret, dest, index', toItem, m;
      }
      if tradeItem != null {
        var inside := IsInside(dest, tradeItem);
        if inside {
          return false, NotEnoughRoom, dest, index', toItem, m;
        }
      }
      ret := if item.kind.stackable && maxQueryCount < count then retMaxCount else NoError;
      return true, ret, dest, index', toItem, m;
    }

    /** Moving an item.  Either nothing happens, or units leave the one container and come into the
        other; every other ledger stays as it is, and the tree stays a tree.  Given back is what came in new or whole,
        or the old item if all of it joined a stack. */
    method InternalMoveItem(from: Item, to: Item, index: int, item: Item, count: nat, flags: Flags, limits: Limits,
                            tradeItem: Item?)
      returns (ret: ReturnValue, moved: Item?)
      requires Valid() && from in items && to in items && item in items && to.isContainer
      modifies this`items, this`rank, items
      ensures Valid() && old(items) <= items
      ensures var (t, flags') := old(Settled(View(items), to, index, item, flags, 0));
              var m := old(MoveCount(View(items), rank, t, item, count, flags', limits));
              if old(MoveAllowed(View(items), rank, from, t, item, m, flags', limits, tradeItem))
              then
                && Moved(old(View(items)), View(items), from, t, item, m, if old(item.kind.stackable) && moved == item
                      then null else moved)
                && moved != null && (ret == NoError <==> flags'.noLimit || !old(item.kind.stackable) || count <= m)
              else
                View(items) == old(View(items)) && moved == null && (ret == NoError <==> item == t.item)
      ensures var (t, flags') := old(Settled(View(items), to, index, item, flags, 0));
              Outcome(old(View(items)), View(items), old(rank), from, t, item, count, flags', limits, tradeItem, moved,
                      ret == NoError)
    {
      ghost var h := View(items);
      ghost var (t, flags1) := Settled(h, to, index, item, flags, 0);
      var go, dest, index', toItem, m;
      go, ret, dest, index', toItem, m := DecideMove(from, to, index, item, count, flags, limits, tradeItem);
      moved := null;
      if go {
        var moveItem := CarryOut(from, dest, index', toItem, item, m);
        moved := if moveItem != null then moveItem else item;
      }
      MoveOutcome(h, View(items), old(rank), from, t, item, count, flags1, limits, tradeItem, moved, ret == NoError);
    }

    /** The move itself. */
    method CarryOut(from: Item, dest: Item, index: int, toItem: Item?, item: Item, m: nat) returns (moveItem: Item?)
      requires Valid() && from in items && item in items && item in from.itemlist && toItem != item
      requires GoodTarget(View(items), Target(dest, index, toItem), item)
      requires if item.kind.stackable then 1 <= m <= item.count
               else index < dest.capacity && !Under(View(items), rank, dest, item)
      modifies this`items, this`rank, items
      ensures Valid() && old(items) <= items
      ensures Moved(old(View(items)), View(items), from, Target(dest, index, toItem), item, m, moveItem)
    {
      ghost var h, t := View(items), Target(dest, index, toItem);
      if item.kind.stackable {
        moveItem := MoveStack(from, dest, index, item, m, toItem);
      } else {
        MoveWhole(from, dest, index, item, m);
        moveItem := item;
      }
      assert LinkedAt(h, dest) && LinkedAt(h, from);
      MovedTotals(h, View(items), from, t, item, m, moveItem);
    }

    /** m units of a stack go from one container to another: first onto the stack they were dropped on,
        the rest as a new stack. */
    method MoveStack(from: Item, to: Item, index: int, item: Item, m: nat, toItem: Item?) returns (moveItem: Item?)
      requires Valid() && from in items && to in items && item in items && to.isContainer && item in from.itemlist
      requires item.kind.stackable && 1 <= m <= item.count
      requires toItem != null ==> toItem in items && toItem in to.itemlist && toItem != item
      modifies this`items, this`rank, items
      ensures Valid() && old(items) <= items
      ensures Ledger(old(View(items)), View(items), from, to, old(item.kind), m,
                     if index < to.capacity then m else old(MergedUnits(item, toItem, m)))
      ensures OnlyTouched(old(View(items)), View(items), {from, to}, if toItem == null then {item} else {item, toItem})
      ensures StackMoved(old(View(items)), View(items), from, Target(to, index, toItem), item, m, moveItem)
    {
      ghost var h0 := View(items);
      var n := TakeAndMerge(from, to, item, m, toItem);
      ghost var h2 := View(items);
      moveItem := null;
      if m - n > 0 {
        moveItem := PutNew(to, index, item, m - n);
        ComposedLedger(h0, h2, View(items), from, to, item.kind, m, n, if index < to.capacity then m - n else 0);
      }
      StackSplit(h0, h2, View(items), from, Target(to, index, toItem), item, m, n, moveItem);
    }

    /** The units leave their stack, and as many as fit join the stack they were dropped on. */
    method TakeAndMerge(from: Item, to: Item, item: Item, m: nat, toItem: Item?) returns (n: nat)
      requires Valid() && from in items && to in items && item in items && item in from.itemlist
      requires item.kind.stackable && 1 <= m <= item.count
      requires toItem != null ==> toItem in items && toItem in to.itemlist && toItem != item
      modifies items
      ensures Valid() && item.kind == old(item.kind)
      ensures m <= MAX_STACK && n == old(MergedUnits(item, toItem, m)) <= m
      ensures Ledger(old(View(items)), View(items), from, to, item.kind, m, n)
      ensures if m < old(item.count) then item.count == old(item.count) - m && item.parent == from
              else item.parent == null
      ensures toItem != null ==> toItem.count == old(toItem.count) + n && toItem.parent == to
      ensures OnlyTouched(old(View(items)), View(items), {from}, if toItem == null then {item} else {item, toItem})
    {
      ghost var h0 := View(items);
      assert LinkedAt(h0, to) && LinkedAt(h0, from) && StackAt(h0, item);
      if toItem != null {
        assert StackAt(h0, toItem);
        WithoutKeeps(h0[to].list, item, toItem);
      }
      Take(from, item, m);
      ghost var h1 := View(items);
      n := MergeUpTo(to, item, m, toItem);
      TwoGains(h0, h1, View(items), from, to, item.kind, m, n);
    }

    /** Of m units as many as fit join the stack, if it is one of the item's kind. */
    method MergeUpTo(to: Item, item: Item, m: nat, toItem: Item?) returns (n: nat)
      requires Valid() && to in items && item in items && item.kind.stackable && m <= MAX_STACK
      requires toItem != null ==> toItem in items && toItem in to.itemlist && toItem != item
      modifies items
      ensures Valid() && n == old(MergedUnits(item, toItem, m)) <= m
      ensures OnlyGain(old(View(items)), View(items), to, old(item.kind), n)
      ensures OnlyTouched(old(View(items)), View(items), {}, if toItem == null then {} else {toItem})
      ensures toItem != null ==> toItem.count == old(toItem.count) + n && toItem.parent == to
    {
      ghost var h := View(items);
      assert LinkedAt(h, to) && (toItem != null ==> StackAt(h, toItem));
      n := 0;
      if toItem != null && item.kind == toItem.kind {
        n := Min(MAX_STACK - toItem.count, m);
        Merge(to, toItem, n);
      }
    }

    /** A new stack goes in. */
    method PutNew(to: Item, index: int, item: Item, count: int) returns (moveItem: Item)
      requires Valid() && to in items && item in items && to.isContainer
      requires item.kind.stackable && 1 <= count <= MAX_STACK
      modifies this`items, this`rank, items
      ensures Valid() && items == old(items) + {moveItem} && fresh(moveItem) && moveItem.count == count
              && item.kind == old(item.kind)
      ensures OnlyGain(old(View(items)), View(items), to, item.kind, if index < to.capacity then count else 0)
      ensures OnlyTouched(old(View(items)), View(items), {to}, {})
      ensures moveItem.kind == item.kind && if index < to.capacity
              then moveItem.parent == to && moveItem in to.itemlist else moveItem.parent == null
    {
      ghost var h := View(items);
      moveItem := Clone(item, count);
      ghost var h1 := View(items);
      NothingUnderLeaf(h1, rank, to, moveItem);
      Put(to, index, moveItem);
      ExtendedGain(h, h1, View(items), to, item.kind, if index < to.capacity then count else 0);
    }

    ghost function MergedUnits(item: Item, toItem: Item?, m: int): int
      reads item, if toItem == null then {} else {toItem}
    {
      if toItem != null && item.kind == toItem.kind then Min(MAX_STACK - toItem.count, m) else 0
    }

    /** Anything that does not stack goes as it is. */
    method MoveWhole(from: Item, to: Item, index: int, item: Item, m: nat)
      requires Valid() && from in items && to in items && item in items && to.isContainer && item in from.itemlist
      requires !item.kind.stackable && index < to.capacity && !Under(View(items), rank, to, item)
      modifies this`rank, items
      ensures Valid()
      ensures Ledger(old(View(items)), View(items), from, to, old(item.kind), old(item.count), old(item.count))
      ensures OnlyTouched(old(View(items)), View(items), {from, to}, {item})
      ensures item.parent == to && to.itemlist != [] && to.itemlist[0] == item
    {
      ghost var h0 := View(items);
      Take(from, item, m);
      ghost var h1 := View(items);
      UnderSame(h0, h1, rank, to, item);
      Put(to, index, item);
    }
  }
}
