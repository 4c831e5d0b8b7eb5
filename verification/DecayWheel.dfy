/** The decay wheel (src/game.cpp, Game::checkDecay, Game::cleanup, Game::startDecay): four buckets, one
    of them looked at every 250 milliseconds. */
module DecayWheel {

  const DECAY_INTERVAL := 250
  const DECAY_BUCKETS := 4
  const ROUND := DECAY_INTERVAL * DECAY_BUCKETS

  class Item {
    var duration: int
    var decaying: bool

    constructor (duration: int)
      ensures this.duration == duration && !decaying
    {
      this.duration, decaying := duration, false;
    }
  }

  /** The first duration of what an item decays into, stage by stage; 0 if nothing that lasts is left. */
  function Lasting(stages: seq<int>): nat {
    if stages == [] then 0 else if stages[0] > 0 then stages[0] else Lasting(stages[1..])
  }

  /** Stages without duration are passed over, whatever comes behind the first that has one. */
  lemma {:induction false} LastingIsFirst(before: seq<int>, duration: int, after: seq<int>)
    requires forall k :: 0 <= k < |before| ==> before[k] <= 0
    ensures Lasting(before) == 0
    ensures duration > 0 ==> Lasting(before + [duration] + after) == duration
  {
    var all := before + [duration] + after;
    if before == [] {
      assert all[0] == duration;
    } else {
      assert all[1..] == before[1..] + [duration] + after;
      LastingIsFirst(before[1..], duration, after);
    }
  }

  function Becomes(stages: Item -> seq<int>): Item -> nat {
    (i: Item) => Lasting(stages(i))
  }

  /** Ticks still to come after the one that looks at an item with this much duration left. */
  function After(duration: int): nat
    decreases if duration < 0 then 0 else duration
  {
    if duration <= ROUND then 0
    else if duration - ROUND < ROUND then (if duration - ROUND + DECAY_INTERVAL / 2 >= ROUND then 1 else 0)
    else DECAY_BUCKETS + After(duration - ROUND)
  }

  /** Ticks until an item in bucket b decays, when `last` was the bucket looked at last. */
  function Due(last: nat, b: nat, duration: int): nat
    requires last < DECAY_BUCKETS && b < DECAY_BUCKETS
  {
    (b - last - 1) % DECAY_BUCKETS + 1 + After(duration)
  }

  /** The bucket cleanup chooses. */
  function FirstBucket(last: nat, duration: nat): nat
    requires last < DECAY_BUCKETS
  {
    if duration >= ROUND then last else (last + 1 + duration / 1000) % DECAY_BUCKETS
  }

  /** The ticks an undisturbed item takes to decay. */
  function FiringTicks(duration: nat): nat {
    if duration < ROUND then 1
    else 4 * (duration / 1000) + if duration % 1000 < 875 then 0 else 1
  }

  lemma {:induction false} AfterClosed(duration: nat)
    requires duration >= ROUND
    ensures DECAY_BUCKETS + After(duration) == FiringTicks(duration)
  {
    if duration >= 2 * ROUND {
      AfterClosed(duration - ROUND);
    }
  }

  /** An item placed by cleanup is due after exactly its firing ticks. */
  lemma DueWhenPlaced(last: nat, duration: nat)
    requires last < DECAY_BUCKETS
    ensures Due(last, FirstBucket(last, duration), duration) == FiringTicks(duration)
  {
    if duration >= ROUND {
      AfterClosed(duration);
    }
  }

  /** So the wheel is off by less than 875 milliseconds. */
  lemma FiringError(duration: nat)
    ensures -875 < DECAY_INTERVAL * FiringTicks(duration) - duration < 875
  {
  }

  predicate NoDuplicates(list: seq<Item>) {
    forall i, j :: 0 <= i < j < |list| ==> list[i] != list[j]
  }

  /** The wheel at one moment, with the durations of the items. */
  datatype Wheel = Wheel(buckets: seq<seq<Item>>, last: nat, waiting: seq<Item>, duration: map<Item, int>)

  ghost predicate In(buckets: seq<seq<Item>>, b: nat, older i: Item) {
    b < |buckets| && i in buckets[b]
  }

  /** Every item sits in one place of one bucket only, or waits in one place. */
  ghost predicate Orderly(w: Wheel) {
    && |w.buckets| == DECAY_BUCKETS && w.last < DECAY_BUCKETS
    && (forall b {:trigger w.buckets[b]} :: 0 <= b < DECAY_BUCKETS ==> NoDuplicates(w.buckets[b]))
    && NoDuplicates(w.waiting)
    && (forall b, c, i {:trigger In(w.buckets, b, i), In(w.buckets, c, i)} ::
          In(w.buckets, b, i) && In(w.buckets, c, i) ==> b == c)
    && (forall b, i {:trigger In(w.buckets, b, i)} :: In(w.buckets, b, i) ==> i !in w.waiting && i in w.duration)
    && (forall i {:trigger i in w.waiting} :: i in w.waiting ==> i in w.duration && w.duration[i] > 0)
  }

  /** Item i is in the wheel and due in n ticks. */
  ghost predicate DueIn(w: Wheel, i: Item, n: nat)
    requires Orderly(w)
  {
    exists b {:trigger In(w.buckets, b, i)} :: In(w.buckets, b, i) && n == Due(w.last, b, w.duration[i])
  }

  /** One tick for one item: if it was due it decays, if not it is due one tick earlier.  Items that may not
      decay (any more) are not spoken of. */
  ghost predicate TickedItem(w: Wheel, w': Wheel, i: Item, n: nat, decays: bool)
    requires Orderly(w) && Orderly(w')
  {
    DueIn(w, i, n) ==> if n == 1 then decays else !decays && n > 1 && DueIn(w', i, n - 1)
  }

  /** One tick: besides, what waited, or what a decayed item became, is due after its firing ticks. */
  ghost predicate Ticked(w: Wheel, w': Wheel, decayed: seq<Item>, mayDecay: set<Item>, becomes: Item -> nat)
    requires Orderly(w) && Orderly(w')
  {
    && (forall i, n: nat {:trigger DueIn(w, i, n)} :: i in mayDecay ==> TickedItem(w, w', i, n, i in decayed))
    && (forall i {:trigger i in w.waiting} :: i in w.waiting ==>
          i !in decayed && DueIn(w', i, FiringTicks(w.duration[i])))
    && (forall i {:trigger becomes(i)} :: i in decayed && becomes(i) > 0 ==> DueIn(w', i, FiringTicks(becomes(i))))
    && NoneNew(w, w') && Spared(w, w', decayed, mayDecay, becomes)
  }

  /** Only what may decay decays; what may not any more leaves the bucket looked at with the duration it had, and what
      decays into nothing leaves it too.  The other buckets stay as they are, up to what comes in. */
  ghost predicate Spared(w: Wheel, w': Wheel, decayed: seq<Item>, mayDecay: set<Item>, becomes: Item -> nat)
    requires Orderly(w) && Orderly(w')
  {
    && w'.last == (w.last + 1) % DECAY_BUCKETS && w'.duration.Keys == w.duration.Keys
    && (forall i :: i in decayed ==> i in mayDecay && In(w.buckets, w'.last, i))
    && (forall i {:trigger In(w.buckets, w'.last, i)} :: In(w.buckets, w'.last, i) && i !in mayDecay ==>
          !InWheel(w', i) && w'.duration[i] == w.duration[i])
    && (forall i :: i in decayed && becomes(i) == 0 ==> !InWheel(w', i))
    && (forall b, i {:trigger In(w.buckets, b, i)} :: In(w.buckets, b, i) && b != w'.last ==>
          In(w'.buckets, b, i) && w'.duration[i] == w.duration[i])
    && (forall i :: i in w.waiting ==> w'.duration[i] == w.duration[i])
  }

  /** Where an item is after the tick that looks at it, if it stays in the wheel. */
  function NextBucket(bucket: nat, duration: int): nat
    requires bucket < DECAY_BUCKETS
  {
    if duration - ROUND >= ROUND then bucket else (bucket + 1) % DECAY_BUCKETS
  }

  /** Looking at an item brings its due tick one nearer. */
  lemma LookedAt(bucket: nat, duration: int)
    requires bucket < DECAY_BUCKETS && After(duration) > 0
    ensures Due(bucket, NextBucket(bucket, duration), duration - ROUND) == After(duration)
  {
  }

  /** Items in the other buckets are one tick nearer too. */
  lemma NotLookedAt(last: nat, b: nat, duration: int)
    requires last < DECAY_BUCKETS && b < DECAY_BUCKETS && b != (last + 1) % DECAY_BUCKETS
    ensures Due((last + 1) % DECAY_BUCKETS, b, duration) == Due(last, b, duration) - 1
    ensures Due(last, b, duration) > 1
  {
  }

  /** Item `it` of bucket b taken out. */
  function TakenOut(buckets: seq<seq<Item>>, b: nat, it: nat): seq<seq<Item>>
    requires b < |buckets| && it < |buckets[b]|
  {
    buckets[b := buckets[b][..it] + buckets[b][it + 1..]]
  }

  lemma TakenOutIn(w: Wheel, b: nat, it: nat)
    requires Orderly(w) && b < DECAY_BUCKETS && it < |w.buckets[b]|
    ensures NoDuplicates(TakenOut(w.buckets, b, it)[b])
    ensures forall c, i {:trigger In(TakenOut(w.buckets, b, it), c, i)} ::
              In(TakenOut(w.buckets, b, it), c, i) <==> In(w.buckets, c, i) && i != w.buckets[b][it]
  {
    var list, item := w.buckets[b], w.buckets[b][it];
    var rest := list[..it] + list[it + 1..];
    assert In(w.buckets, b, item);
    assert NoDuplicates(list);
    assert forall k :: 0 <= k < |rest| ==> rest[k] == list[if k < it then k else k + 1];
    forall i | i in list && i != item
      ensures i in rest
    {
      var k :| 0 <= k < |list| && list[k] == i;
      assert rest[if k < it then k else k - 1] == i;
    }
    assert item !in rest;
    forall i | i in rest
      ensures i in list
    {
    }
    forall c, i
      ensures In(TakenOut(w.buckets, b, it), c, i) <==> In(w.buckets, c, i) && i != item
    {
      if c != b && In(w.buckets, c, i) {
        assert i != item;
      }
    }
  }

  function Appended(buckets: seq<seq<Item>>, b: nat, item: Item): seq<seq<Item>>
    requires b < |buckets|
  {
    buckets[b := buckets[b] + [item]]
  }

  lemma AppendedIn(buckets: seq<seq<Item>>, b: nat, item: Item)
    requires b < |buckets|
    ensures forall c, i {:trigger In(Appended(buckets, b, item), c, i)} ::
              In(Appended(buckets, b, item), c, i) <==> In(buckets, c, i) || (c == b && i == item)
  {
  }

  ghost predicate InWheel(w: Wheel, older i: Item) {
    i in w.waiting || exists b {:trigger In(w.buckets, b, i)} :: In(w.buckets, b, i)
  }

  /** Neither in the wheel any more nor waiting. */
  lemma TakenOutOrderly(w: Wheel, b: nat, it: nat, duration: int, w': Wheel)
    requires Orderly(w) && b < DECAY_BUCKETS && it < |w.buckets[b]|
    requires w' == w.(buckets := TakenOut(w.buckets, b, it), duration := w.duration[w.buckets[b][it] := duration])
    ensures Orderly(w') && !InWheel(w', w.buckets[b][it]) && NoneNew(w, w')
  {
    TakenOutIn(w, b, it);
    assert In(w.buckets, b, w.buckets[b][it]);
  }

  lemma AppendedOrderly(w: Wheel, b: nat, item: Item, w': Wheel)
    requires Orderly(w) && b < DECAY_BUCKETS && item in w.duration && !InWheel(w, item)
    requires w' == w.(buckets := Appended(w.buckets, b, item))
    ensures Orderly(w')
  {
    AppendedIn(w.buckets, b, item);
    assert !In(w.buckets, b, item);
  }

  /** What waits more, by one item that is to wait, is in order exactly if the item was not there. */
  lemma EnteredOrderly(w: Wheel, item: Item, w': Wheel)
    requires Orderly(w) && item in w.duration && w.duration[item] > 0 && w' == w.(waiting := [item] + w.waiting)
    ensures Orderly(w') <==> !InWheel(w, item)
  {
    assert w'.waiting[0] == item;
    if item in w.waiting {
      var k :| 0 <= k < |w.waiting| && w.waiting[k] == item;
      assert w'.waiting[k + 1] == item;
    } else if InWheel(w, item) {
      var b :| In(w.buckets, b, item);
      assert In(w'.buckets, b, item) && item in w'.waiting;
    }
  }

  /** An item that does not wait may have any duration. */
  lemma RestedOrderly(w: Wheel, item: Item, duration: int, v: Wheel)
    requires Orderly(w) && item !in w.waiting && v == w.(duration := w.duration[item := duration])
    ensures Orderly(v) && (InWheel(v, item) <==> InWheel(w, item))
  {
  }

  function LowerBy(duration: int): int {
    if duration < ROUND then duration else ROUND
  }

  /** What happens to an item when its bucket is looked at. */
  datatype Fate = Dropped | Decays | Goes(bucket: nat)

  function FateOf(bucket: nat, mayDecay: bool, duration: int): (f: Fate)
    requires bucket < DECAY_BUCKETS
    ensures f.Goes? ==> f.bucket < DECAY_BUCKETS
  {
    if !mayDecay then Dropped
    else if After(duration) == 0 then Decays
    else Goes(NextBucket(bucket, duration))
  }

  lemma FateIs(bucket: nat, duration: int)
    requires bucket < DECAY_BUCKETS
    ensures var left := duration - LowerBy(duration);
            FateOf(bucket, true, duration)
            == if left <= 0 then Decays
               else if left < ROUND then
                 (if (bucket + (left + DECAY_INTERVAL / 2) / 1000) % DECAY_BUCKETS == bucket then Decays
                  else Goes((bucket + (left + DECAY_INTERVAL / 2) / 1000) % DECAY_BUCKETS))
               else Goes(bucket)
  {
  }

  /** The wheel after item `it` of the bucket has met its fate. */
  function Seen(v: Wheel, bucket: nat, it: nat, fate: Fate, newDuration: nat): (v': Wheel)
    requires bucket < |v.buckets| && it < |v.buckets[bucket]| && (fate.Goes? ==> fate.bucket < |v.buckets|)
    requires v.buckets[bucket][it] in v.duration
  {
    var out, item := TakenOut(v.buckets, bucket, it), v.buckets[bucket][it];
    var duration := v.duration[item] - LowerBy(v.duration[item]);
    if fate.Dropped? then
      v.(buckets := out)
    else if fate.Decays? then
      v.(buckets := out, waiting := if newDuration > 0 then [item] + v.waiting
          else v.waiting, duration := v.duration[item := newDuration])
    else
      v.(duration := v.duration[item := duration], buckets := if fate.bucket == bucket then v.buckets
          else Appended(out, fate.bucket, item))
  }

  /** The four ways an item can go after its duration was lowered. */
  lemma LoweredSeen(w: Wheel, bucket: nat, it: nat, item: Item, newDuration: nat, w': Wheel, stays: bool, gone: bool)
    requires |w.buckets| == DECAY_BUCKETS && bucket < DECAY_BUCKETS && it < |w.buckets[bucket]|
             && w.buckets[bucket][it] == item && item in w.duration
    requires var left := w.duration[item] - LowerBy(w.duration[item]);
             var newBucket := (bucket + (left + DECAY_INTERVAL / 2) / 1000) % DECAY_BUCKETS;
             var v, out := w.(duration := w.duration[item := left]), TakenOut(w.buckets, bucket, it);
             if left <= 0 || (left < ROUND && newBucket == bucket) then
               && gone && !stays
               && w' == v.(buckets := out, duration := v.duration[item := newDuration],
                           waiting := if newDuration > 0 then [item] + v.waiting else v.waiting)
             else if left < ROUND then
               !gone && !stays && newBucket >= 0 && w' == v.(buckets := Appended(out, newBucket, item))
             else
               !gone && stays && w' == v
    ensures var fate := FateOf(bucket, true, w.duration[item]);
            && w' == Seen(w, bucket, it, fate, newDuration)
            && gone == fate.Decays? && stays == (fate.Goes? && fate.bucket == bucket)
  {
    FateIs(bucket, w.duration[item]);
    var left := w.duration[item] - LowerBy(w.duration[item]);
    assert w.duration[item := left][item := newDuration] == w.duration[item := newDuration];
  }

  lemma SeenOrderly(v: Wheel, bucket: nat, it: nat, fate: Fate, newDuration: nat, v': Wheel)
    requires Orderly(v) && bucket < DECAY_BUCKETS && it < |v.buckets[bucket]|
             && (fate.Goes? ==> fate.bucket < DECAY_BUCKETS)
    requires v.buckets[bucket][it] in v.duration && v' == Seen(v, bucket, it, fate, newDuration)
    ensures Orderly(v')
  {
    var item := v.buckets[bucket][it];
    assert In(v.buckets, bucket, item);
    if fate.Goes? && fate.bucket == bucket {
      assert Orderly(v');
    } else {
      var duration := if fate.Dropped? then v.duration[item]
                      else if fate.Decays? then newDuration else v.duration[item] - LowerBy(v.duration[item]);
      var w := v.(buckets := TakenOut(v.buckets, bucket, it), duration := v.duration[item := duration]);
      TakenOutOrderly(v, bucket, it, duration, w);
      if fate.Dropped? {
        assert v' == w;
      } else if fate.Goes? {
        AppendedOrderly(w, fate.bucket, item, v');
      }
    }
  }

  /** Of the items that stay, only the one looked at changes place or duration. */
  lemma SeenOthers(v: Wheel, bucket: nat, it: nat, fate: Fate, newDuration: nat, v': Wheel)
    requires Orderly(v) && bucket < DECAY_BUCKETS && it < |v.buckets[bucket]|
             && (fate.Goes? ==> fate.bucket < DECAY_BUCKETS)
    requires v.buckets[bucket][it] in v.duration && v' == Seen(v, bucket, it, fate, newDuration)
    ensures forall b, i {:trigger In(v.buckets, b, i)} {:trigger In(v'.buckets, b, i)} ::
              In(v.buckets, b, i) && i != v.buckets[bucket][it] ==> In(v'.buckets, b, i)
    ensures forall i :: i in v.waiting ==> i in v'.waiting && i != v.buckets[bucket][it]
    ensures v'.last == v.last && v'.duration.Keys == v.duration.Keys
    ensures forall i :: i in v.duration && i != v.buckets[bucket][it] ==> v'.duration[i] == v.duration[i]
    ensures fate.Goes? ==> In(v'.buckets, fate.bucket, v.buckets[bucket][it])
  {
    TakenOutIn(v, bucket, it);
    assert In(v.buckets, bucket, v.buckets[bucket][it]);
    if fate.Goes? {
      AppendedIn(TakenOut(v.buckets, bucket, it), fate.bucket, v.buckets[bucket][it]);
    }
  }

  /** Nothing enters the wheel, and what is dropped, or decays into nothing, leaves it. */
  lemma SeenNoneNew(v: Wheel, bucket: nat, it: nat, fate: Fate, newDuration: nat, v': Wheel)
    requires Orderly(v) && bucket < DECAY_BUCKETS && it < |v.buckets[bucket]|
             && (fate.Goes? ==> fate.bucket < DECAY_BUCKETS)
    requires v.buckets[bucket][it] in v.duration && v' == Seen(v, bucket, it, fate, newDuration)
    ensures NoneNew(v, v')
    ensures fate.Dropped? || (fate.Decays? && newDuration == 0) ==> !InWheel(v', v.buckets[bucket][it])
  {
    TakenOutIn(v, bucket, it);
    assert In(v.buckets, bucket, v.buckets[bucket][it]);
    if fate.Goes? {
      AppendedIn(TakenOut(v.buckets, bucket, it), fate.bucket, v.buckets[bucket][it]);
    }
  }

  /** What became of item i, seen to during the tick. */
  ghost predicate Settled(bucket: nat, canDecay: bool, was: int, becomes: nat, v: Wheel, i: Item, decayed: bool)
    requires bucket < DECAY_BUCKETS && i in v.duration
  {
    var f := FateOf(bucket, canDecay, was);
    && decayed == f.Decays?
    && (f.Decays? && becomes > 0 ==> i in v.waiting && v.duration[i] == becomes)
    && (f.Goes? ==> In(v.buckets, f.bucket, i) && v.duration[i] == was - ROUND)
    && (f.Dropped? ==> !InWheel(v, i) && v.duration[i] == was)
    && (f.Decays? && becomes == 0 ==> !InWheel(v, i))
  }

  /** The state of the wheel in the middle of a tick, the first k items of the bucket seen to. */
  ghost predicate SeenTo(w: Wheel, bucket: nat, mayDecay: set<Item>, becomes: Item -> nat, k: nat, v: Wheel,
                         decayed: seq<Item>)
    requires Orderly(w) && bucket < DECAY_BUCKETS && k <= |w.buckets[bucket]|
  {
    && Orderly(v) && v.last == w.last && v.duration.Keys == w.duration.Keys && NoneNew(w, v)
    && (forall i :: i in decayed ==> i in w.buckets[bucket][..k])
    && (forall b, i {:trigger In(w.buckets, b, i)} :: In(w.buckets, b, i) && i !in w.buckets[bucket][..k] ==>
          In(v.buckets, b, i) && v.duration[i] == w.duration[i])
    && (forall i :: i in w.waiting ==> i in v.waiting && v.duration[i] == w.duration[i])
    && (forall i :: i in w.buckets[bucket][..k] ==>
          i in w.duration && Settled(bucket, i in mayDecay, w.duration[i], becomes(i), v, i, i in decayed))
  }

  lemma StillToSee(w: Wheel, bucket: nat, mayDecay: set<Item>, becomes: Item -> nat, k: nat, v: Wheel,
                   decayed: seq<Item>,
                   it: nat, item: Item)
    requires Orderly(w) && bucket < DECAY_BUCKETS && k <= |w.buckets[bucket]|
    requires SeenTo(w, bucket, mayDecay, becomes, k, v, decayed)
    requires it < |v.buckets[bucket]| && v.buckets[bucket][it] == item
             && v.buckets[bucket][it..] == w.buckets[bucket][k..]
    ensures k < |w.buckets[bucket]| && item == w.buckets[bucket][k]
    ensures item in w.duration && item in v.duration && v.duration[item] == w.duration[item]
  {
    assert |v.buckets[bucket][it..]| == |w.buckets[bucket][k..]|;
    assert item == v.buckets[bucket][it..][0];
    assert NoDuplicates(w.buckets[bucket]);
    assert item !in w.buckets[bucket][..k];
    assert In(w.buckets, bucket, item);
  }

  lemma RestToSee(list: seq<Item>, it: nat, was: seq<Item>, k: nat)
    requires it < |list| && k < |was| && list[it..] == was[k..]
    ensures list[it + 1..] == was[k + 1..]
    ensures (list[..it] + list[it + 1..])[it..] == was[k + 1..]
  {
    assert list[it + 1..] == list[it..][1..];
    assert was[k + 1..] == was[k..][1..];
  }

  /** Seeing to one more item. */
  lemma SeenToNext(w: Wheel, bucket: nat, mayDecay: set<Item>, becomes: Item -> nat, k: nat,
                   v: Wheel, decayed: seq<Item>, it: nat, item: Item, v': Wheel, decayed': seq<Item>)
    requires Orderly(w) && bucket < DECAY_BUCKETS && k < |w.buckets[bucket]|
    requires SeenTo(w, bucket, mayDecay, becomes, k, v, decayed)
    requires it < |v.buckets[bucket]| && v.buckets[bucket][it] == item == w.buckets[bucket][k]
    requires v.buckets[bucket][it..] == w.buckets[bucket][k..]
    requires item in w.duration && item in v.duration && v.duration[item] == w.duration[item]
    requires var fate := FateOf(bucket, item in mayDecay, w.duration[item]);
             && v' == Seen(v, bucket, it, fate, becomes(item))
             && decayed' == if fate.Decays? then decayed + [item] else decayed
    ensures SeenTo(w, bucket, mayDecay, becomes, k + 1, v', decayed')
    ensures var fate, list := FateOf(bucket, item in mayDecay, w.duration[item]), v'.buckets[bucket];
            var it' := if fate.Goes? && fate.bucket == bucket then it + 1 else it;
            it' <= |list| && list[it'..] == w.buckets[bucket][k + 1..]
  {
    RestToSee(v.buckets[bucket], it, w.buckets[bucket], k);
    var fate := FateOf(bucket, item in mayDecay, w.duration[item]);
    assert NoDuplicates(w.buckets[bucket]);
    assert item !in w.buckets[bucket][..k];
    assert In(w.buckets, bucket, item);
    assert w.buckets[bucket][..k + 1] == w.buckets[bucket][..k] + [item];
    SeenOrderly(v, bucket, it, fate, becomes(item), v');
    SeenOthers(v, bucket, it, fate, becomes(item), v');
    SeenNoneNew(v, bucket, it, fate, becomes(item), v');
    forall i | i in w.buckets[bucket][..k]
      ensures i in w.duration && Settled(bucket, i in mayDecay, w.duration[i], becomes(i), v', i, i in decayed')
    {
      assert Settled(bucket, i in mayDecay, w.duration[i], becomes(i), v, i, i in decayed);
    }
    assert Settled(bucket, item in mayDecay, w.duration[item], becomes(item), v', item, item in decayed');
  }

  /** Once the whole bucket is seen to and what waits is placed, the tick is complete. */
  lemma SeenToIsTicked(w: Wheel, mayDecay: set<Item>, becomes: Item -> nat, v: Wheel, decayed: seq<Item>, w': Wheel)
    requires Orderly(w)
             && SeenTo(w, (w.last + 1) % DECAY_BUCKETS, mayDecay, becomes, |w.buckets[(w.last + 1) % DECAY_BUCKETS]|,
             v, decayed)
    requires Orderly(w') && Placed(v.(last := (w.last + 1) % DECAY_BUCKETS), w')
    ensures Ticked(w, w', decayed, mayDecay, becomes)
  {
    var bucket := w'.last;
    assert w.buckets[bucket][..|w.buckets[bucket]|] == w.buckets[bucket];
    forall i, n: nat | i in mayDecay
      ensures TickedItem(w, w', i, n, i in decayed)
    {
      if DueIn(w, i, n) {
        TickedOne(w, mayDecay, becomes, v, decayed, w', i, n);
      }
    }
    assert forall i :: i in decayed ==> In(w.buckets, bucket, i);
    forall i | i in w.waiting
      ensures i !in decayed && DueIn(w', i, FiringTicks(w.duration[i]))
    {
      PlacedIsDue(v.(last := bucket), w', i);
    }
    forall i | i in decayed && becomes(i) > 0
      ensures DueIn(w', i, FiringTicks(becomes(i)))
    {
      assert Settled(bucket, i in mayDecay, w.duration[i], becomes(i), v, i, i in decayed);
      PlacedIsDue(v.(last := bucket), w', i);
    }
    forall i | InWheel(w', i)
      ensures InWheel(w, i)
    {
      assert InWheel(v.(last := bucket), i);
      assert InWheel(v, i);
    }
    TickSpares(w, mayDecay, becomes, v, decayed, w');
  }

  lemma TickSpares(w: Wheel, mayDecay: set<Item>, becomes: Item -> nat, v: Wheel, decayed: seq<Item>, w': Wheel)
    requires Orderly(w)
             && SeenTo(w, (w.last + 1) % DECAY_BUCKETS, mayDecay, becomes, |w.buckets[(w.last + 1) % DECAY_BUCKETS]|,
             v, decayed)
    requires Orderly(w') && Placed(v.(last := (w.last + 1) % DECAY_BUCKETS), w')
    ensures Spared(w, w', decayed, mayDecay, becomes)
  {
    var bucket := w'.last;
    assert w.buckets[bucket][..|w.buckets[bucket]|] == w.buckets[bucket];
    forall i | In(w.buckets, bucket, i)
      ensures i in decayed ==> i in mayDecay && (becomes(i) == 0 ==> !InWheel(w', i))
      ensures i !in mayDecay ==> !InWheel(w', i) && w'.duration[i] == w.duration[i]
    {
      assert Settled(bucket, i in mayDecay, w.duration[i], becomes(i), v, i, i in decayed);
      assert InWheel(w', i) ==> InWheel(v.(last := bucket), i);
      assert InWheel(v.(last := bucket), i) ==> InWheel(v, i);
    }
    forall b, i | In(w.buckets, b, i) && b != bucket
      ensures In(w'.buckets, b, i) && w'.duration[i] == w.duration[i]
    {
      assert i in w.buckets[bucket] ==> In(w.buckets, bucket, i);
      assert In(v.buckets, b, i);
    }
  }

  lemma TickedOne(w: Wheel, mayDecay: set<Item>, becomes: Item -> nat, v: Wheel, decayed: seq<Item>, w': Wheel,
                  i: Item, n: nat)
    requires Orderly(w)
             && SeenTo(w, (w.last + 1) % DECAY_BUCKETS, mayDecay, becomes, |w.buckets[(w.last + 1) % DECAY_BUCKETS]|,
             v, decayed)
    requires Orderly(w') && Placed(v.(last := (w.last + 1) % DECAY_BUCKETS), w')
    requires i in mayDecay && DueIn(w, i, n)
    ensures TickedItem(w, w', i, n, i in decayed)
  {
    var bucket := w'.last;
    assert w.buckets[bucket][..|w.buckets[bucket]|] == w.buckets[bucket];
    var b :| In(w.buckets, b, i) && n == Due(w.last, b, w.duration[i]);
    if b == bucket {
      assert Settled(bucket, true, w.duration[i], becomes(i), v, i, i in decayed);
      TickedHere(w, becomes, v, decayed, w', i, n);
    } else {
      assert i in w.buckets[bucket] ==> In(w.buckets, bucket, i);
      assert In(v.buckets, b, i) && In(w'.buckets, b, i);
      TickedElsewhere(w, v, decayed, w', b, i, n);
    }
  }

  /** An item in the bucket looked at. */
  lemma TickedHere(w: Wheel, becomes: Item -> nat, v: Wheel, decayed: seq<Item>, w': Wheel, i: Item, n: nat)
    requires Orderly(w) && Orderly(w') && w'.last == (w.last + 1) % DECAY_BUCKETS && w'.duration == v.duration
    requires In(w.buckets, w'.last, i) && n == Due(w.last, w'.last, w.duration[i]) && i in v.duration
    requires Settled(w'.last, true, w.duration[i], becomes(i), v, i, i in decayed)
    requires forall b :: In(v.buckets, b, i) ==> In(w'.buckets, b, i)
    ensures TickedItem(w, w', i, n, i in decayed)
  {
    if After(w.duration[i]) > 0 {
      LookedAt(w'.last, w.duration[i]);
      assert In(w'.buckets, NextBucket(w'.last, w.duration[i]), i);
    }
  }

  /** An item in another bucket. */
  lemma TickedElsewhere(w: Wheel, v: Wheel, decayed: seq<Item>, w': Wheel, b: nat, i: Item, n: nat)
    requires Orderly(w) && Orderly(w') && w'.last == (w.last + 1) % DECAY_BUCKETS && w'.duration == v.duration
    requires In(w.buckets, b, i) && b != w'.last && n == Due(w.last, b, w.duration[i])
    requires In(w'.buckets, b, i) && v.duration[i] == w.duration[i] && i !in decayed
    ensures TickedItem(w, w', i, n, i in decayed)
  {
    NotLookedAt(w.last, b, w.duration[i]);
  }

  /** Nothing is in the wheel that was not. */
  ghost predicate NoneNew(w: Wheel, w': Wheel) {
    forall i {:trigger InWheel(w', i)} :: InWheel(w', i) ==> InWheel(w, i)
  }

  /** The buckets hold what they held and the first k waiting items, each in its first bucket. */
  ghost predicate PlacedUpTo(w: Wheel, v: Wheel, k: nat)
    requires Orderly(w) && k <= |w.waiting|
  {
    && Orderly(v) && v.waiting == w.waiting[k..] && v.last == w.last && v.duration == w.duration
    && (forall b, i {:trigger In(w.buckets, b, i)} :: In(w.buckets, b, i) ==> In(v.buckets, b, i))
    && (forall i :: i in w.waiting[..k] ==>
          i in w.duration && w.duration[i] > 0 && In(v.buckets, FirstBucket(w.last, w.duration[i]), i))
    && NoneNew(w, v)
  }

  ghost predicate Placed(w: Wheel, w': Wheel)
    requires Orderly(w)
  {
    && Orderly(w') && w'.last == w.last && w'.waiting == [] && w'.duration == w.duration
    && (forall b, i {:trigger In(w.buckets, b, i)} :: In(w.buckets, b, i) ==> In(w'.buckets, b, i))
    && (forall i :: i in w.waiting ==> In(w'.buckets, FirstBucket(w.last, w.duration[i]), i))
    && NoneNew(w, w')
  }

  /** What cleanup places is due after exactly its firing ticks. */
  lemma PlacedIsDue(w: Wheel, w': Wheel, i: Item)
    requires Orderly(w) && Placed(w, w') && i in w.waiting
    ensures DueIn(w', i, FiringTicks(w.duration[i]))
  {
    DueWhenPlaced(w.last, w.duration[i]);
    assert In(w'.buckets, FirstBucket(w.last, w.duration[i]), i);
  }

  lemma PlaceNext(w: Wheel, v: Wheel, k: nat, item: Item, v': Wheel)
    requires Orderly(w) && k < |w.waiting| && PlacedUpTo(w, v, k) && item == w.waiting[k]
    requires item in v.duration && v.duration[item] > 0
    requires v' == v.(buckets := Appended(v.buckets, FirstBucket(v.last, v.duration[item]), item),
             waiting := v.waiting[1..])
    ensures PlacedUpTo(w, v', k + 1)
  {
    var b := FirstBucket(v.last, v.duration[item]);
    assert item == v.waiting[0] && item in v.waiting;
    assert w.waiting[..k + 1] == w.waiting[..k] + [item];
    assert v'.waiting == w.waiting[k + 1..];
    var u := v.(waiting := v.waiting[1..]);
    assert forall i :: i in u.waiting ==> i in v.waiting;
    assert item !in u.waiting;
    assert Orderly(u);
    AppendedOrderly(u, b, item, v');
    AppendedIn(v.buckets, b, item);
    PlacedNoneNew(w, v, b, item, v');
  }

  lemma PlacedNoneNew(w: Wheel, v: Wheel, b: nat, item: Item, v': Wheel)
    requires NoneNew(w, v) && v.waiting != [] && item == v.waiting[0] && b < |v.buckets|
    requires v' == v.(buckets := Appended(v.buckets, b, item), waiting := v.waiting[1..])
    ensures NoneNew(w, v')
  {
    AppendedIn(v.buckets, b, item);
    forall i | InWheel(v', i)
      ensures InWheel(w, i)
    {
      assert InWheel(v, i) by {
        if i in v'.waiting {
          assert i in v.waiting;
        } else {
          var c :| In(v'.buckets, c, i);
          assert In(v.buckets, c, i) || i in v.waiting;
        }
      }
    }
  }

  lemma NothingWaits(w: Wheel, v: Wheel, v': Wheel)
    requires NoneNew(w, v) && v' == v.(waiting := [])
    ensures NoneNew(w, v')
  {
    forall i | InWheel(v', i)
      ensures InWheel(w, i)
    {
      assert InWheel(v, i);
    }
  }

  lemma LoweredOrderly(w: Wheel, bucket: nat, it: nat, duration: int, v: Wheel)
    requires Orderly(w) && bucket < DECAY_BUCKETS && it < |w.buckets[bucket]|
    requires v == w.(duration := w.duration[w.buckets[bucket][it] := duration])
    ensures Orderly(v)
  {
    assert In(w.buckets, bucket, w.buckets[bucket][it]);
  }

  /** Between ticks nothing in the wheel moves, or changes its duration. */
  ghost predicate Quiet(w: Wheel, w': Wheel)
    requires Orderly(w)
  {
    && w'.last == w.last
    && (forall b, i {:trigger In(w.buckets, b, i)} :: In(w.buckets, b, i) ==>
          In(w'.buckets, b, i) && i in w'.duration && w'.duration[i] == w.duration[i])
  }

  /** One tick of a run: the wheel before, what decayed, the wheel after. */
  datatype Tick = Tick(before: Wheel, decayed: seq<Item>, mayDecay: set<Item>, becomes: Item -> nat, after: Wheel)

  ghost predicate Run(ticks: seq<Tick>) {
    && (forall t <- ticks ::
          Orderly(t.before) && Orderly(t.after) && Ticked(t.before, t.after, t.decayed, t.mayDecay, t.becomes))
    && (forall k :: 0 < k < |ticks| ==> Quiet(ticks[k - 1].after, ticks[k].before))
  }

  lemma QuietKeepsDue(w: Wheel, w': Wheel, i: Item, n: nat)
    requires Orderly(w) && Orderly(w') && Quiet(w, w') && DueIn(w, i, n)
    ensures DueIn(w', i, n)
  {
    var b :| In(w.buckets, b, i) && n == Due(w.last, b, w.duration[i]);
    assert In(w'.buckets, b, i);
  }

  /** In every run an item that may decay throughout decays at the tick it is due in, and not before. */
  lemma {:induction false} FiresWhenDue(ticks: seq<Tick>, i: Item, n: nat)
    requires Run(ticks) && 0 < |ticks| && n <= |ticks| && (forall t <- ticks :: i in t.mayDecay)
    requires Orderly(ticks[0].before) && DueIn(ticks[0].before, i, n)
    ensures n > 0 && i in ticks[n - 1].decayed
    ensures forall k :: 0 <= k < n - 1 ==> i !in ticks[k].decayed
  {
    var t := ticks[0];
    assert t in ticks;
    assert TickedItem(t.before, t.after, i, n, i in t.decayed);
    if n > 1 {
      var rest := ticks[1..];
      assert rest[0] in ticks;
      QuietKeepsDue(t.after, rest[0].before, i, n - 1);
      forall k | 0 < k < |rest|
        ensures Quiet(rest[k - 1].after, rest[k].before)
      {
        assert rest[k - 1] == ticks[k] && rest[k] == ticks[k + 1];
      }
      FiresWhenDue(rest, i, n - 1);
      forall k | 0 <= k < n - 1
        ensures i !in ticks[k].decayed
      {
        if k > 0 {
          assert ticks[k] == rest[k - 1];
        }
      }
    }
  }

  /** From the cleanup that places an item of the given duration: it decays at exactly its firing tick. */
  lemma FiresOnTime(w: Wheel, placed: Wheel, ticks: seq<Tick>, i: Item)
    requires Orderly(w) && Placed(w, placed) && i in w.waiting
    requires Run(ticks) && (forall t <- ticks :: i in t.mayDecay)
    requires var n := FiringTicks(w.duration[i]); 0 < |ticks| && n <= |ticks|
    requires Orderly(ticks[0].before) && Quiet(placed, ticks[0].before)
    ensures var n := FiringTicks(w.duration[i]);
            n > 0 && i in ticks[n - 1].decayed && forall k :: 0 <= k < n - 1 ==> i !in ticks[k].decayed
  {
    PlacedIsDue(w, placed, i);
    QuietKeepsDue(placed, ticks[0].before, i, FiringTicks(w.duration[i]));
    FiresWhenDue(ticks, i, FiringTicks(w.duration[i]));
  }

  class Game {
    var decayItems: seq<seq<Item>>
    var lastBucket: nat
    var toDecayItems: seq<Item>
    ghost var items: set<Item>

    constructor ()
      ensures Valid() && items == {} && toDecayItems == []
    {
      decayItems := [[], [], [], []];
      lastBucket := 0;
      toDecayItems := [];
      items := {};
    }

    ghost function View(): Wheel
      reads this, items
    {
      Wheel(decayItems, lastBucket, toDecayItems, map i | i in items :: i.duration)
    }

    /** Whatever is in the wheel is marked. */
    ghost predicate Marked()
      reads this, items
    {
      forall i <- items :: InWheel(View(), i) ==> i.decaying
    }

    ghost predicate Valid()
      reads this, items
    {
      Orderly(View()) && Marked()
    }

    /** An item that can decay and is not marked waits for the next cleanup, or, without duration, decays at once into
        the first of its stages that has one.  The marks keep every item in one place; without them that is so
        exactly if the item is not in the wheel, or is not to enter it. */
    method StartDecay(item: Item, canDecay: bool, stages: seq<int>)
      requires Orderly(View()) && item in items
      modifies this`toDecayItems, item
      ensures var enters := canDecay && !old(item.decaying) && Lasting([old(item.duration)] + stages) > 0;
              && toDecayItems == (if enters then [item] + old(toDecayItems) else old(toDecayItems))
              && (Orderly(View()) <==> !enters || !InWheel(old(View()), item))
      ensures old(Marked()) ==> Valid() && Quiet(old(View()), View())
      ensures View().duration
              == old(View()).duration[item := if canDecay && !old(item.decaying)
              then Lasting([old(item.duration)] + stages)
                                                              else old(item.duration)]
      decreases |stages|, 1
    {
      if !canDecay || item.decaying {
        return;
      }
      ghost var w := View();
      assert ([item.duration] + stages)[1..] == stages;
      if item.duration > 0 {
        item.decaying := true;
        toDecayItems := [item] + toDecayItems;
        assert View() == w.(waiting := [item] + w.waiting);
        EnteredOrderly(w, item, View());
      } else {
        InternalDecayItem(item, stages);
      }
    }

    /** As long as nothing enters and no mark goes. */
    twostate lemma StillMarked()
      requires old(Marked()) && items == old(items) && NoneNew(old(View()), View())
      requires forall i <- items :: old(i.decaying) ==> i.decaying
      ensures Marked()
    {
      forall i <- items | InWheel(View(), i)
        ensures i.decaying
      {
        assert InWheel(old(View()), i);
      }
    }

    /** What waits is put into the wheel. */
    method Cleanup()
      requires Valid()
      modifies this`decayItems, this`toDecayItems
      ensures Valid() && Placed(old(View()), View())
    {
      ghost var w := View();
      assert w.waiting[0..] == w.waiting;
      var k := 0;
      while k < |toDecayItems|
        invariant 0 <= k <= |toDecayItems| && toDecayItems == w.waiting
        invariant PlacedUpTo(w, View().(waiting := w.waiting[k..]), k)
      {
        ghost var v := View().(waiting := w.waiting[k..]);
        var item := toDecayItems[k];
        assert item == v.waiting[0] && item in v.waiting;
        var b := FirstBucket(lastBucket, item.duration);
        decayItems := Appended(decayItems, b, item);
        assert v.waiting[1..] == w.waiting[k + 1..];
        PlaceNext(w, v, k, item, View().(waiting := w.waiting[k + 1..]));
        k := k + 1;
      }
      ghost var v := View().(waiting := w.waiting[k..]);
      toDecayItems := [];
      NothingWaits(w, v, View());
      StillMarked();
      assert w.waiting[..k] == w.waiting && w.waiting[k..] == [];
    }

    /** An item that decays becomes the first of its stages; behind the last one nothing is left that decays. */
    method InternalDecayItem(item: Item, stages: seq<int>)
      requires Orderly(View()) && item in items && item !in toDecayItems
      modifies this`toDecayItems, item
      decreases |stages|, 0
      ensures var enters := Lasting(stages) > 0;
              && toDecayItems == (if enters then [item] + old(toDecayItems) else old(toDecayItems))
              && (Orderly(View()) <==> !enters || !InWheel(old(View()), item))
      ensures old(Marked()) && !InWheel(old(View()), item) ==> Valid()
      ensures View() == old(View()).(duration := old(View()).duration[item := Lasting(stages)], waiting := toDecayItems)
    {
      ghost var w := View();
      item.decaying := false;
      if stages == [] {
        item.duration := 0;
      } else {
        item.duration := stages[0];
      }
      ghost var v := w.(duration := w.duration[item := item.duration]);
      assert View() == v;
      RestedOrderly(w, item, item.duration, v);
      assert old(Marked()) && !InWheel(w, item) ==> Marked();
      if stages != [] {
        StartDecay(item, true, stages[1..]);
        assert [stages[0]] + stages[1..] == stages;
        assert View().duration == w.duration[item := Lasting(stages)];
      }
    }

    /** An item enters with a mark, whether or not it had one: what is added to a container or tile, and any clone. */
    method Enter(item: Item)
      requires Orderly(View()) && item in items
      modifies this`toDecayItems, item`decaying
      ensures toDecayItems == if item.duration > 0 then [item] + old(toDecayItems) else old(toDecayItems)
      ensures View() == old(View()).(waiting := toDecayItems)
      ensures Orderly(View()) <==> item.duration <= 0 || !InWheel(old(View()), item)
      ensures old(Marked()) ==> Marked()
    {
      ghost var w := View();
      if item.duration > 0 {
        item.decaying := true;
        toDecayItems := [item] + toDecayItems;
        assert View() == w.(waiting := [item] + w.waiting);
        EnteredOrderly(w, item, View());
      } else {
        assert View() == w;
      }
    }

    /** A change of its type gives an item a new duration and takes its mark. */
    method Renew(item: Item, duration: nat)
      requires Valid() && item in items && duration > 0
      modifies item
      ensures Orderly(View()) && View() == old(View()).(duration := old(View()).duration[item := duration])
      ensures !item.decaying && (Valid() <==> !InWheel(old(View()), item))
    {
      ghost var w := View();
      item.decaying, item.duration := false, duration;
      assert View() == w.(duration := w.duration[item := duration]);
    }

    /** One tick of the wheel.  `mayDecay` are the items that may decay, and `becomes` says how long what
        an item decays into lasts, 0 if it leaves nothing that decays. */
    method CheckDecay(mayDecay: set<Item>, stages: Item -> seq<int>) returns (decayed: seq<Item>)
      requires Valid()
      modifies this`decayItems, this`lastBucket, this`toDecayItems, items
      ensures Valid() && toDecayItems == [] && items == old(items)
      ensures Ticked(old(View()), View(), decayed, mayDecay, Becomes(stages))
      ensures forall i <- old(decayItems[(lastBucket + 1) % DECAY_BUCKETS]) :: i !in mayDecay ==> !i.decaying
    {
      ghost var w := View();
      var bucket := (lastBucket + 1) % DECAY_BUCKETS;
      decayed := SeeToBucket(bucket, mayDecay, stages);
      ghost var v := View();
      lastBucket := bucket;
      assert Marked();
      Cleanup();
      SeenToIsTicked(w, mayDecay, Becomes(stages), v, decayed, View());
    }

    method SeeToBucket(bucket: nat, mayDecay: set<Item>, stages: Item -> seq<int>) returns (decayed: seq<Item>)
      requires Valid() && bucket < DECAY_BUCKETS
      modifies this`decayItems, this`toDecayItems, items
      ensures Valid() && items == old(items)
      ensures SeenTo(old(View()), bucket, mayDecay, Becomes(stages), |old(decayItems[bucket])|, View(), decayed)
      ensures forall i <- old(decayItems[bucket]) :: i !in mayDecay ==> !i.decaying
    {
      ghost var w := View();
      ghost var becomes := Becomes(stages);
      decayed := [];
      var it: nat := 0;
      ghost var k: nat := 0;
      assert w.buckets[bucket][..0] == [];
      while it < |decayItems[bucket]|
        invariant items == old(items) && Valid()
        invariant k <= |w.buckets[bucket]| && it <= |decayItems[bucket]|
        invariant decayItems[bucket][it..] == w.buckets[bucket][k..]
        invariant SeenTo(w, bucket, mayDecay, becomes, k, View(), decayed)
        invariant forall j :: 0 <= j < k && w.buckets[bucket][j] !in mayDecay ==> !w.buckets[bucket][j].decaying
        decreases |w.buckets[bucket]| - k
      {
        it, decayed := SeeToNext(bucket, it, mayDecay, stages, w, k, decayed);
        k := k + 1;
      }
    }

    /** The next item of the bucket, the k-th of those it held when the tick began. */
    method SeeToNext(bucket: nat, it: nat, mayDecay: set<Item>, stages: Item -> seq<int>, ghost w: Wheel, ghost k: nat,
                     decayed: seq<Item>)
      returns (it': nat, decayed': seq<Item>)
      requires Valid() && bucket < DECAY_BUCKETS && it < |decayItems[bucket]| && Orderly(w) && k <= |w.buckets[bucket]|
      requires decayItems[bucket][it..] == w.buckets[bucket][k..] && w.duration.Keys == items
      requires SeenTo(w, bucket, mayDecay, Becomes(stages), k, View(), decayed)
      requires forall j :: 0 <= j < k && w.buckets[bucket][j] !in mayDecay ==> !w.buckets[bucket][j].decaying
      modifies this`decayItems, this`toDecayItems, items
      ensures Valid() && items == old(items) && k < |w.buckets[bucket]|
      ensures it' <= |decayItems[bucket]| && decayItems[bucket][it'..] == w.buckets[bucket][k + 1..]
      ensures SeenTo(w, bucket, mayDecay, Becomes(stages), k + 1, View(), decayed')
      ensures forall j :: 0 <= j < k + 1 && w.buckets[bucket][j] !in mayDecay ==> !w.buckets[bucket][j].decaying
    {
      var item := decayItems[bucket][it];
      ghost var v := View();
      StillToSee(w, bucket, mayDecay, Becomes(stages), k, v, decayed, it, item);
      assert NoDuplicates(w.buckets[bucket]);
      var stays, gone := SeeTo(bucket, it, item, item in mayDecay, stages(item));
      decayed' := if gone then decayed + [item] else decayed;
      SeenToNext(w, bucket, mayDecay, Becomes(stages), k, v, decayed, it, item, View(), decayed');
      it' := if stays then it + 1 else it;
    }

    /** One item of the bucket is looked at. */
    method SeeTo(bucket: nat, it: nat, item: Item, canDecay: bool, stages: seq<int>) returns (stays: bool, gone: bool)
      requires Valid() && bucket < DECAY_BUCKETS && it < |decayItems[bucket]| && decayItems[bucket][it] == item
               && item in items
      modifies this`decayItems, this`toDecayItems, item
      ensures var fate := FateOf(bucket, canDecay, old(item.duration));
              && View() == Seen(old(View()), bucket, it, fate, Lasting(stages))
              && gone == fate.Decays? && stays == (fate.Goes? && fate.bucket == bucket) && Marked()
      ensures !canDecay ==> !item.decaying && !gone
    {
      if !canDecay {
        TakeOut(bucket, it, item);
        Unmark(item);
        return false, false;
      }
      stays, gone := LowerAndPlace(bucket, it, item, stages);
    }

    method Unmark(item: Item)
      requires Valid() && item in items && !InWheel(View(), item)
      modifies item`decaying
      ensures Valid() && View() == old(View()) && !item.decaying
    {
      ghost var w := View();
      item.decaying := false;
      assert View().duration == w.duration;
    }

    method LowerAndPlace(bucket: nat, it: nat, item: Item, stages: seq<int>) returns (stays: bool, gone: bool)
      requires Valid() && bucket < DECAY_BUCKETS && it < |decayItems[bucket]| && decayItems[bucket][it] == item
               && item in items
      modifies this`decayItems, this`toDecayItems, item
      ensures var fate := FateOf(bucket, true, old(item.duration));
              && View() == Seen(old(View()), bucket, it, fate, Lasting(stages))
              && gone == fate.Decays? && stays == (fate.Goes? && fate.bucket == bucket) && Marked()
    {
      ghost var w := View();
      stays, gone := false, false;
      var duration := item.duration;
      var decreaseTime := if duration < ROUND then duration else ROUND;
      duration := duration - decreaseTime;
      item.duration := item.duration - decreaseTime;
      ghost var v := w.(duration := w.duration[item := duration]);
      assert View() == v;
      LoweredOrderly(w, bucket, it, duration, v);
      var newBucket := (bucket + (duration + DECAY_INTERVAL / 2) / 1000) % DECAY_BUCKETS;
      if duration <= 0 || (duration < ROUND && newBucket == bucket) {
        Decay(bucket, it, item, stages);
        gone := true;
      } else if duration < ROUND {
        decayItems := Appended(TakenOut(decayItems, bucket, it), newBucket, item);
      } else {
        stays := true;
      }
      LoweredSeen(w, bucket, it, item, Lasting(stages), View(), stays, gone);
      if !gone {
        SeenNoneNew(w, bucket, it, FateOf(bucket, true, w.duration[item]), Lasting(stages), View());
        StillMarked();
      }
    }

    /** The item leaves the bucket and decays. */
    method Decay(bucket: nat, it: nat, item: Item, stages: seq<int>)
      requires Valid() && bucket < DECAY_BUCKETS && it < |decayItems[bucket]| && decayItems[bucket][it] == item
               && item in items
      modifies this`decayItems, this`toDecayItems, item
      ensures View() == old(View()).(buckets := TakenOut(old(decayItems), bucket, it),
                                     duration := old(View()).duration[item := Lasting(stages)],
                                     waiting := if Lasting(stages) > 0 then [item] + old(toDecayItems)
                                         else old(toDecayItems))
      ensures Marked()
    {
      TakeOut(bucket, it, item);
      InternalDecayItem(item, stages);
    }

    method TakeOut(bucket: nat, it: nat, item: Item)
      requires Valid() && bucket < DECAY_BUCKETS && it < |decayItems[bucket]| && decayItems[bucket][it] == item
      modifies this`decayItems
      ensures Valid() && !InWheel(View(), item)
      ensures View() == old(View()).(buckets := TakenOut(old(decayItems), bucket, it))
    {
      ghost var w := View();
      assert In(w.buckets, bucket, item);
      decayItems := TakenOut(decayItems, bucket, it);
      assert w.duration == w.duration[item := w.duration[item]];
      TakenOutOrderly(w, bucket, it, w.duration[item], View());
    }
  }
  /** A clone enters the wheel when it is made, and once more when it is added to a container or tile. */
  method CloneAndAdd(duration: int) returns (g: Game, item: Item)
    requires duration > 0
    ensures g.toDecayItems == [item, item] && !g.Valid()
  {
    g := new Game();
    item := new Item(duration);
    g.items := {item};
    g.Enter(item);
    g.Enter(item);
    assert item in g.View().waiting;
  }

  /** An item that waits, changes its type and starts to decay again waits twice. */
  method RenewAndStart(duration: int, renewed: nat) returns (g: Game, item: Item)
    requires duration > 0 && renewed > 0
    ensures g.toDecayItems == [item, item] && !g.Valid()
  {
    g := new Game();
    item := new Item(duration);
    g.items := {item};
    g.StartDecay(item, true, []);
    assert item in g.View().waiting;
    g.Renew(item, renewed);
    g.StartDecay(item, true, []);
  }
}
