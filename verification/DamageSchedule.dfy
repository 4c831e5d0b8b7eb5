/** Damage over time as the creature's think loop delivers it (src/condition.cpp, ConditionDamage). */
module DamageSchedule {
  import Arithmetic
  import opened DamageList

  /** The creature thinks once a second. */
  const THINK_INTERVAL := 1000

  datatype IntervalInfo = IntervalInfo(timeLeft: int, value: int, interval: int)

  /** What lies on the creature's tile: no field, a field of another kind, a field of this kind. */
  datatype TileField = NoField | OtherField | SameField

  function Values(list: seq<IntervalInfo>): (vs: seq<int>)
    ensures |vs| == |list|
  {
    if list == [] then [] else [list[0].value] + Values(list[1..])
  }

  function TotalInterval(list: seq<IntervalInfo>): int {
    if list == [] then 0 else list[0].interval + TotalInterval(list[1..])
  }

  /** Thinks it takes until a value with this much time left is applied. */
  function ThinksFor(timeLeft: int): nat {
    if timeLeft <= THINK_INTERVAL then 1 else 1 + (timeLeft - 1) / THINK_INTERVAL
  }

  /** Thinks it takes to apply everything queued. */
  function ThinksNeeded(list: seq<IntervalInfo>): nat {
    if list == [] then 0 else ThinksFor(list[0].timeLeft) + ThinksNeeded(list[1..])
  }

  /** The values one think applies, and the queue it leaves, when no field interferes. */
  function Hit(list: seq<IntervalInfo>): seq<int> {
    if list != [] && list[0].timeLeft <= THINK_INTERVAL then [list[0].value] else []
  }

  function AfterThink(list: seq<IntervalInfo>): seq<IntervalInfo> {
    AfterTime(list, THINK_INTERVAL)
  }

  function AfterTime(list: seq<IntervalInfo>, interval: int): seq<IntervalInfo> {
    if list == [] then []
    else if list[0].timeLeft <= interval then list[1..]
    else [list[0].(timeLeft := list[0].timeLeft - interval)] + list[1..]
  }

  /** The front of the queue of an endless condition, which starts again when its time is up. */
  function Restarted(info: IntervalInfo, interval: int): IntervalInfo {
    if info.timeLeft <= interval then info.(timeLeft := info.interval) else info.(timeLeft := info.timeLeft - interval)
  }

  /** The counter of a fixed periodic damage after one think. */
  function PeriodTick(tick: int, interval: int, tickInterval: int): int {
    if tick + interval >= tickInterval then 0 else tick + interval
  }

  /** How often n thinks apply the fixed damage. */
  function PeriodHits(n: nat, tick: int, tickInterval: int): nat {
    if n == 0 then 0
    else
      (if tick + THINK_INTERVAL >= tickInterval then 1 else 0)
      + PeriodHits(n - 1, PeriodTick(tick, THINK_INTERVAL, tickInterval), tickInterval)
  }

  /** A fixed damage is applied once in every so many thinks as its interval calls for, rounded up. */
  lemma PeriodicExactly(n: nat, tickInterval: int)
    ensures PeriodHits(n, 0, tickInterval) == n / ThinksFor(tickInterval)
  {
    PeriodicFrom(n, 0, tickInterval);
  }

  lemma {:induction false} PeriodicFrom(n: nat, done: nat, tickInterval: int)
    requires done < ThinksFor(tickInterval)
    ensures PeriodHits(n, done * THINK_INTERVAL, tickInterval) == (n + done) / ThinksFor(tickInterval)
  {
    var thinks := ThinksFor(tickInterval);
    if n == 0 {
      Arithmetic.QuotientIs(done, thinks, 0);
    } else if done + 1 == thinks {
      PeriodicFrom(n - 1, 0, tickInterval);
      Arithmetic.DivBounds(n - 1, thinks);
      Arithmetic.QuotientIs(n + done, thinks, (n - 1) / thinks + 1);
    } else {
      PeriodicFrom(n - 1, done + 1, tickInterval);
    }
  }

  /** Everything applied from the think at time `now` on, one think a second, until the condition
      reports that it has expired. */
  function Delivered(list: seq<IntervalInfo>, endTime: int, now: int): seq<int>
    decreases if endTime >= now then endTime - now + 1 else 0
  {
    if endTime >= now then Hit(list) + Delivered(AfterThink(list), endTime, now + THINK_INTERVAL)
    else Hit(list)
  }

  lemma ThinkUsesOne(list: seq<IntervalInfo>)
    requires list != []
    ensures ThinksNeeded(AfterThink(list)) == ThinksNeeded(list) - 1
    ensures Values(list) == Hit(list) + Values(AfterThink(list))
  {
    if list[0].timeLeft > THINK_INTERVAL {
      assert AfterThink(list)[1..] == list[1..];
    }
  }

  /** What is delivered is always the front of the queue, in order; it is all of the queue exactly
      when the last needed think comes no later than one think after the end time. */
  lemma {:induction false} DeliveredExactly(list: seq<IntervalInfo>, endTime: int, now: int)
    ensures Delivered(list, endTime, now) <= Values(list)
    ensures Delivered(list, endTime, now) == Values(list) <==>
            ThinksNeeded(list) <= 1 || now + (ThinksNeeded(list) - 2) * THINK_INTERVAL <= endTime
    decreases if endTime >= now then endTime - now + 1 else 0
  {
    if list != [] {
      ThinkUsesOne(list);
    }
    if endTime >= now {
      DeliveredExactly(AfterThink(list), endTime, now + THINK_INTERVAL);
      assert Values(list) == Hit(list) + Values(AfterThink(list));
    }
  }

  /** A queue as addDamage builds it. */
  predicate Fresh(list: seq<IntervalInfo>) {
    forall k :: 0 <= k < |list| ==> list[k].timeLeft == list[k].interval >= THINK_INTERVAL
  }

  predicate WholeThinks(list: seq<IntervalInfo>) {
    forall k :: 0 <= k < |list| ==> list[k].interval % THINK_INTERVAL == 0
  }

  lemma {:induction false} WholeThinksNeeded(list: seq<IntervalInfo>)
    requires Fresh(list) && WholeThinks(list)
    ensures ThinksNeeded(list) * THINK_INTERVAL == TotalInterval(list)
  {
    if list != [] {
      WholeThinksNeeded(list[1..]);
      assert list[0].timeLeft == THINK_INTERVAL * (list[0].timeLeft / THINK_INTERVAL);
    }
  }

  /** With whole-second intervals every value is applied, in order, before the condition expires: the
      condition starts at `start` and the first think comes within the next second. */
  lemma EverythingDelivered(list: seq<IntervalInfo>, start: int, firstThink: int, endTime: int)
    requires Fresh(list) && WholeThinks(list)
    requires firstThink <= start + THINK_INTERVAL && endTime >= start + TotalInterval(list)
    ensures Delivered(list, endTime, firstThink) == Values(list)
  {
    WholeThinksNeeded(list);
    DeliveredExactly(list, endTime, firstThink);
  }

  /** The queue of `rounds` equal hits. */
  function Rounds(rounds: nat, time: int, value: int): (list: seq<IntervalInfo>) {
    seq(rounds, _ => IntervalInfo(time, value, time))
  }

  lemma {:induction false} RoundsNeeded(rounds: nat, time: int, value: int)
    ensures ThinksNeeded(Rounds(rounds, time, value)) == rounds * ThinksFor(time)
    ensures TotalInterval(Rounds(rounds, time, value)) == rounds * time
  {
    if rounds > 0 {
      RoundsNeeded(rounds - 1, time, value);
      assert Rounds(rounds, time, value)[1..] == Rounds(rounds - 1, time, value);
    }
  }

  /** For equal hits the outcome can be read off their number, their spacing and how long after the
      start the first think comes. */
  lemma RoundsDelivered(rounds: nat, time: int, value: int, start: int, firstThink: int)
    requires time >= THINK_INTERVAL
    ensures var list := Rounds(rounds, time, value);
            Delivered(list, start + TotalInterval(list), firstThink) == Values(list) <==>
            rounds * ThinksFor(time) <= 1 ||
            (firstThink - start) + (rounds * ThinksFor(time) - 2) * THINK_INTERVAL <= rounds * time
  {
    var list := Rounds(rounds, time, value);
    RoundsNeeded(rounds, time, value);
    DeliveredExactly(list, start + TotalInterval(list), firstThink);
  }

  /** Hits spaced 1.5 seconds apart get lost: five of them need ten thinks, and the condition is over
      after nine. */
  lemma HalfSecondsLoseHits(value: int, start: int)
    ensures var list := Rounds(5, 1500, value);
            Delivered(list, start + TotalInterval(list), start + THINK_INTERVAL) != Values(list)
  {
    RoundsDelivered(5, 1500, value, start, start + THINK_INTERVAL);
  }

  lemma RoundsSnoc(rounds: nat, time: int, value: int)
    ensures Rounds(rounds + 1, time, value) == Rounds(rounds, time, value) + [IntervalInfo(time, value, time)]
  {
  }

  lemma {:induction false} Append(a: seq<IntervalInfo>, b: seq<IntervalInfo>)
    ensures TotalInterval(a + b) == TotalInterval(a) + TotalInterval(b)
    ensures Values(a + b) == Values(a) + Values(b)
  {
    if a == [] {
      assert a + b == b;
    } else {
      Append(a[1..], b);
      assert (a + b)[1..] == a[1..] + b;
    }
  }

  function Max(a: int, b: int): int {
    if a > b then a else b
  }

  function Negated(list: seq<int>): seq<int> {
    seq(|list|, k requires 0 <= k < |list| => -list[k])
  }

  lemma {:induction false} SumNegated(list: seq<int>)
    ensures Sum(Negated(list)) == -Sum(list)
  {
    if list != [] {
      SumNegated(list[..|list| - 1]);
      assert Negated(list)[..|list| - 1] == Negated(list[..|list| - 1]);
    }
  }

  function SumValues(list: seq<IntervalInfo>): int {
    if list == [] then 0 else list[0].value + SumValues(list[1..])
  }

  lemma {:induction false} SumOfValues(list: seq<IntervalInfo>)
    ensures Sum(Values(list)) == SumValues(list)
  {
    if list != [] {
      SumOfValues(list[1..]);
      SumAfter(list[0].value, Values(list[1..]));
    }
  }

  lemma {:induction false} SumAfter(v: int, list: seq<int>)
    ensures Sum([v] + list) == v + Sum(list)
  {
    if list == [] {
      assert [v] + list == [v];
    } else {
      assert ([v] + list)[..|list|] == [v] + list[..|list| - 1];
      SumAfter(v, list[..|list| - 1]);
    }
  }

  /** Division as C++ does it. */
  function Quotient(a: int, b: int): int
    requires b > 0
  {
    if a >= 0 then a / b else -(-a / b)
  }

  lemma {:induction false} Total(list: seq<IntervalInfo>)
    requires Fresh(list)
    ensures TotalInterval(list) >= 0 && (list != [] ==> TotalInterval(list) > 0)
  {
    if list != [] {
      Total(list[1..]);
    }
  }

  function ChosenStart(startDamage: int, maxDamage: int, amount: int): int {
    if startDamage > maxDamage then maxDamage
    else if startDamage == 0 then DefaultStart(amount)
    else startDamage
  }

  lemma StartComesFirst(list: seq<int>, start: int)
    requires NonIncreasing(list) && start in list && forall v <- list :: v <= start
    ensures list != [] && list[0] == start
  {
    var k :| 0 <= k < |list| && list[k] == start;
    assert list[0] in list && (k > 0 ==> list[0] >= list[k]);
  }

  /** A start that is given is used, but never one above the greatest damage; else a twentieth of the amount. */
  lemma ChosenStartIs(startDamage: int, maxDamage: int, amount: int)
    ensures var s := ChosenStart(startDamage, maxDamage, amount);
            && (0 != startDamage <= maxDamage ==> s == startDamage) && (startDamage > maxDamage ==> s == maxDamage)
            && (0 == startDamage <= maxDamage && amount > 0 ==> 20 * (s - 1) < amount <= 20 * s)
  {
    DefaultStartIsTwentieth(amount);
  }

  class ConditionDamage {
    var ticks: int
    var endTime: int
    var damageList: seq<IntervalInfo>
    var periodDamage: int
    var periodDamageTick: int
    var tickInterval: int
    var minDamage: int
    var maxDamage: int
    var startDamage: int
    var delayed: bool

    constructor ()
      ensures ticks == 0 && damageList == [] && periodDamage == 0 && tickInterval == 2000
      ensures minDamage == maxDamage == startDamage == 0 && !delayed
    {
      ticks, endTime, damageList, periodDamage, periodDamageTick, tickInterval := 0, 0, [], 0, 0, 2000;
      minDamage, maxDamage, startDamage, delayed := 0, 0, 0, false;
    }

    method SetTicks(newTicks: int, now: int)
      modifies this`ticks, this`endTime
      ensures ticks == newTicks && endTime == newTicks + now
    {
      ticks := newTicks;
      endTime := ticks + now;
    }

    /** Every hit queued lengthens the condition by its own interval. */
    method AddDamage(rounds: int, time: int, value: int, now: int) returns (ok: bool)
      modifies this`ticks, this`endTime, this`damageList, this`periodDamage, this`tickInterval
      ensures rounds == -1 ==> ok && periodDamage == value && ticks == -1 && damageList == old(damageList) &&
                               tickInterval == Max(time, THINK_INTERVAL)
      ensures rounds != -1 && old(periodDamage) > 0 ==> !ok && unchanged(this)
      ensures rounds != -1 && old(periodDamage) <= 0 ==>
                && ok && unchanged(`periodDamage, `minDamage, `maxDamage, `startDamage, `delayed, `tickInterval)
                && damageList == old(damageList) + Rounds(Max(rounds, 0), Max(time, THINK_INTERVAL), value)
                && (old(ticks) != -1 && old(ticks) >= 0 ==>
                      && ticks == old(ticks) + Max(rounds, 0) * Max(time, THINK_INTERVAL)
                      && (rounds > 0 ==> endTime == ticks + now)
                      && (rounds <= 0 ==> endTime == old(endTime)))
                && (old(ticks) == -1 ==> unchanged(`ticks, `endTime))
    {
      var t := Max(time, THINK_INTERVAL);
      if rounds == -1 {
        periodDamage := value;
        tickInterval := t;
        ticks := -1;
        return true;
      }
      if periodDamage > 0 {
        return false;
      }
      var i := 0;
      while i < rounds
        invariant 0 <= i <= Max(rounds, 0)
        invariant unchanged(`periodDamage, `minDamage, `maxDamage, `startDamage, `delayed, `tickInterval,
                  `periodDamageTick)
        invariant damageList == old(damageList) + Rounds(i, t, value)
        invariant old(ticks) >= 0 ==> ticks == old(ticks) + i * t && endTime == if i == 0 then old(endTime)
                  else ticks + now
        invariant old(ticks) == -1 ==> unchanged(`ticks, `endTime)
      {
        RoundsSnoc(i, t, value);
        assert old(ticks) >= 0 ==> i * t >= 0;
        damageList := damageList + [IntervalInfo(t, value, t)];
        if ticks != -1 {
          SetTicks(ticks + t, now);
        }
        i := i + 1;
      }
      return true;
    }

    /** The queue is as addDamage builds it and the condition lasts exactly as long as the queue. */
    ghost predicate Scheduled()
      reads this
    {
      Fresh(damageList) && ticks == TotalInterval(damageList)
    }

    /** One hit for each value of the list, each after the tick interval. */
    method QueueHits(list: seq<int>, now: int)
      requires periodDamage == 0 && damageList == [] && ticks == 0 && endTime == now
      modifies this`damageList, this`ticks, this`endTime, this`periodDamage, this`tickInterval
      ensures unchanged(`periodDamage, `tickInterval)
      ensures Scheduled() && endTime == now + ticks
      ensures Values(damageList) == Negated(list)
      ensures forall k :: 0 <= k < |damageList| ==> damageList[k].interval == Max(tickInterval, THINK_INTERVAL)
    {
      var t := Max(tickInterval, THINK_INTERVAL);
      var i := 0;
      while i < |list|
        invariant 0 <= i <= |list|
        invariant unchanged(`periodDamage, `tickInterval)
        invariant Scheduled() && endTime == now + ticks && ticks >= 0
        invariant forall k :: 0 <= k < |damageList| ==> damageList[k].interval == t
        invariant Values(damageList) == Negated(list[..i])
      {
        ghost var queue := damageList;
        var added := AddDamage(1, tickInterval, -list[i], now);
        assert Rounds(1, t, -list[i]) == [IntervalInfo(t, -list[i], t)];
        Append(queue, Rounds(1, t, -list[i]));
        assert Negated(list[..i + 1]) == Negated(list[..i]) + [-list[i]];
        i := i + 1;
      }
      assert list[..|list|] == list;
    }

    /** The list of hits is generated and queued. */
    method DrawUp(amount: int, start: int, now: int)
      requires periodDamage == 0 && damageList == [] && ticks == 0 && endTime == now
      requires start >= 1 ==> FitsInt32(amount, start)
      modifies this`damageList, this`ticks, this`endTime, this`periodDamage, this`tickInterval
      ensures unchanged(`periodDamage, `tickInterval)
      ensures Scheduled() && endTime == now + ticks
      ensures forall k :: 0 <= k < |damageList| ==> damageList[k].interval == Max(tickInterval, THINK_INTERVAL)
      ensures start <= 0 ==> damageList == []
      ensures start >= 1 ==> damageList != [] && damageList[0].value == -start
      ensures start >= 1 ==>
                && -Sum(Values(damageList)) >= Abs(amount)
                && (-Sum(Values(damageList)) == Abs(amount) <==> Abs(amount) >= Triangle(start))
    {
      var list := GenerateDamageList(amount, start);
      QueueHits(list, now);
      SumNegated(list);
      if start >= 1 {
        StartComesFirst(list, start);
        assert Values(damageList)[0] == -list[0];
      }
    }

    /** Filling the queue.  `amount` is the value drawn between the least and the greatest damage. */
    method Init(amount: int, now: int) returns (ok: bool)
      requires periodDamage == 0 && damageList == [] ==> FitsInt32(amount, ChosenStart(startDamage, maxDamage, amount))
      modifies this
      ensures ok == (periodDamage != 0 || damageList != [])
      ensures unchanged(`periodDamage, `delayed, `tickInterval, `maxDamage)
      ensures old(periodDamage) != 0 || old(damageList) != [] ==> unchanged(this)
      ensures old(periodDamage) == 0 && old(damageList) == [] ==>
                var start := ChosenStart(old(startDamage), maxDamage, amount);
                && Scheduled() && endTime == now + ticks
                && (forall k :: 0 <= k < |damageList| ==> damageList[k].interval == Max(tickInterval, THINK_INTERVAL))
                && (amount == 0 || start <= 0 ==> damageList == [])
                && (amount != 0 && start >= 1 ==>
                      && damageList != [] && damageList[0].value == -start
                      && -Sum(Values(damageList)) >= Abs(amount)
                      && (-Sum(Values(damageList)) == Abs(amount) <==> Abs(amount) >= Triangle(start)))
    {
      if periodDamage != 0 {
        return true;
      }
      if damageList == [] {
        SetTicks(0, now);
        if amount != 0 {
          if startDamage > maxDamage {
            startDamage := maxDamage;
          } else if startDamage == 0 {
            startDamage := DefaultStart(amount);
          }
          DrawUp(amount, startDamage, now);
        }
      }
      return damageList != [];
    }

    /** The next hit; it leaves the queue unless the condition never ends. */
    method GetNextDamage() returns (next: seq<int>)
      modifies this`damageList
      ensures old(periodDamage) != 0 ==> next == [periodDamage] && unchanged(this)
      ensures old(periodDamage) == 0 ==>
                && next == (if old(damageList) == [] then [] else [old(damageList)[0].value])
                && damageList == if old(damageList) == [] || ticks == -1 then old(damageList) else old(damageList)[1..]
    {
      if periodDamage != 0 {
        return [periodDamage];
      } else if damageList != [] {
        next := [damageList[0].value];
        if ticks != -1 {
          damageList := damageList[1..];
        }
      } else {
        next := [];
      }
    }

    /** Starting: the queue is filled if nobody filled it, and unless the condition is delayed the first
        hit is applied at once.  `hitTakes` says whether that hit got through to the creature. */
    method StartCondition(amount: int, now: int, hitTakes: bool) returns (ok: bool, hits: seq<int>)
      requires periodDamage == 0 && Scheduled()
      requires damageList == [] ==> FitsInt32(amount, ChosenStart(startDamage, maxDamage, amount))
      modifies this
      ensures periodDamage == 0 && unchanged(`tickInterval, `maxDamage) && ticks >= 0
      ensures hits != [] ==> !old(delayed) && ok == hitTakes
      ensures hits == [] ==> ok == (damageList != [])
      ensures old(damageList) != [] && !old(delayed) ==> hits == [old(damageList)[0].value]
      ensures Fresh(damageList)
      ensures ok ==> endTime == now + ticks && ticks >= TotalInterval(damageList)
      ensures old(damageList) != [] ==>
                && hits + Values(damageList) == Values(old(damageList))
                && (WholeThinks(old(damageList)) ==> WholeThinks(damageList))
      ensures old(damageList) == [] ==>
                var start := ChosenStart(old(startDamage), maxDamage, amount);
                && (tickInterval % THINK_INTERVAL == 0 ==> WholeThinks(damageList))
                && (amount == 0 || start < 1 ==> !ok && hits == [])
                && (amount != 0 && start >= 1 ==>
                      && ok == (hits == [] || hitTakes) && (hits == [] <==> old(delayed))
                      && (hits != [] ==> hits == [-start])
                      && -Sum(hits + Values(damageList)) >= Abs(amount)
                      && (-Sum(hits + Values(damageList)) == Abs(amount) <==> Abs(amount) >= Triangle(start)))
    {
      hits := [];
      Total(damageList);
      if ticks > 0 {
        endTime := ticks + now;
      }
      var initialised := Init(amount, now);
      if !initialised {
        return false, [];
      }
      ok, hits := FirstHit(hitTakes);
    }

    /** Unless the condition is delayed its first hit leaves the queue. */
    method FirstHit(hitTakes: bool) returns (ok: bool, hits: seq<int>)
      requires periodDamage == 0 && Scheduled() && damageList != []
      modifies this`damageList
      ensures hits + Values(damageList) == Values(old(damageList))
      ensures if delayed then ok && hits == [] else hits == [old(damageList)[0].value] && ok == hitTakes
      ensures Fresh(damageList) && 0 <= TotalInterval(damageList) <= ticks
      ensures WholeThinks(old(damageList)) ==> WholeThinks(damageList)
    {
      Total(damageList);
      Total(damageList[1..]);
      hits := [];
      if !delayed {
        hits := GetNextDamage();
        if hits != [] {
          return hitTakes, hits;
        }
      }
      ok := true;
    }

    /** One think.  With no field of this kind on the tile the front of the queue loses a second, and is
        applied and dropped when its time is up; on such a field it is applied but stays, and the
        condition is prolonged by the think. */
    method ExecuteCondition(interval: int, field: TileField, now: int) returns (alive: bool, hits: seq<int>)
      modifies this
      ensures old(periodDamage) == 0 && old(ticks) >= 0 && field != SameField && interval == THINK_INTERVAL ==>
                && damageList == AfterThink(old(damageList)) && hits == Hit(old(damageList))
                && periodDamage == 0 && ticks >= 0 && endTime == old(endTime)
                && (alive <==> endTime >= now)
      ensures old(periodDamage) == 0 && old(ticks) > 0 && field == SameField && old(damageList) != [] ==>
                && Values(damageList) == Values(old(damageList)) && ticks == old(ticks)
                && endTime == old(endTime) + interval && (alive <==> endTime >= now)
                && hits == if old(damageList)[0].timeLeft <= interval then [old(damageList)[0].value] else []
      ensures old(periodDamage) == 0 && old(ticks) == -1 && field != OtherField && old(damageList) != [] ==>
                && Values(damageList) == Values(old(damageList)) && damageList[1..] == old(damageList)[1..]
                && damageList[0] == Restarted(old(damageList)[0], interval) && ticks == -1 && endTime == old(endTime)
                && alive
                && hits == if old(damageList)[0].timeLeft <= interval then [old(damageList)[0].value] else []
      ensures old(periodDamage) == 0 && old(ticks) == -1 && field == OtherField && old(damageList) != [] ==>
                && damageList == AfterTime(old(damageList), interval) && ticks == -1 && endTime == old(endTime) && alive
                && hits == if old(damageList)[0].timeLeft <= interval then [old(damageList)[0].value] else []
      ensures old(periodDamage) != 0 ==>
                && unchanged(`damageList, `endTime, `periodDamage)
                && periodDamageTick == PeriodTick(old(periodDamageTick), interval, tickInterval)
                && hits == if old(periodDamageTick) + interval >= tickInterval then [periodDamage] else []
      ensures unchanged(`tickInterval)
      ensures (ticks == -1 <==> old(ticks) == -1) && (alive <==> ticks == -1 || endTime >= now)
    {
      var remaining := interval;
      hits := [];
      if periodDamage != 0 {
        periodDamageTick := periodDamageTick + interval;
        if periodDamageTick >= tickInterval {
          periodDamageTick := 0;
          hits := [periodDamage];
        }
      } else if damageList != [] {
        var info := damageList[0];
        var bRemove := match field case NoField => ticks != -1 case OtherField => true case SameField => false;
        info := info.(timeLeft := info.timeLeft - interval);
        if info.timeLeft <= 0 {
          hits := [info.value];
          if bRemove {
            damageList := damageList[1..];
          } else {
            damageList := [info.(timeLeft := info.interval)] + damageList[1..];
          }
        } else {
          damageList := [info] + damageList[1..];
        }
        if !bRemove {
          if ticks > 0 {
            endTime := endTime + interval;
          }
          remaining := 0;
        }
      }
      if ticks == -1 {
        return true, hits;
      }
      ticks := Max(0, ticks - remaining);
      return endTime >= now, hits;
    }

    /** An endless condition with a fixed damage thinks n times. */
    method ThinkTimes(n: nat, firstThink: int) returns (hits: seq<int>)
      requires periodDamage != 0 && ticks == -1 && periodDamageTick == 0
      modifies this
      ensures |hits| == n / ThinksFor(tickInterval) && forall k :: 0 <= k < |hits| ==> hits[k] == periodDamage
      ensures ticks == -1 && unchanged(`periodDamage, `tickInterval, `damageList)
    {
      hits := [];
      for k := 0 to n
        invariant ticks == -1 && unchanged(`periodDamage, `tickInterval, `damageList)
        invariant |hits| + PeriodHits(n - k, periodDamageTick, tickInterval) == PeriodHits(n, 0, tickInterval)
        invariant forall j :: 0 <= j < |hits| ==> hits[j] == periodDamage
      {
        var alive, applied := ExecuteCondition(THINK_INTERVAL, NoField, firstThink + k * THINK_INTERVAL);
        hits := hits + applied;
      }
      PeriodicExactly(n, tickInterval);
    }

    /** One think of a condition that ends, away from fields. */
    method ThinkQueue(now: int) returns (alive: bool, hits: seq<int>)
      requires periodDamage == 0 && ticks >= 0
      modifies this
      ensures damageList == AfterThink(old(damageList)) && hits == Hit(old(damageList))
      ensures periodDamage == 0 && ticks >= 0 && endTime == old(endTime) && (alive <==> endTime >= now)
    {
      alive, hits := ExecuteCondition(THINK_INTERVAL, NoField, now);
    }

    /** The think loop, once a second from `firstThink` on, until the condition reports its expiry. */
    method ThinkUntilExpired(firstThink: int) returns (hits: seq<int>)
      requires periodDamage == 0 && ticks >= 0
      modifies this
      ensures hits == Delivered(old(damageList), old(endTime), firstThink)
    {
      hits := [];
      var now := firstThink;
      var alive := true;
      while alive
        invariant periodDamage == 0 && ticks >= 0 && endTime == old(endTime)
        invariant if alive
                  then hits + Delivered(damageList, endTime, now)
                  == Delivered(old(damageList), old(endTime), firstThink)
                  else hits == Delivered(old(damageList), old(endTime), firstThink)
        decreases alive, endTime - now
      {
        var applied;
        alive, applied := ThinkQueue(now);
        hits := hits + applied;
        now := now + THINK_INTERVAL;
      }
    }

    /** The whole life of a condition on a creature that thinks on time and never stands on a field of
        this kind, with whole-second intervals: every queued value is applied once, in order.  If the
        queue had to be drawn up, the damage dealt is never less than the amount drawn, and it is that
        amount exactly when the amount is at least 1 + ... + start.  If the first hit, at once, does not get
        through, the condition does not even start. */
    method Live(amount: int, now: int, firstThink: int, hitTakes: bool) returns (ok: bool, hits: seq<int>)
      requires periodDamage == 0 && Scheduled() && now <= firstThink <= now + THINK_INTERVAL
      requires if damageList == [] then tickInterval % THINK_INTERVAL == 0 else WholeThinks(damageList)
      requires damageList == [] ==> FitsInt32(amount, ChosenStart(startDamage, maxDamage, amount))
      modifies this
      ensures old(damageList) != [] && (hitTakes || old(delayed)) ==>
                ok && hits == Values(old(damageList)) && Abs(Sum(hits)) == old(GetTotalDamage())
      ensures old(damageList) != [] && !hitTakes && !old(delayed) ==> !ok && hits == [old(damageList)[0].value]
      ensures var start := ChosenStart(old(startDamage), old(maxDamage), amount);
              old(damageList) == [] ==>
                if amount == 0 || start < 1 then !ok && hits == []
                else if hitTakes || old(delayed) then
                  ok && -Sum(hits) >= Abs(amount) && (-Sum(hits) == Abs(amount) <==> Abs(amount) >= Triangle(start))
                else !ok && hits == [-start]
    {
      SumOfValues(damageList);
      ok, hits := StartCondition(amount, now, hitTakes);
      if ok {
        EverythingDelivered(damageList, now, firstThink, endTime);
        var later := ThinkUntilExpired(firstThink);
        hits := hits + later;
      }
    }

    /** The damage still queued, or the middle of the range it will be drawn from. */
    function GetTotalDamage(): int
      reads this
    {
      if damageList != [] then Abs(SumValues(damageList))
      else Abs(minDamage + Quotient(maxDamage - minDamage, 2))
    }
  }
}
