/** The list of active conditions of a creature and the speed they give it (src/creature.cpp, addCondition,
    removeCondition, executeConditions; src/condition.cpp, ConditionSpeed; Game::changeSpeed). */
module ActiveConditions {

  const CONDITION_HASTE := 16
  const CONDITION_PARALYZE := 32

  datatype Option<T> = None | Some(value: T)

  /** One condition as a value. */
  datatype Active = Active(conditionType: int, id: int, subId: int, speedDelta: int, ticks: int, endTime: int)

  predicate IsSpeed(conditionType: int) {
    conditionType == CONDITION_HASTE || conditionType == CONDITION_PARALYZE
  }

  predicate SameKey(a: Active, b: Active) {
    a.conditionType == b.conditionType && a.id == b.id && a.subId == b.subId
  }

  /** No two conditions have the same type, id and sub-id. */
  ghost predicate Unique(list: seq<Active>) {
    forall i, j {:trigger SameKey(list[i], list[j])} :: 0 <= i < j < |list| ==> !SameKey(list[i], list[j])
  }

  function DeltaOf(a: Active): int {
    if IsSpeed(a.conditionType) then a.speedDelta else 0
  }

  function SumDeltas(list: seq<Active>): int {
    if list == [] then 0 else DeltaOf(list[0]) + SumDeltas(list[1..])
  }

  lemma {:induction false} SumJoin(a: seq<Active>, b: seq<Active>)
    ensures SumDeltas(a + b) == SumDeltas(a) + SumDeltas(b)
  {
    if a == [] {
      assert a + b == b;
    } else {
      assert (a + b)[1..] == a[1..] + b;
      SumJoin(a[1..], b);
    }
  }

  lemma Parts<T>(list: seq<T>, k: nat, a: T)
    requires k < |list|
    ensures list == list[..k] + ([list[k]] + list[k + 1..])
    ensures list[k := a] == list[..k] + ([a] + list[k + 1..])
  {
  }

  function Without<T>(list: seq<T>, k: nat): (rest: seq<T>)
    requires k < |list|
    ensures |rest| == |list| - 1 && forall i :: 0 <= i < |rest| ==> rest[i] == list[if i < k then i else i + 1]
  {
    list[..k] + list[k + 1..]
  }

  lemma SumWithout(list: seq<Active>, k: nat)
    requires k < |list|
    ensures SumDeltas(Without(list, k)) == SumDeltas(list) - DeltaOf(list[k])
  {
    Parts(list, k, list[k]);
    SumJoin(list[..k], [list[k]] + list[k + 1..]);
    SumJoin(list[..k], list[k + 1..]);
  }

  lemma SumChanged(list: seq<Active>, k: nat, a: Active)
    requires k < |list|
    ensures SumDeltas(list[k := a]) == SumDeltas(list) - DeltaOf(list[k]) + DeltaOf(a)
  {
    Parts(list, k, a);
    SumJoin(list[..k], [list[k]] + list[k + 1..]);
    SumJoin(list[..k], [a] + list[k + 1..]);
  }

  lemma WithoutOne(list: seq<Active>, k: nat)
    requires k < |list| && Unique(list)
    ensures Unique(Without(list, k)) && SumDeltas(Without(list, k)) == SumDeltas(list) - DeltaOf(list[k])
  {
    SumWithout(list, k);
    var rest := Without(list, k);
    forall i, j | 0 <= i < j < |rest|
      ensures !SameKey(rest[i], rest[j])
    {
      assert !SameKey(list[if i < k then i else i + 1], list[if j < k then j else j + 1]);
    }
  }

  lemma ChangedOne(list: seq<Active>, k: nat, a: Active)
    requires k < |list| && Unique(list) && SameKey(list[k], a)
    ensures Unique(list[k := a]) && SumDeltas(list[k := a]) == SumDeltas(list) - DeltaOf(list[k]) + DeltaOf(a)
  {
    SumChanged(list, k, a);
    var next := list[k := a];
    forall i, j | 0 <= i < j < |list|
      ensures !SameKey(next[i], next[j])
    {
      assert !SameKey(list[i], list[j]);
    }
  }

  lemma OneMore(list: seq<Active>, a: Active)
    requires Unique(list) && forall i :: 0 <= i < |list| ==> !SameKey(list[i], a)
    ensures Unique(list + [a]) && SumDeltas(list + [a]) == SumDeltas(list) + DeltaOf(a)
  {
    SumJoin(list, [a]);
    var next := list + [a];
    forall i, j | 0 <= i < j < |next|
      ensures !SameKey(next[i], next[j])
    {
      assert j < |list| ==> !SameKey(list[i], list[j]);
    }
  }

  /** Every condition replaced by what becomes of it: itself, changed, or nothing. */
  function Stepped(list: seq<Active>, step: Active -> seq<Active>): seq<Active> {
    if list == [] then [] else step(list[0]) + Stepped(list[1..], step)
  }

  /** What a loop that stands before place `it` will make of the list. */
  function Halfway(list: seq<Active>, step: Active -> seq<Active>, it: nat): seq<Active>
    requires it <= |list|
  {
    list[..it] + Stepped(list[it..], step)
  }

  /** What becomes of a condition when a type, or a type and an id, is removed. */
  function Removed(conditionType: int, id: Option<int>): Active -> seq<Active> {
    (a: Active) => if a.conditionType == conditionType && (id.Some? ==> a.id == id.value) then [] else [a]
  }

  /** What becomes of a condition after some time: it has less ticks left, and is gone when its time is over.
      For other conditions than those of speed, `lives` decides.  `held` are the damage conditions of a creature on a
      field of their own kind, for which time stands still. */
  function Executed(interval: int, now: int, held: Active -> bool, lives: Active -> bool): Active -> seq<Active> {
    (a: Active) => if Survives(a, now, lives) then [Passed(a, interval, held)] else []
  }

  function Passed(a: Active, interval: int, held: Active -> bool): Active {
    if !IsSpeed(a.conditionType) && held(a) then Prolonged(a, interval) else Shortened(a, interval)
  }

  function Prolonged(a: Active, interval: int): Active {
    if a.ticks == -1 then a
    else a.(ticks := if a.ticks > 0 then a.ticks else 0, endTime := if a.ticks > 0 then a.endTime + interval
        else a.endTime)
  }

  predicate Survives(a: Active, now: int, lives: Active -> bool) {
    if IsSpeed(a.conditionType) then a.ticks == -1 || a.endTime >= now else lives(a)
  }

  function Shortened(a: Active, interval: int): Active {
    if a.ticks == -1 then a else a.(ticks := if a.ticks > interval then a.ticks - interval else 0)
  }

  /** What a condition becomes when a new one with its key, b, is added: it takes over the ticks, unless an endless one
      would come to an end, and a speed condition the speed.  `drawn` is the random speed of one that brings none. */
  function Refreshed(a: Active, b: Active, drawn: int, now: int): Active {
    if a.ticks == -1 && b.ticks > 0 then a
    else if IsSpeed(a.conditionType) then
      a.(ticks := b.ticks, endTime := b.ticks + now, speedDelta := if b.speedDelta == 0 then drawn else b.speedDelta)
    else if b.ticks >= 0 && a.endTime > now + b.ticks then a
    else a.(ticks := b.ticks, endTime := b.ticks + now)
  }

  /** A refreshed condition keeps its key.  A finite one never puts an end to an endless one; else one of speed gets
      the new time and speed, and any other lasts as long as the longer of the two, or endlessly. */
  lemma RefreshedLasts(a: Active, b: Active, drawn: int, now: int)
    requires SameKey(a, b)
    ensures var r := Refreshed(a, b, drawn, now);
            && SameKey(r, a)
            && (a.ticks == -1 && b.ticks > 0 ==> r == a)
            && (!(a.ticks == -1 && b.ticks > 0) && IsSpeed(a.conditionType) ==>
                  && r.ticks == b.ticks && r.endTime == now + b.ticks
                  && (b.speedDelta != 0 ==> r.speedDelta == b.speedDelta)
                  && (b.speedDelta == 0 ==> r.speedDelta == drawn))
            && (!IsSpeed(a.conditionType) ==> r.speedDelta == a.speedDelta)
            && (!(a.ticks == -1 && b.ticks > 0) && !IsSpeed(a.conditionType) && b.ticks >= 0 ==>
                  && r.endTime >= a.endTime && r.endTime >= now + b.ticks
                  && (r.endTime == a.endTime || r.endTime == now + b.ticks)
                  && (r.endTime > a.endTime ==> r.ticks == b.ticks)
                  && (r.endTime > now + b.ticks ==> r.ticks == a.ticks))
            && (!IsSpeed(a.conditionType) && b.ticks == -1 ==> r.ticks == -1)
  {
  }

  /** A condition that starts ends after its ticks, and one of speed that brings none gets the one drawn. */
  lemma StartedLasts(a: Active, drawn: int, now: int)
    ensures var s := Started(a, drawn, now);
            && SameKey(s, a) && s.ticks == a.ticks && (a.ticks > 0 ==> s.endTime == now + a.ticks)
            && (IsSpeed(a.conditionType) && a.speedDelta == 0 ==> s.speedDelta == drawn)
            && (a.speedDelta != 0 || !IsSpeed(a.conditionType) ==> s.speedDelta == a.speedDelta)
  {
  }

  function Started(a: Active, drawn: int, now: int): Active {
    a.(endTime := if a.ticks > 0 then a.ticks + now else a.endTime,
       speedDelta := if IsSpeed(a.conditionType) && a.speedDelta == 0 then drawn else a.speedDelta)
  }

  /** The place of the condition with this key, or the length of the list. */
  function Find(list: seq<Active>, a: Active): (k: nat)
    ensures k <= |list|
    ensures k < |list| ==> SameKey(list[k], a)
    ensures forall i :: 0 <= i < k ==> !SameKey(list[i], a)
  {
    if list == [] || SameKey(list[0], a) then 0 else 1 + Find(list[1..], a)
  }

  /** Haste and paralysis end each other. */
  function Opposite(conditionType: int): int {
    if conditionType == CONDITION_HASTE then CONDITION_PARALYZE else CONDITION_HASTE
  }

  predicate Counts(a: Active, conditionType: int, now: int) {
    a.conditionType == conditionType && a.subId == 0 && (a.endTime >= now || a.ticks == -1)
  }

  /** Whether a condition of this type is active now and not suppressed. */
  predicate Has(list: seq<Active>, conditionType: int, suppressed: set<int>, now: int) {
    conditionType !in suppressed && exists i :: 0 <= i < |list| && Counts(list[i], conditionType, now)
  }

  /** Whether a condition that starts ends those of the opposite type: not for monsters, and paralysis goes only from
      a creature that is not walking. */
  predicate Drives(list: seq<Active>, conditionType: int, opposes: bool, walkDelay: int, suppressed: set<int>,
                   now: int) {
    && opposes && IsSpeed(conditionType) && Has(list, Opposite(conditionType), suppressed, now)
    && (Opposite(conditionType) == CONDITION_PARALYZE ==> walkDelay <= 0)
  }

  /** Paralysis ends active haste, haste active paralysis of who stands still; a suppressed type is never active, and
      only conditions without a sub-id count. */
  lemma DrivesExactly(list: seq<Active>, conditionType: int, opposes: bool, walkDelay: int, suppressed: set<int>,
                      now: int)
    ensures Drives(list, conditionType, opposes, walkDelay, suppressed, now) <==>
            && opposes
            && ((conditionType == 32 && 16 !in suppressed
                 && exists c <- list :: c.conditionType == 16 && c.subId == 0 && (c.ticks == -1 || c.endTime >= now))
                || (conditionType == 16 && 32 !in suppressed && walkDelay <= 0
                    && exists c <- list ::
                          c.conditionType == 32 && c.subId == 0 && (c.ticks == -1 || c.endTime >= now)))
  {
    var opposite := Opposite(conditionType);
    if exists c <- list :: Counts(c, opposite, now) {
      var c :| c in list && Counts(c, opposite, now);
      var i :| 0 <= i < |list| && list[i] == c;
      assert Counts(list[i], opposite, now);
    }
  }

  /** The list after a condition has started and joined it as the last. */
  function Driven(list: seq<Active>, conditionType: int, opposes: bool, walkDelay: int, suppressed: set<int>,
                  now: int): seq<Active> {
    if Drives(list, conditionType, opposes, walkDelay, suppressed, now)
        then Stepped(list, Removed(Opposite(conditionType), None)) else list
  }

  /** What a creature is when a condition is added: whether it is one whose haste and paralysis end each other, its
      walk delay before and after the condition starts, the types suppressed, and the time. */
  datatype Moment = Moment(opposes: bool, walkDelay: int, laterDelay: int, suppressed: set<int>, now: int)

  /** The list after a condition is added. */
  function Added(list: seq<Active>, a: Active, starts: bool, drawn: int, m: Moment): seq<Active> {
    var k := Find(list, a);
    if k < |list| then list[k := Refreshed(list[k], a, drawn, m.now)]
    else if IsSpeed(a.conditionType) || starts then
      Driven(list + [Started(a, drawn, m.now)], a.conditionType, m.opposes, m.laterDelay, m.suppressed, m.now)
    else list
  }

  /** The conditions of a type. */
  function OfType(list: seq<Active>, conditionType: int): seq<Active> {
    if list == [] then []
    else (if list[0].conditionType == conditionType then [list[0]] else []) + OfType(list[1..], conditionType)
  }

  lemma {:induction false} RemovedSum(list: seq<Active>, conditionType: int)
    ensures SumDeltas(Stepped(list, Removed(conditionType, None)))
            == SumDeltas(list) - SumDeltas(OfType(list, conditionType))
  {
    if list != [] {
      RemovedSum(list[1..], conditionType);
      var kept, gone := Removed(conditionType, None)(list[0]), if list[0].conditionType == conditionType
          then [list[0]] else [];
      SumJoin(kept, Stepped(list[1..], Removed(conditionType, None)));
      SumJoin(gone, OfType(list[1..], conditionType));
      assert SumDeltas([list[0]]) == DeltaOf(list[0]);
    }
  }

  lemma {:induction false} RemovedUnique(list: seq<Active>, conditionType: int, id: Option<int>)
    requires Unique(list)
    ensures Unique(Stepped(list, Removed(conditionType, id)))
  {
    if list != [] {
      var first, rest := list[0], list[1..];
      RestUnique(list);
      RemovedUnique(rest, conditionType, id);
      RemovedExactly(rest, conditionType, id);
      var after := Stepped(rest, Removed(conditionType, id));
      assert forall a :: a in after ==> a in rest;
      FirstUnique(first, after);
      assert [] + after == after;
    }
  }

  lemma RestUnique(list: seq<Active>)
    requires list != [] && Unique(list)
    ensures Unique(list[1..]) && forall a :: a in list[1..] ==> !SameKey(list[0], a)
  {
    var rest := list[1..];
    forall i, j | 0 <= i < j < |rest|
      ensures !SameKey(rest[i], rest[j])
    {
      assert !SameKey(list[i + 1], list[j + 1]);
    }
    forall a | a in rest
      ensures !SameKey(list[0], a)
    {
      var k :| 0 <= k < |rest| && rest[k] == a;
      assert !SameKey(list[0], list[k + 1]);
    }
  }

  lemma FirstUnique(first: Active, after: seq<Active>)
    requires Unique(after) && forall a :: a in after ==> !SameKey(first, a)
    ensures Unique([first] + after)
  {
    var all := [first] + after;
    forall i, j | 0 <= i < j < |all|
      ensures !SameKey(all[i], all[j])
    {
      assert all[j] == after[j - 1] && after[j - 1] in after;
      assert i > 0 ==> !SameKey(after[i - 1], after[j - 1]);
    }
  }

  lemma RefreshedKeys(list: seq<Active>, a: Active, starts: bool, drawn: int, m: Moment)
    requires Unique(list) && Find(list, a) < |list|
    ensures var after, k := Added(list, a, starts, drawn, m), Find(list, a);
            && Unique(after) && |after| == |list| && (forall i :: 0 <= i < |list| ==> SameKey(after[i], list[i]))
            && (forall i :: 0 <= i < |list| && i != k ==> after[i] == list[i])
            && SumDeltas(after) == SumDeltas(list) + DeltaOf(after[k]) - DeltaOf(list[k])
  {
    ChangedOne(list, Find(list, a), Refreshed(list[Find(list, a)], a, drawn, m.now));
  }

  /** Adding keeps the keys different.  A condition that starts joins the others; those that are lost are all of the
      opposite type, if it ends them, and with them goes their speed. */
  lemma AddedKeys(list: seq<Active>, a: Active, starts: bool, drawn: int, m: Moment)
    requires Unique(list) && Find(list, a) == |list|
    ensures var after := Added(list, a, starts, drawn, m);
            if !IsSpeed(a.conditionType) && !starts then after == list
            else
              var added := Started(a, drawn, m.now);
              var opposite := Opposite(a.conditionType);
              var lost := Drives(list, a.conditionType, m.opposes, m.laterDelay, m.suppressed, m.now);
              && Unique(after)
              && (forall c :: c in after <==> c == added || (c in list && !(lost && c.conditionType == opposite)))
              && SumDeltas(after) == SumDeltas(list) + DeltaOf(added) - if lost then SumDeltas(OfType(list, opposite))
                    else 0
  {
    if IsSpeed(a.conditionType) || starts {
      var added := Started(a, drawn, m.now);
      var opposite := Opposite(a.conditionType);
      OneMore(list, added);
      HasMore(list, added, opposite, m.suppressed, m.now);
      if Drives(list, a.conditionType, m.opposes, m.laterDelay, m.suppressed, m.now) {
        RemovedExactly(list + [added], opposite, None);
        RemovedUnique(list + [added], opposite, None);
        RemovedSum(list + [added], opposite);
        OfTypeMore(list, added, opposite);
      }
    }
  }

  lemma HasMore(list: seq<Active>, added: Active, conditionType: int, suppressed: set<int>, now: int)
    requires added.conditionType != conditionType
    ensures Has(list + [added], conditionType, suppressed, now) == Has(list, conditionType, suppressed, now)
  {
    if Has(list, conditionType, suppressed, now) {
      var i :| 0 <= i < |list| && Counts(list[i], conditionType, now);
      assert Counts((list + [added])[i], conditionType, now);
    }
  }

  lemma {:induction false} OfTypeMore(list: seq<Active>, added: Active, conditionType: int)
    requires added.conditionType != conditionType
    ensures OfType(list + [added], conditionType) == OfType(list, conditionType)
  {
    if list == [] {
      assert list + [added] == [added];
    } else {
      assert (list + [added])[1..] == list[1..] + [added];
      OfTypeMore(list[1..], added, conditionType);
    }
  }

  /** A hasted player who is paralysed loses the haste and its speed; a monster has both. */
  lemma ParalysisEndsHaste(now: int)
    ensures var haste, paralysis := Active(CONDITION_HASTE, 0, 0, 100, 1000, now + 1000),
            Active(CONDITION_PARALYZE, 0, 0, -50, 1000, now + 1000);
            && Added([haste], paralysis, true, 0, Moment(true, 0, 0, {}, now)) == [paralysis]
            && Added([haste], paralysis, true, 0, Moment(false, 0, 0, {}, now)) == [haste, paralysis]
  {
    var haste, paralysis := Active(CONDITION_HASTE, 0, 0, 100, 1000, now + 1000),
        Active(CONDITION_PARALYZE, 0, 0, -50, 1000, now + 1000);
    assert [haste][1..] == [];
    var both := [haste] + [paralysis];
    assert both == [haste, paralysis] && Counts(both[0], CONDITION_HASTE, now);
    assert both[1..] == [paralysis] && [paralysis][1..] == [];
    var step := Removed(CONDITION_HASTE, None);
    assert Drives(both, CONDITION_PARALYZE, true, 0, {}, now);
    assert Stepped([paralysis], step) == [paralysis] + Stepped([], step);
    assert Stepped(both, step) == [] + Stepped([paralysis], step);
  }

  /** What is there after a removal is not of the removed kind, and all that is not is there. */
  lemma {:induction false} RemovedExactly(list: seq<Active>, conditionType: int, id: Option<int>)
    ensures var after := Stepped(list, Removed(conditionType, id));
            forall a :: a in after <==>
                a in list && !(a.conditionType == conditionType && (id.Some? ==> a.id == id.value))
  {
    if list != [] {
      RemovedExactly(list[1..], conditionType, id);
      assert list == [list[0]] + list[1..];
    }
  }

  /** What is there after some time are exactly the survivors, each shortened, or prolonged while it is held. */
  lemma {:induction false} ExecutedExactly(list: seq<Active>, interval: int, now: int, held: Active -> bool,
                                           lives: Active -> bool)
    ensures var after := Stepped(list, Executed(interval, now, held, lives));
            && (forall b :: b in list && Survives(b, now, lives) ==> Passed(b, interval, held) in after)
            && (forall a :: a in after ==>
                  exists b :: b in list && Survives(b, now, lives) && a == Passed(b, interval, held))
  {
    if list != [] {
      ExecutedExactly(list[1..], interval, now, held, lives);
      var rest := Stepped(list[1..], Executed(interval, now, held, lives));
      forall a | a in Stepped(list, Executed(interval, now, held, lives))
        ensures exists b :: b in list && Survives(b, now, lives) && a == Passed(b, interval, held)
      {
        if a in rest {
          var b :| b in list[1..] && Survives(b, now, lives) && a == Passed(b, interval, held);
          assert b in list;
        } else {
          assert list[0] in list && a == Passed(list[0], interval, held);
        }
      }
    }
  }

  /** One think: a condition of speed is there afterwards exactly if it is endless or its end has not come, with its
      speed and so much less time; what is held on its field is prolonged instead. */
  lemma ThinkOfOne(a: Active, interval: int, now: int, held: Active -> bool, lives: Active -> bool)
    requires interval >= 0
    ensures var after := Executed(interval, now, held, lives)(a);
            && |after| <= 1
            && (IsSpeed(a.conditionType) ==> (after != [] <==> a.ticks == -1 || a.endTime >= now))
            && (!IsSpeed(a.conditionType) ==> (after != [] <==> lives(a)))
            && (after != [] ==>
                  && SameKey(after[0], a) && after[0].speedDelta == a.speedDelta
                  && (a.ticks == -1 ==> after[0] == a)
                  && (a.ticks >= 0 && (IsSpeed(a.conditionType) || !held(a)) ==>
                        after[0].endTime == a.endTime && after[0].ticks == if a.ticks > interval
                            then a.ticks - interval else 0)
                  && (a.ticks > 0 && !IsSpeed(a.conditionType) && held(a) ==>
                        after[0].ticks == a.ticks && after[0].endTime == a.endTime + interval))
  {
  }

  /** Letting the next condition go brings the loop one step on. */
  lemma StepWithout(list: seq<Active>, step: Active -> seq<Active>, it: nat, next: seq<Active>)
    requires it < |list| && step(list[it]) == [] && next == Without(list, it)
    ensures Halfway(next, step, it) == Halfway(list, step, it)
  {
    assert next[..it] == list[..it] && next[it..] == list[it + 1..];
    assert list[it..][1..] == list[it + 1..];
    assert [] + Stepped(list[it + 1..], step) == Stepped(list[it + 1..], step);
  }

  /** So does letting it stay, changed or not. */
  lemma StepWith(list: seq<Active>, step: Active -> seq<Active>, it: nat, a: Active, next: seq<Active>)
    requires it < |list| && step(list[it]) == [a] && next == list[it := a]
    ensures Halfway(next, step, it + 1) == Halfway(list, step, it)
  {
    assert next[..it + 1] == list[..it] + [a] && next[it + 1..] == list[it + 1..];
    assert list[it..][1..] == list[it + 1..];
  }

  /** The list owns its conditions, so they are values in it. */
  class Creature {
    var conditions: seq<Active>
    var baseSpeed: int
    var varSpeed: int
    ghost var elsewhere: int   // the speed that comes from other sources than conditions

    constructor (baseSpeed: int)
      ensures Valid() && conditions == [] && varSpeed == 0 && this.baseSpeed == baseSpeed
    {
      conditions, this.baseSpeed, varSpeed, elsewhere := [], baseSpeed, 0, 0;
    }

    /** Every condition is there once, and the speed is what the active conditions make of it. */
    ghost predicate Valid()
      reads this
    {
      Unique(conditions) && varSpeed == elsewhere + SumDeltas(conditions)
    }

    function GetSpeed(): int
      reads this
    {
      baseSpeed + varSpeed
    }

    method ChangeSpeed(varSpeedDelta: int)
      modifies this`varSpeed
      ensures varSpeed == old(varSpeed) + varSpeedDelta
    {
      var speed := GetSpeed() - baseSpeed;
      speed := speed + varSpeedDelta;
      varSpeed := speed;
    }

    /** Speed from elsewhere, such as equipment. */
    method ChangeSpeedElsewhere(varSpeedDelta: int)
      requires Valid()
      modifies this`varSpeed, this`elsewhere
      ensures Valid() && varSpeed == old(varSpeed) + varSpeedDelta
    {
      ChangeSpeed(varSpeedDelta);
      elsewhere := elsewhere + varSpeedDelta;
    }

    /** Whether a condition of this type is active now. */
    method HasCondition(conditionType: int, suppressed: set<int>, now: int) returns (has: bool)
      ensures has == Has(conditions, conditionType, suppressed, now)
    {
      if conditionType in suppressed {
        return false;
      }
      for k := 0 to |conditions|
        invariant forall i :: 0 <= i < k ==> !Counts(conditions[i], conditionType, now)
      {
        if Counts(conditions[k], conditionType, now) {
          return true;
        }
      }
      has := false;
    }

    method GetCondition(a: Active) returns (k: nat)
      ensures k == Find(conditions, a)
    {
      k := 0;
      while k < |conditions| && !SameKey(conditions[k], a)
        invariant k <= |conditions|
        invariant forall i :: 0 <= i < k ==> !SameKey(conditions[i], a)
      {
        k := k + 1;
      }
    }

    /** A new condition refreshes the one with its key, or is started, becomes the last of the list and may end those
        of the opposite type.  Haste waits while a paralysed creature is still walking.  `starts` tells whether a
        condition that is not one of speed can start. */
    method AddCondition(a: Active, force: bool, starts: bool, drawn: int, m: Moment) returns (added: bool)
      requires Valid()
      modifies this`conditions, this`varSpeed
      ensures Valid()
      ensures var list := old(conditions);
              var waits := !force && a.conditionType == CONDITION_HASTE && m.walkDelay > 0
                  && Has(list, CONDITION_PARALYZE, m.suppressed, m.now);
              && conditions == (if waits then list else Added(list, a, starts, drawn, m))
              && added == (!waits && (Find(list, a) < |list| || IsSpeed(a.conditionType) || starts))
    {
      if !force && a.conditionType == CONDITION_HASTE {
        var paralysed := HasCondition(CONDITION_PARALYZE, m.suppressed, m.now);
        if paralysed && m.walkDelay > 0 {
          return false;
        }
      }
      var k := GetCondition(a);
      if k < |conditions| {
        RefreshedKeys(conditions, a, starts, drawn, m);
        Refresh(k, a, drawn, m.now);
        return true;
      }
      if IsSpeed(a.conditionType) || starts {
        OneMore(conditions, Started(a, drawn, m.now));
        Start(a, drawn, m.now);
        OnAddCondition(a.conditionType, m);
        return true;
      }
      added := false;
    }

    /** Haste and paralysis end each other, but for monsters. */
    method OnAddCondition(conditionType: int, m: Moment)
      requires Valid()
      modifies this`conditions, this`varSpeed
      ensures Valid()
      ensures conditions == Driven(old(conditions), conditionType, m.opposes, m.laterDelay, m.suppressed, m.now)
    {
      if !m.opposes {
        return;
      }
      if conditionType == CONDITION_PARALYZE {
        var hasted := HasCondition(CONDITION_HASTE, m.suppressed, m.now);
        if hasted {
          RemoveCondition(CONDITION_HASTE, None, false, m.laterDelay);
        }
      } else if conditionType == CONDITION_HASTE {
        var paralysed := HasCondition(CONDITION_PARALYZE, m.suppressed, m.now);
        if paralysed {
          RemoveCondition(CONDITION_PARALYZE, None, false, m.laterDelay);
        }
      }
    }

    method Refresh(k: nat, a: Active, drawn: int, now: int)
      requires k < |conditions|
      modifies this`varSpeed, this`conditions
      ensures conditions == old(conditions)[k := Refreshed(old(conditions)[k], a, drawn, now)]
      ensures varSpeed == old(varSpeed) + DeltaOf(conditions[k]) - DeltaOf(old(conditions)[k])
    {
      var c := conditions[k];
      if c.ticks == -1 && a.ticks > 0 {
        return;
      }
      if IsSpeed(c.conditionType) {
        var oldSpeedDelta := c.speedDelta;
        c := c.(ticks := a.ticks, endTime := a.ticks + now, speedDelta := a.speedDelta);
        if c.speedDelta == 0 {
          c := c.(speedDelta := drawn);
        }
        conditions := conditions[k := c];
        var newSpeedChange := c.speedDelta - oldSpeedDelta;
        if newSpeedChange != 0 {
          ChangeSpeed(newSpeedChange);
        }
      } else if !(a.ticks >= 0 && c.endTime > now + a.ticks) {
        conditions := conditions[k := c.(ticks := a.ticks, endTime := a.ticks + now)];
      }
    }

    method Start(a: Active, drawn: int, now: int)
      modifies this`conditions, this`varSpeed
      ensures conditions == old(conditions) + [Started(a, drawn, now)]
      ensures varSpeed == old(varSpeed) + DeltaOf(Started(a, drawn, now))
    {
      var c := a;
      if c.ticks > 0 {
        c := c.(endTime := c.ticks + now);
      }
      if IsSpeed(c.conditionType) {
        if c.speedDelta == 0 {
          c := c.(speedDelta := drawn);
        }
        ChangeSpeed(c.speedDelta);
      }
      conditions := conditions + [c];
    }

    /** The condition leaves the list and takes its speed with it. */
    method End(k: nat)
      requires Valid() && k < |conditions|
      modifies this`conditions, this`varSpeed
      ensures Valid() && conditions == Without(old(conditions), k)
    {
      WithoutOne(conditions, k);
      var c := conditions[k];
      conditions := Without(conditions, k);
      if IsSpeed(c.conditionType) {
        ChangeSpeed(-c.speedDelta);
      }
    }

    /** All conditions of a type, or those of a type and an id, end; paralysis stays while the creature is still
        walking. */
    method RemoveCondition(conditionType: int, id: Option<int>, force: bool, walkDelay: int)
      requires Valid()
      modifies this`conditions, this`varSpeed
      ensures Valid()
      ensures conditions == if !force && conditionType == CONDITION_PARALYZE && walkDelay > 0 then old(conditions)
                            else Stepped(old(conditions), Removed(conditionType, id))
    {
      ghost var v, step := conditions, Removed(conditionType, id);
      var it := 0;
      assert Halfway(v, step, 0) == Stepped(v, step) by {
        assert v[..0] == [] && v[0..] == v;
      }
      while it < |conditions|
        invariant Valid() && it <= |conditions|
        invariant Halfway(conditions, step, it) == Stepped(v, step)
        invariant !force && conditionType == CONDITION_PARALYZE && walkDelay > 0 ==> conditions == v
        decreases |conditions| - it
      {
        ghost var list := conditions;
        var c := conditions[it];
        if c.conditionType != conditionType || (id.Some? && c.id != id.value) {
          assert list[it := c] == list;
          StepWith(list, step, it, c, list);
          it := it + 1;
        } else {
          if !force && conditionType == CONDITION_PARALYZE && walkDelay > 0 {
            return;
          }
          End(it);
          StepWithout(list, step, it, conditions);
        }
      }
      assert conditions[..it] == conditions && conditions[it..] == [];
    }

    /** Time passes for every condition; those whose time is over end. */
    method ExecuteConditions(interval: int, now: int, held: Active -> bool, lives: Active -> bool)
      requires Valid()
      modifies this`conditions, this`varSpeed
      ensures Valid()
      ensures conditions == Stepped(old(conditions), Executed(interval, now, held, lives))
    {
      ghost var v, step := conditions, Executed(interval, now, held, lives);
      var it := 0;
      assert Halfway(v, step, 0) == Stepped(v, step) by {
        assert v[..0] == [] && v[0..] == v;
      }
      while it < |conditions|
        invariant Valid() && it <= |conditions|
        invariant Halfway(conditions, step, it) == Stepped(v, step)
        decreases |conditions| - it
      {
        ghost var list := conditions;
        var survives := Survives(conditions[it], now, lives);
        if survives {
          var c := Passed(conditions[it], interval, held);
          ChangedOne(conditions, it, c);
          conditions := conditions[it := c];
          StepWith(list, step, it, c, conditions);
          it := it + 1;
        } else {
          End(it);
          StepWithout(list, step, it, conditions);
        }
      }
      assert conditions[..it] == conditions && conditions[it..] == [];
    }
  }
}
