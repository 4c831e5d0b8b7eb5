/** Saving conditions to a stream of bytes and loading them again (src/condition.cpp, the serialize and
    unserializeProp functions and createCondition; src/fileloader.h, PropStream and PropWriteStream). */
module ConditionStream {

  type byte = x: int | 0 <= x < 256

  const BITS32 := 0x1_0000_0000
  const HALF32 := 0x8000_0000

  // Numbers in bytes, the lowest byte first.

  function Low(n: int): (b: byte) {
    assert 0 <= n % 256 < 256;
    n % 256
  }

  function U32(n: int): (b: seq<byte>)
    ensures |b| == 4
  {
    [Low(n), Low(n / 256), Low(n / 65536), Low(n / 16777216)]
  }

  function Word(b: seq<byte>): (n: nat)
    requires |b| == 4
    ensures n < BITS32
  {
    b[0] as int + 256 * (b[1] as int) + 65536 * (b[2] as int) + 16777216 * (b[3] as int)
  }

  lemma WordOfU32(n: int)
    requires 0 <= n < BITS32
    ensures Word(U32(n)) == n
  {
    assert n / 65536 == n / 256 / 256;
    assert n / 16777216 == n / 65536 / 256;
  }

  predicate IsInt32(i: int) {
    -HALF32 <= i < HALF32
  }

  /** The 32 bits of a signed number, and back. */
  function Bits(i: int): (n: nat)
    ensures n < BITS32
  {
    i % BITS32
  }

  function Signed(n: int): (i: int)
    requires 0 <= n < BITS32
    ensures IsInt32(i)
  {
    if n < HALF32 then n else n - BITS32
  }

  lemma SignedOfBits(i: int)
    requires IsInt32(i)
    ensures Signed(Word(U32(Bits(i)))) == i
  {
    WordOfU32(Bits(i));
  }

  /** The lowest eight bits as a signed number. */
  function Signed8(n: nat): (i: int)
    ensures -128 <= i < 128
  {
    if n % 256 < 128 then n % 256 else n % 256 - 256
  }

  // Conditions.

  const TYPE: byte := 1
  const ID: byte := 2
  const TICKS: byte := 3
  const HEALTHTICKS: byte := 4
  const HEALTHGAIN: byte := 5
  const MANATICKS: byte := 6
  const MANAGAIN: byte := 7
  const DELAYED: byte := 8
  const OWNER: byte := 9
  const INTERVALDATA: byte := 10
  const SPEEDDELTA: byte := 11
  const FORMULA_MINA: byte := 12
  const FORMULA_MINB: byte := 13
  const FORMULA_MAXA: byte := 14
  const FORMULA_MAXB: byte := 15
  const LIGHTCOLOR: byte := 16
  const LIGHTLEVEL: byte := 17
  const LIGHTTICKS: byte := 18
  const LIGHTINTERVAL: byte := 19
  const SOULTICKS: byte := 20
  const SOULGAIN: byte := 21
  const SKILLS: byte := 22
  const STATS: byte := 23
  const OUTFIT: byte := 24
  const PERIODDAMAGE: byte := 25
  const ISBUFF: byte := 26
  const SUBID: byte := 27
  const END: byte := 254

  const SKILL_COUNT := 13
  const STAT_COUNT := 5
  const OUTFIT_SIZE := 12

  datatype IntervalInfo = IntervalInfo(timeLeft: int, value: int, interval: int)

  /** What the kinds of condition save besides the common fields.  Formula variables are the bits of
      floating-point numbers. */
  datatype Body =
    | Generic
    | Attributes(skills: seq<int>, stats: seq<int>, currentSkill: nat, currentStat: nat)
    | Regeneration(healthTicks: int, healthGain: int, manaTicks: int, manaGain: int)
    | Soul(soulTicks: int, soulGain: int)
    | Damage(delayed: bool, periodDamage: int, damageList: seq<IntervalInfo>)
    | Speed(speedDelta: int, mina: int, minb: int, maxa: int, maxb: int)
    | Outfit(outfit: seq<byte>)
    | Light(level: int, color: int, lightTicks: int, lightInterval: int)

  datatype State = State(conditionType: int, id: int, ticks: int, isBuff: bool, subId: int, body: Body)

  datatype Option<T> = None | Some(value: T)

  /** A zero for each of n entries. */
  function Zeros(n: nat): (z: seq<int>)
    ensures |z| == n && forall i :: 0 <= i < n ==> z[i] == 0
  {
    if n == 0 then [] else [0] + Zeros(n - 1)
  }

  function NoOutfit(n: nat): (z: seq<byte>)
    ensures |z| == n
  {
    if n == 0 then [] else [0] + NoOutfit(n - 1)
  }

  // The types of condition are single bits.

  const CONDITION_POISON := 0x1
  const CONDITION_FIRE := 0x2
  const CONDITION_ENERGY := 0x4
  const CONDITION_BLEEDING := 0x8
  const CONDITION_HASTE := 0x10
  const CONDITION_PARALYZE := 0x20
  const CONDITION_OUTFIT := 0x40
  const CONDITION_INVISIBLE := 0x80
  const CONDITION_LIGHT := 0x100
  const CONDITION_MANASHIELD := 0x200
  const CONDITION_INFIGHT := 0x400
  const CONDITION_DRUNK := 0x800
  const CONDITION_EXHAUST := 0x1000
  const CONDITION_REGENERATION := 0x2000
  const CONDITION_SOUL := 0x4000
  const CONDITION_DROWN := 0x8000
  const CONDITION_MUTED := 0x10000
  const CONDITION_CHANNELMUTEDTICKS := 0x20000
  const CONDITION_YELLTICKS := 0x40000
  const CONDITION_ATTRIBUTES := 0x80000
  const CONDITION_FREEZING := 0x100000
  const CONDITION_DAZZLED := 0x200000
  const CONDITION_CURSED := 0x400000
  const CONDITION_EXHAUST_COMBAT := 0x800000
  const CONDITION_EXHAUST_HEAL := 0x1000000
  const CONDITION_PACIFIED := 0x2000000
  const CONDITION_SPELLCOOLDOWN := 0x4000000
  const CONDITION_SPELLGROUPCOOLDOWN := 0x8000000

  predicate IsDamage(t: int) {
    || t == CONDITION_POISON || t == CONDITION_FIRE || t == CONDITION_ENERGY
    || t == CONDITION_BLEEDING || t == CONDITION_DROWN || t == CONDITION_FREEZING
    || t == CONDITION_DAZZLED || t == CONDITION_CURSED
  }

  predicate IsGeneric(t: int) {
    || t == CONDITION_INVISIBLE || t == CONDITION_MANASHIELD || t == CONDITION_INFIGHT
    || t == CONDITION_DRUNK || t == CONDITION_EXHAUST || t == CONDITION_MUTED
    || t == CONDITION_CHANNELMUTEDTICKS || t == CONDITION_YELLTICKS || t == CONDITION_EXHAUST_COMBAT
    || t == CONDITION_EXHAUST_HEAL || t == CONDITION_PACIFIED || t == CONDITION_SPELLCOOLDOWN
    || t == CONDITION_SPELLGROUPCOOLDOWN
  }

  /** The state a new condition of this type has before it is loaded. */
  function Fresh(t: int): Option<Body> {
    if IsDamage(t) then Some(Damage(false, 0, []))
    else if t == CONDITION_HASTE || t == CONDITION_PARALYZE then Some(Speed(0, 0, 0, 0, 0))
    else if t == CONDITION_OUTFIT then Some(Outfit(NoOutfit(OUTFIT_SIZE)))
    else if t == CONDITION_LIGHT then Some(Light(0, 0, 0, 0))
    else if t == CONDITION_REGENERATION then Some(Regeneration(1000, 0, 1000, 0))
    else if t == CONDITION_SOUL then Some(Soul(0, 0))
    else if t == CONDITION_ATTRIBUTES then Some(Attributes(Zeros(SKILL_COUNT), Zeros(STAT_COUNT), 0, 0))
    else if IsGeneric(t) then Some(Generic)
    else None
  }

  /** createCondition: a condition that deals damage starts with no ticks, whatever is given. */
  function Created(t: int, id: int, ticks: int, isBuff: bool, subId: int): Option<State> {
    match Fresh(t)
    case None => None
    case Some(body) => Some(State(t, id, if body.Damage? then 0 else ticks, isBuff, subId, body))
  }

  // Writing.

  /** One record of the stream. */
  datatype Prop = Prop(attr: byte, payload: seq<byte>)

  function Encoded(props: seq<Prop>): seq<byte> {
    if props == [] then [] else [props[0].attr] + props[0].payload + Encoded(props[1..])
  }

  function Number(attr: byte, n: int): Prop {
    Prop(attr, U32(n))
  }

  function Flag(attr: byte, b: bool): Prop {
    Prop(attr, [if b then 1 else 0])
  }

  predicate IsWord(n: int) {
    0 <= n < BITS32
  }

  predicate IsInterval(info: IntervalInfo) {
    IsInt32(info.timeLeft) && IsInt32(info.value) && IsInt32(info.interval)
  }

  /** All fields are in the ranges of their types, and the body is that of the condition's type. */
  predicate IsTyped(s: State) {
    && IsInt32(s.ticks) && -128 <= s.id < 128 && IsWord(s.subId)
    && IsWord(s.conditionType) && Fresh(s.conditionType).Some? && SameKind(Fresh(s.conditionType).value, s.body)
    && IsBody(s.body)
  }

  predicate SameKind(a: Body, b: Body) {
    match a
    case Generic => b.Generic?
    case Attributes(_, _, _, _) => b.Attributes?
    case Regeneration(_, _, _, _) => b.Regeneration?
    case Soul(_, _) => b.Soul?
    case Damage(_, _, _) => b.Damage?
    case Speed(_, _, _, _, _) => b.Speed?
    case Outfit(_) => b.Outfit?
    case Light(_, _, _, _) => b.Light?
  }

  predicate IsBody(b: Body) {
    match b
    case Generic => true
    case Attributes(skills, stats, _, _) =>
      && |skills| == SKILL_COUNT && |stats| == STAT_COUNT
      && (forall i :: 0 <= i < |skills| ==> IsInt32(skills[i])) && (forall i :: 0 <= i < |stats| ==> IsInt32(stats[i]))
    case Regeneration(a, b, c, d) => IsWord(a) && IsWord(b) && IsWord(c) && IsWord(d)
    case Soul(a, b) => IsWord(a) && IsWord(b)
    case Damage(_, periodDamage, damageList) => IsInt32(periodDamage) && forall i :: 0 <= i < |damageList| ==>
        IsInterval(damageList[i])
    case Speed(speedDelta, a, b, c, d) => IsInt32(speedDelta) && IsWord(a) && IsWord(b) && IsWord(c) && IsWord(d)
    case Outfit(outfit) => |outfit| == OUTFIT_SIZE
    case Light(level, color, a, b) => 0 <= level < 256 && 0 <= color < 256 && IsWord(a) && IsWord(b)
  }

  /** The common fields. */
  function Common(s: State): seq<Prop> {
    [Number(TYPE, s.conditionType), Number(ID, Bits(s.id)), Number(TICKS, Bits(s.ticks)), Flag(ISBUFF, s.isBuff),
        Number(SUBID, s.subId)]
  }

  function Numbers(attr: byte, values: seq<int>, k: nat): seq<Prop>
    requires k <= |values|
    decreases |values| - k
  {
    if k == |values| then [] else [Number(attr, Bits(values[k]))] + Numbers(attr, values, k + 1)
  }

  function IntervalBytes(info: IntervalInfo): seq<byte> {
    U32(Bits(info.timeLeft)) + U32(Bits(info.value)) + U32(Bits(info.interval))
  }

  function Intervals(list: seq<IntervalInfo>): seq<Prop> {
    if list == [] then [] else [Prop(INTERVALDATA, IntervalBytes(list[0]))] + Intervals(list[1..])
  }

  /** The fields of the condition's own kind. */
  function Own(b: Body): seq<Prop> {
    match b
    case Generic => []
    case Attributes(skills, stats, _, _) => Numbers(SKILLS, skills, 0) + Numbers(STATS, stats, 0)
    case Regeneration(healthTicks, healthGain, manaTicks, manaGain) =>
      [Number(HEALTHTICKS, healthTicks), Number(HEALTHGAIN, healthGain), Number(MANATICKS, manaTicks),
          Number(MANAGAIN, manaGain)]
    case Soul(soulTicks, soulGain) => [Number(SOULGAIN, soulGain), Number(SOULTICKS, soulTicks)]
    case Damage(delayed, periodDamage, damageList) =>
      [Flag(DELAYED, delayed), Number(PERIODDAMAGE, Bits(periodDamage))] + Intervals(damageList)
    case Speed(speedDelta, mina, minb, maxa, maxb) =>
      [Number(SPEEDDELTA, Bits(speedDelta)), Number(FORMULA_MINA, mina), Number(FORMULA_MINB, minb),
          Number(FORMULA_MAXA, maxa), Number(FORMULA_MAXB, maxb)]
    case Outfit(outfit) => [Prop(OUTFIT, outfit)]
    case Light(level, color, lightTicks, lightInterval) =>
      [Number(LIGHTCOLOR, color), Number(LIGHTLEVEL, level), Number(LIGHTTICKS, lightTicks),
          Number(LIGHTINTERVAL, lightInterval)]
  }

  /** What serialize appends. */
  function Serialized(s: State): seq<byte> {
    Encoded(Common(s)) + Encoded(Own(s.body))
  }

  // Reading.

  /** The number of bytes that follow the attribute, if a condition of this kind knows it. */
  function Width(b: Body, attr: byte): (w: Option<nat>)
    ensures w.Some? ==> 0 <= w.value <= 12
  {
    if attr in {TYPE, ID, TICKS, SUBID} then Some(4)
    else if attr == ISBUFF then Some(1)
    else if attr == END then Some(0)
    else
      match b
      case Generic => None
      case Attributes(_, _, _, _) => if attr in {SKILLS, STATS} then Some(4) else None
      case Regeneration(_, _, _, _) => if attr in {HEALTHTICKS, HEALTHGAIN, MANATICKS, MANAGAIN} then Some(4) else None
      case Soul(_, _) => if attr in {SOULGAIN, SOULTICKS} then Some(4) else None
      case Damage(_, _, _) => if attr == DELAYED then Some(1) else if attr in {PERIODDAMAGE, OWNER} then Some(4)
                              else if attr == INTERVALDATA then Some(12) else None
      case Speed(_, _, _, _, _) => if attr in {SPEEDDELTA, FORMULA_MINA, FORMULA_MINB, FORMULA_MAXA, FORMULA_MAXB}
          then Some(4) else None
      case Outfit(_) => if attr == OUTFIT then Some(OUTFIT_SIZE) else None
      case Light(_, _, _, _) => if attr in {LIGHTCOLOR, LIGHTLEVEL, LIGHTTICKS, LIGHTINTERVAL} then Some(4) else None
  }

  /** The arrays of skills and stats have a place for the next entry. */
  predicate InBounds(b: Body, attr: byte) {
    b.Attributes? ==> (attr == SKILLS ==> b.currentSkill < |b.skills|) && (attr == STATS ==> b.currentStat < |b.stats|)
  }

  /** A 32-bit sum. */
  function Plus(a: int, b: int): int {
    Signed(Bits(a + b))
  }

  function SetBody(b: Body, attr: byte, p: seq<byte>): Body
    requires Width(b, attr) == Some(|p|) && InBounds(b, attr)
  {
    match b
    case Generic => b
    case Attributes(skills, stats, currentSkill, currentStat) =>
      if attr == SKILLS then b.(skills := skills[currentSkill := Signed(Word(p))], currentSkill := currentSkill + 1)
      else if attr == STATS then b.(stats := stats[currentStat := Signed(Word(p))], currentStat := currentStat + 1)
      else b
    case Regeneration(_, _, _, _) =>
      if attr == HEALTHTICKS then b.(healthTicks := Word(p)) else if attr == HEALTHGAIN then b.(healthGain := Word(p))
      else if attr == MANATICKS then b.(manaTicks := Word(p)) else if attr == MANAGAIN then b.(manaGain := Word(p))
          else b
    case Soul(_, _) =>
      if attr == SOULTICKS then b.(soulTicks := Word(p)) else if attr == SOULGAIN then b.(soulGain := Word(p)) else b
    case Damage(_, _, damageList) =>
      if attr == DELAYED then b.(delayed := p[0] != 0)
      else if attr == PERIODDAMAGE then b.(periodDamage := Signed(Word(p)))
      else if attr == INTERVALDATA then b.(damageList := damageList + [IntervalOf(p)])
      else b
    case Speed(_, _, _, _, _) =>
      if attr == SPEEDDELTA then b.(speedDelta := Signed(Word(p)))
      else if attr == FORMULA_MINA then b.(mina := Word(p)) else if attr == FORMULA_MINB then b.(minb := Word(p))
      else if attr == FORMULA_MAXA then b.(maxa := Word(p)) else if attr == FORMULA_MAXB then b.(maxb := Word(p)) else b
    case Outfit(_) => if attr == OUTFIT then b.(outfit := p) else b
    case Light(_, _, _, _) =>
      if attr == LIGHTCOLOR then b.(color := Word(p) % 256) else if attr == LIGHTLEVEL then b.(level := Word(p) % 256)
      else if attr == LIGHTTICKS then b.(lightTicks := Word(p))
          else if attr == LIGHTINTERVAL then b.(lightInterval := Word(p)) else b
  }

  function IntervalOf(p: seq<byte>): IntervalInfo
    requires |p| == 12
  {
    IntervalInfo(Signed(Word(p[..4])), Signed(Word(p[4..8])), Signed(Word(p[8..])))
  }

  /** The state after one record; an interval also lengthens the condition, unless it is endless. */
  function SetProp(s: State, attr: byte, p: seq<byte>): State
    requires Width(s.body, attr) == Some(|p|) && InBounds(s.body, attr)
  {
    if attr == TYPE then s.(conditionType := Signed(Word(p)))
    else if attr == ID then s.(id := Signed8(Word(p)))
    else if attr == TICKS then s.(ticks := Signed(Word(p)))
    else if attr == ISBUFF then s.(isBuff := p[0] != 0)
    else if attr == SUBID then s.(subId := Word(p))
    else if attr == INTERVALDATA && s.body.Damage? then
      s.(body := SetBody(s.body, attr, p), ticks := if s.ticks != -1 then Plus(s.ticks, IntervalOf(p).interval) else -1)
    else s.(body := SetBody(s.body, attr, p))
  }

  /** The end of reading one condition: done or refused, with the rest of the stream; or an entry for which
      its array has no place, after which nothing is known. */
  datatype Reading = Done(state: State, rest: seq<byte>) | Refused(rest: seq<byte>) | OutOfBounds

  function Unserialized(s: State, bytes: seq<byte>): (r: Reading)
    ensures !r.OutOfBounds? ==> |r.rest| <= |bytes|
    decreases |bytes|
  {
    if bytes == [] || bytes[0] == END then Done(s, if bytes == [] then [] else bytes[1..])
    else
      var w := Width(s.body, bytes[0]);
      if w.None? then Refused(bytes[1..])
      else if !InBounds(s.body, bytes[0]) then OutOfBounds
      else if |bytes| - 1 < w.value then Refused(bytes[1..])
      else Unserialized(SetProp(s, bytes[0], bytes[1..w.value + 1]), bytes[w.value + 1..])
  }

  /** The state after some records, if they can all be read. */
  function Folded(s: State, props: seq<Prop>): Option<State>
    decreases |props|
  {
    if props == [] then Some(s)
    else if props[0].attr != END && Width(s.body, props[0].attr) == Some(|props[0].payload|)
        && InBounds(s.body, props[0].attr) then
      Folded(SetProp(s, props[0].attr, props[0].payload), props[1..])
    else None
  }

  /** Reading records up to the end marker stops right behind it, in the state the records describe. */
  lemma {:induction false} UnserializedRecords(s: State, props: seq<Prop>, rest: seq<byte>)
    requires Folded(s, props).Some?
    ensures Unserialized(s, Encoded(props) + [END] + rest) == Done(Folded(s, props).value, rest)
    decreases |props|
  {
    var bytes := Encoded(props) + [END] + rest;
    if props == [] {
      assert bytes[1..] == rest;
    } else {
      var attr, p := props[0].attr, props[0].payload;
      var tail := Encoded(props[1..]) + [END] + rest;
      assert bytes == [attr] + p + tail;
      assert bytes[1..|p| + 1] == p;
      assert bytes[|p| + 1..] == tail;
      UnserializedRecords(SetProp(s, attr, p), props[1..], rest);
    }
  }

  /** A stream that ends between two records is accepted as far as it goes. */
  lemma {:induction false} CutBetweenRecords(s: State, props: seq<Prop>)
    requires Folded(s, props).Some?
    ensures Unserialized(s, Encoded(props)) == Done(Folded(s, props).value, [])
    decreases |props|
  {
    if props != [] {
      var p := props[0];
      var tail := Encoded(props[1..]);
      assert Encoded(props) == [p.attr] + (p.payload + tail);
      UnserializedStep(s, p.attr, Encoded(props), p.payload + tail);
      CutBetweenRecords(SetProp(s, p.attr, p.payload), props[1..]);
    }
  }

  /** One that ends inside a record is refused, behind that record's attribute. */
  lemma {:induction false} CutInsideRecord(s: State, props: seq<Prop>, attr: byte, part: seq<byte>)
    requires Folded(s, props).Some? && attr != END
    requires var b := Folded(s, props).value.body;
             Width(b, attr).Some? && InBounds(b, attr) && |part| < Width(b, attr).value
    ensures Unserialized(s, Encoded(props) + ([attr] + part)) == Refused(part)
    decreases |props|
  {
    var bytes := Encoded(props) + ([attr] + part);
    if props == [] {
      assert bytes == [attr] + part;
      UnserializedStep(s, attr, bytes, part);
    } else {
      var p := props[0];
      var tail := Encoded(props[1..]) + ([attr] + part);
      assert bytes == [p.attr] + (p.payload + tail);
      UnserializedStep(s, p.attr, bytes, p.payload + tail);
      CutInsideRecord(SetProp(s, p.attr, p.payload), props[1..], attr, part);
    }
  }

  /** A record that the kind does not know is refused too. */
  lemma {:induction false} UnknownRecord(s: State, props: seq<Prop>, attr: byte, rest: seq<byte>)
    requires Folded(s, props).Some? && Width(Folded(s, props).value.body, attr).None?
    ensures Unserialized(s, Encoded(props) + ([attr] + rest)) == Refused(rest)
    decreases |props|
  {
    var bytes := Encoded(props) + ([attr] + rest);
    if props == [] {
      assert bytes == [attr] + rest;
      UnserializedStep(s, attr, bytes, rest);
    } else {
      var p := props[0];
      var tail := Encoded(props[1..]) + ([attr] + rest);
      assert bytes == [p.attr] + (p.payload + tail);
      UnserializedStep(s, p.attr, bytes, p.payload + tail);
      UnknownRecord(SetProp(s, p.attr, p.payload), props[1..], attr, rest);
    }
  }

  /** The records that every kind reads. */
  predicate IsCommon(attr: byte) {
    attr == TYPE || attr == ID || attr == TICKS || attr == ISBUFF || attr == SUBID || attr == END
  }

  /** No kind knows the records of another, and all know the common ones. */
  lemma KindsKnowTheirOwn(a: Body, b: Body, attr: byte)
    ensures IsCommon(attr) ==> Width(a, attr).Some?
    ensures !IsCommon(attr) && !SameKind(a, b) && Width(a, attr).Some? ==> Width(b, attr).None?
    ensures !IsCommon(attr) && a.Generic? ==> Width(a, attr).None?
  {
  }

  /** What nobody writes is unknown to all. */
  lemma UnknownToAll(b: Body, attr: byte)
    ensures attr == 0 || 27 < attr < 254 || attr == 255 ==> Width(b, attr).None?
  {
  }

  /** An array overruns exactly with its fourteenth skill or sixth stat. */
  lemma PlacesExactly(b: Body, attr: byte)
    requires b.Attributes? ==> |b.skills| == 13 && |b.stats| == 5
    ensures InBounds(b, attr) <==>
            !(b.Attributes? && ((attr == 22 && b.currentSkill >= 13) || (attr == 23 && b.currentStat >= 5)))
  {
  }

  lemma {:induction false} FoldedJoin(s: State, a: seq<Prop>, b: seq<Prop>)
    requires Folded(s, a).Some?
    ensures Folded(s, a + b) == Folded(Folded(s, a).value, b)
    decreases |a|
  {
    if a == [] {
      assert a + b == b;
    } else {
      assert (a + b)[1..] == a[1..] + b;
      FoldedJoin(SetProp(s, a[0].attr, a[0].payload), a[1..], b);
    }
  }

  /** The ticks of a loaded condition that deals damage: the lengths of its intervals, added up in 32 bits. */
  function TicksAfter(ticks: int, list: seq<IntervalInfo>): int
    decreases |list|
  {
    if list == [] then ticks
    else TicksAfter(if ticks != -1 then Plus(ticks, list[0].interval) else -1, list[1..])
  }

  function Length(list: seq<IntervalInfo>): int {
    if list == [] then 0 else list[0].interval + Length(list[1..])
  }

  /** When no interval is negative and they fit, that is their sum. */
  lemma {:induction false} TicksAreLength(ticks: int, list: seq<IntervalInfo>)
    requires 0 <= ticks && ticks + Length(list) < HALF32 && forall i :: 0 <= i < |list| ==> list[i].interval >= 0
    ensures TicksAfter(ticks, list) == ticks + Length(list)
    decreases |list|
  {
    if list != [] {
      LengthIsPositive(list[1..]);
      assert list[0].interval >= 0;
      assert forall i :: 0 <= i < |list[1..]| ==> list[1..][i] == list[i + 1];
      PlusFits(ticks, list[0].interval);
      TicksAreLength(ticks + list[0].interval, list[1..]);
    }
  }

  lemma PlusFits(a: int, b: int)
    requires 0 <= a && 0 <= b && a + b < HALF32
    ensures Plus(a, b) == a + b
  {
  }

  lemma {:induction false} LengthIsPositive(list: seq<IntervalInfo>)
    requires forall i :: 0 <= i < |list| ==> list[i].interval >= 0
    ensures Length(list) >= 0
    decreases |list|
  {
    if list != [] {
      assert list[0].interval >= 0;
      assert forall i :: 0 <= i < |list[1..]| ==> list[1..][i] == list[i + 1];
      LengthIsPositive(list[1..]);
    }
  }

  /** What loading makes of a saved condition: everything that is saved, but for the ticks of one that deals
      damage; the places in the arrays end up behind the last entry. */
  function Restored(s: State): (r: State)
    ensures r.conditionType == s.conditionType && r.id == s.id && r.isBuff == s.isBuff && r.subId == s.subId
    ensures !s.body.Damage? ==> r.ticks == s.ticks
    ensures if s.body.Attributes?
            then r.body.Attributes? && r.body.skills == s.body.skills && r.body.stats == s.body.stats
            else r.body == s.body
  {
    match s.body
    case Damage(_, _, damageList) => s.(ticks := TicksAfter(0, damageList))
    case Attributes(_, _, _, _) => s.(body := s.body.(currentSkill := SKILL_COUNT, currentStat := STAT_COUNT))
    case _ => s
  }

  function Blank(s: State): State
    requires IsTyped(s)
  {
    Created(s.conditionType, s.id, s.ticks, s.isBuff, s.subId).value
  }

  /** The skills from place k on. */
  lemma {:induction false} FoldSkills(s: State, values: seq<int>, k: nat)
    requires s.body.Attributes? && |s.body.skills| == |values| && s.body.currentSkill == k <= |values|
    requires (forall i :: 0 <= i < |values| ==> IsInt32(values[i])) && s.body.skills[..k] == values[..k]
    ensures Folded(s, Numbers(SKILLS, values, k))
            == Some(s.(body := s.body.(skills := values, currentSkill := |values|)))
    decreases |values| - k
  {
    if k < |values| {
      SignedOfBits(values[k]);
      var next := SetProp(s, SKILLS, U32(Bits(values[k])));
      assert next.body.skills[..k + 1] == values[..k + 1];
      FoldSkills(next, values, k + 1);
      assert Numbers(SKILLS, values, k)[1..] == Numbers(SKILLS, values, k + 1);
    } else {
      assert s.body.skills == s.body.skills[..k] && values == values[..k];
    }
  }

  lemma {:induction false} FoldStats(s: State, values: seq<int>, k: nat)
    requires s.body.Attributes? && |s.body.stats| == |values| && s.body.currentStat == k <= |values|
    requires (forall i :: 0 <= i < |values| ==> IsInt32(values[i])) && s.body.stats[..k] == values[..k]
    ensures Folded(s, Numbers(STATS, values, k)) == Some(s.(body := s.body.(stats := values, currentStat := |values|)))
    decreases |values| - k
  {
    if k < |values| {
      SignedOfBits(values[k]);
      var next := SetProp(s, STATS, U32(Bits(values[k])));
      assert next.body.stats[..k + 1] == values[..k + 1];
      FoldStats(next, values, k + 1);
      assert Numbers(STATS, values, k)[1..] == Numbers(STATS, values, k + 1);
    } else {
      assert s.body.stats == s.body.stats[..k] && values == values[..k];
    }
  }

  /** A body of the same kind nothing has been loaded into. */
  predicate Unloaded(a: Body, b: Body) {
    && SameKind(a, b)
    && (a.Damage? ==> a.damageList == [])
    && (a.Attributes? ==>
          a.currentSkill == 0 && a.currentStat == 0 && |a.skills| == SKILL_COUNT && |a.stats| == STAT_COUNT)
  }

  function Loaded(s: State, b: Body): State {
    match b
    case Damage(_, _, damageList) => s.(ticks := TicksAfter(s.ticks, damageList), body := b)
    case Attributes(_, _, _, _) => s.(body := b.(currentSkill := SKILL_COUNT, currentStat := STAT_COUNT))
    case _ => s.(body := b)
  }

  lemma FoldAttributes(s: State, b: Body)
    requires IsBody(b) && Unloaded(s.body, b) && b.Attributes?
    ensures Folded(s, Own(b)) == Some(Loaded(s, b))
  {
    FoldSkills(s, b.skills, 0);
    var half := Folded(s, Numbers(SKILLS, b.skills, 0)).value;
    FoldStats(half, b.stats, 0);
    FoldedJoin(s, Numbers(SKILLS, b.skills, 0), Numbers(STATS, b.stats, 0));
  }

  lemma IntervalOfBytes(info: IntervalInfo)
    requires IsInterval(info)
    ensures |IntervalBytes(info)| == 12 && IntervalOf(IntervalBytes(info)) == info
  {
    var p := IntervalBytes(info);
    assert p[..4] == U32(Bits(info.timeLeft)) && p[4..8] == U32(Bits(info.value)) && p[8..] == U32(Bits(info.interval));
    SignedOfBits(info.timeLeft);
    SignedOfBits(info.value);
    SignedOfBits(info.interval);
  }

  lemma FirstMoved<T>(a: seq<T>, b: seq<T>)
    requires b != []
    ensures a + [b[0]] + b[1..] == a + b
  {
  }

  lemma SetInterval(s: State, info: IntervalInfo)
    requires s.body.Damage? && IsInterval(info)
    ensures var p := Prop(INTERVALDATA, IntervalBytes(info));
            Takes(s, p, s.(ticks := if s.ticks != -1 then Plus(s.ticks, info.interval) else -1,
                           body := s.body.(damageList := s.body.damageList + [info])))
  {
    IntervalOfBytes(info);
  }

  lemma {:induction false} FoldIntervals(s: State, list: seq<IntervalInfo>)
    requires s.body.Damage? && forall i :: 0 <= i < |list| ==> IsInterval(list[i])
    ensures Folded(s, Intervals(list))
            == Some(s.(ticks := TicksAfter(s.ticks, list), body := s.body.(damageList := s.body.damageList + list)))
    decreases |list|
  {
    if list == [] {
      assert s.body.damageList + list == s.body.damageList;
    } else {
      var info, props := list[0], Intervals(list);
      SetInterval(s, info);
      var next := s.(ticks := if s.ticks != -1 then Plus(s.ticks, info.interval) else -1,
                     body := s.body.(damageList := s.body.damageList + [info]));
      assert forall i :: 0 <= i < |list[1..]| ==> list[1..][i] == list[i + 1];
      FoldIntervals(next, list[1..]);
      assert props[0] == Prop(INTERVALDATA, IntervalBytes(info)) && props[1..] == Intervals(list[1..]);
      TakeFirst(s, props, next);
      FirstMoved(s.body.damageList, list);
    }
  }

  /** A record that can be read takes one state to the next. */
  predicate Takes(s: State, p: Prop, t: State) {
    p.attr != END && Width(s.body, p.attr) == Some(|p.payload|) && InBounds(s.body, p.attr)
        && t == SetProp(s, p.attr, p.payload)
  }

  lemma TakeFirst(s: State, props: seq<Prop>, t: State)
    requires props != [] && Takes(s, props[0], t)
    ensures Folded(s, props) == Folded(t, props[1..])
  {
  }

  lemma FoldDamage(s: State, b: Body)
    requires IsBody(b) && Unloaded(s.body, b) && b.Damage?
    ensures Folded(s, Own(b)) == Some(Loaded(s, b))
  {
    var first, second, list := Flag(DELAYED, b.delayed), Number(PERIODDAMAGE, Bits(b.periodDamage)), b.damageList;
    SignedOfBits(b.periodDamage);
    var s1 := s.(body := s.body.(delayed := b.delayed));
    var s2 := s1.(body := s1.body.(periodDamage := b.periodDamage));
    assert Takes(s, first, s1) && Takes(s1, second, s2);
    var props := Own(b);
    assert props[0] == first && props[1..][0] == second && props[1..][1..] == Intervals(list);
    TakeFirst(s, props, s1);
    TakeFirst(s1, props[1..], s2);
    FoldIntervals(s2, list);
    assert s2.body.damageList + list == list;
  }

  /** Four records, one after the other. */
  lemma FoldFour(s: State, props: seq<Prop>, s1: State, s2: State, s3: State, s4: State)
    requires |props| == 4
    requires Takes(s, props[0], s1) && Takes(s1, props[1], s2) && Takes(s2, props[2], s3) && Takes(s3, props[3], s4)
    ensures Folded(s, props) == Some(s4)
  {
    TakeFirst(s, props, s1);
    TakeFirst(s1, props[1..], s2);
    TakeFirst(s2, props[1..][1..], s3);
    TakeFirst(s3, props[1..][1..][1..], s4);
  }

  lemma FoldRegeneration(s: State, b: Body)
    requires IsBody(b) && Unloaded(s.body, b) && b.Regeneration?
    ensures Folded(s, Own(b)) == Some(Loaded(s, b))
  {
    WordOfU32(b.healthTicks);
    WordOfU32(b.healthGain);
    WordOfU32(b.manaTicks);
    WordOfU32(b.manaGain);
    var s1 := s.(body := s.body.(healthTicks := b.healthTicks));
    var s2 := s1.(body := s1.body.(healthGain := b.healthGain));
    var s3 := s2.(body := s2.body.(manaTicks := b.manaTicks));
    assert Takes(s, Number(HEALTHTICKS, b.healthTicks), s1);
    assert Takes(s1, Number(HEALTHGAIN, b.healthGain), s2);
    assert Takes(s2, Number(MANATICKS, b.manaTicks), s3);
    assert Takes(s3, Number(MANAGAIN, b.manaGain), s.(body := b));
    FoldFour(s, Own(b), s1, s2, s3, s.(body := b));
  }

  lemma FoldLight(s: State, b: Body)
    requires IsBody(b) && Unloaded(s.body, b) && b.Light?
    ensures Folded(s, Own(b)) == Some(Loaded(s, b))
  {
    WordOfU32(b.color);
    WordOfU32(b.level);
    assert b.color % 256 == b.color && b.level % 256 == b.level;
    WordOfU32(b.lightTicks);
    WordOfU32(b.lightInterval);
    var s1 := s.(body := s.body.(color := b.color));
    var s2 := s1.(body := s1.body.(level := b.level));
    var s3 := s2.(body := s2.body.(lightTicks := b.lightTicks));
    assert Takes(s, Number(LIGHTCOLOR, b.color), s1);
    assert Takes(s1, Number(LIGHTLEVEL, b.level), s2);
    assert Takes(s2, Number(LIGHTTICKS, b.lightTicks), s3);
    assert Takes(s3, Number(LIGHTINTERVAL, b.lightInterval), s.(body := b));
    FoldFour(s, Own(b), s1, s2, s3, s.(body := b));
  }

  lemma FoldSpeed(s: State, b: Body)
    requires IsBody(b) && Unloaded(s.body, b) && b.Speed?
    ensures Folded(s, Own(b)) == Some(Loaded(s, b))
  {
    SignedOfBits(b.speedDelta);
    WordOfU32(b.mina);
    WordOfU32(b.minb);
    WordOfU32(b.maxa);
    WordOfU32(b.maxb);
    var s1 := s.(body := s.body.(speedDelta := b.speedDelta));
    var s2 := s1.(body := s1.body.(mina := b.mina));
    var s3 := s2.(body := s2.body.(minb := b.minb));
    var s4 := s3.(body := s3.body.(maxa := b.maxa));
    assert Takes(s, Number(SPEEDDELTA, Bits(b.speedDelta)), s1);
    assert Takes(s1, Number(FORMULA_MINA, b.mina), s2);
    assert Takes(s2, Number(FORMULA_MINB, b.minb), s3);
    assert Takes(s3, Number(FORMULA_MAXA, b.maxa), s4);
    assert Takes(s4, Number(FORMULA_MAXB, b.maxb), s.(body := b));
    TakeFirst(s, Own(b), s1);
    FoldFour(s1, Own(b)[1..], s2, s3, s4, s.(body := b));
  }

  lemma FoldSoul(s: State, b: Body)
    requires IsBody(b) && Unloaded(s.body, b) && b.Soul?
    ensures Folded(s, Own(b)) == Some(Loaded(s, b))
  {
    WordOfU32(b.soulTicks);
    WordOfU32(b.soulGain);
    var s1 := s.(body := s.body.(soulGain := b.soulGain));
    assert Takes(s, Number(SOULGAIN, b.soulGain), s1);
    assert Takes(s1, Number(SOULTICKS, b.soulTicks), s.(body := b));
    TakeFirst(s, Own(b), s1);
    TakeFirst(s1, Own(b)[1..], s.(body := b));
  }

  lemma FoldOutfit(s: State, b: Body)
    requires IsBody(b) && Unloaded(s.body, b) && b.Outfit?
    ensures Folded(s, Own(b)) == Some(Loaded(s, b))
  {
    TakeFirst(s, Own(b), s.(body := b));
  }

  lemma FoldOwn(s: State, b: Body)
    requires IsBody(b) && Unloaded(s.body, b)
    ensures Folded(s, Own(b)) == Some(Loaded(s, b))
  {
    match b {
      case Attributes(_, _, _, _) => FoldAttributes(s, b);
      case Damage(_, _, _) => FoldDamage(s, b);
      case Regeneration(_, _, _, _) => FoldRegeneration(s, b);
      case Light(_, _, _, _) => FoldLight(s, b);
      case Speed(_, _, _, _, _) => FoldSpeed(s, b);
      case Soul(_, _) => FoldSoul(s, b);
      case Outfit(_) => FoldOutfit(s, b);
      case Generic =>
    }
  }

  lemma BlankIsUnloaded(s: State)
    requires IsTyped(s)
    ensures Unloaded(Blank(s).body, s.body)
    ensures Loaded(Blank(s), s.body) == Restored(s)
  {
  }

  // createCondition reads the five common fields, which must be there in this order.

  datatype Creation = Made(state: State, rest: seq<byte>) | Nothing

  function CreatedFrom(bytes: seq<byte>): (c: Creation)
    ensures c.Made? ==> |c.rest| < |bytes|
  {
    if |bytes| < 22 || bytes[0] != TYPE || bytes[5] != ID || bytes[10] != TICKS || bytes[15] != ISBUFF
        || bytes[17] != SUBID then Nothing
    else
      match Created(Word(bytes[1..5]), Signed8(Word(bytes[6..10])), Signed(Word(bytes[11..15])), bytes[16] != 0,
          Word(bytes[18..22]))
      case None => Nothing
      case Some(s) => Made(s, bytes[22..])
  }

  lemma EncodedOnto(props: seq<Prop>, rest: seq<byte>, tail: seq<byte>)
    requires props != [] && Encoded(props[1..]) + rest == tail
    ensures Encoded(props) + rest == [props[0].attr] + (props[0].payload + tail)
  {
  }

  /** The first 22 bytes, five of them attributes. */
  predicate Header(bytes: seq<byte>, a: seq<byte>, b: seq<byte>, c: seq<byte>, flag: byte, d: seq<byte>,
                   rest: seq<byte>) {
    && |bytes| >= 22
    && bytes[0] == TYPE && bytes[1..5] == a && bytes[5] == ID && bytes[6..10] == b && bytes[10] == TICKS
    && bytes[11..15] == c
    && bytes[15] == ISBUFF && bytes[16] == flag && bytes[17] == SUBID && bytes[18..22] == d && bytes[22..] == rest
  }

  lemma HeaderOf(a: seq<byte>, b: seq<byte>, c: seq<byte>, flag: byte, d: seq<byte>, rest: seq<byte>, bytes: seq<byte>)
    requires |a| == |b| == |c| == |d| == 4
    requires bytes == [TYPE] + (a + ([ID] + (b + ([TICKS] + (c + ([ISBUFF] + ([flag] + ([SUBID] + (d + rest)))))))))
    ensures Header(bytes, a, b, c, flag, d, rest)
  {
  }

  lemma CommonBytes(s: State, rest: seq<byte>)
    requires IsTyped(s)
    ensures Header(Encoded(Common(s)) + rest, U32(s.conditionType), U32(Bits(s.id)), U32(Bits(s.ticks)), if s.isBuff
            then 1 else 0, U32(s.subId), rest)
  {
    var props := Common(s);
    var p1, p2, p3, p4 := props[1..], props[2..], props[3..], props[4..];
    assert p1[1..] == p2 && p2[1..] == p3 && p3[1..] == p4 && p4[1..] == [];
    var flag: byte := if s.isBuff then 1 else 0;
    var e4 := [SUBID] + (U32(s.subId) + rest);
    assert [] + rest == rest;
    EncodedOnto(p4, rest, rest);
    var e3 := [ISBUFF] + ([flag] + e4);
    EncodedOnto(p3, rest, e4);
    var e2 := [TICKS] + (U32(Bits(s.ticks)) + e3);
    EncodedOnto(p2, rest, e3);
    var e1 := [ID] + (U32(Bits(s.id)) + e2);
    EncodedOnto(p1, rest, e2);
    EncodedOnto(props, rest, e1);
    HeaderOf(U32(s.conditionType), U32(Bits(s.id)), U32(Bits(s.ticks)), flag, U32(s.subId), rest,
        Encoded(props) + rest);
  }

  lemma CreatedFromSaved(s: State, rest: seq<byte>)
    requires IsTyped(s)
    ensures CreatedFrom(Encoded(Common(s)) + rest) == Made(Blank(s), rest)
  {
    CommonBytes(s, rest);
    WordOfU32(s.conditionType);
    WordOfU32(s.subId);
    SignedOfBits(s.ticks);
    WordOfU32(Bits(s.id));
    IdOfBits(s.id);
  }

  lemma IdOfBits(id: int)
    requires -128 <= id < 128
    ensures Signed8(Bits(id)) == id
  {
  }

  /** One condition, saved and loaded again, whatever follows in the stream. */
  lemma RoundTrip(s: State, rest: seq<byte>)
    requires IsTyped(s)
    ensures var made := CreatedFrom(Serialized(s) + [END] + rest);
            made.Made? && Unserialized(made.state, made.rest) == Done(Restored(s), rest)
  {
    var tail := Encoded(Own(s.body)) + [END] + rest;
    assert Serialized(s) + [END] + rest == Encoded(Common(s)) + tail;
    CreatedFromSaved(s, tail);
    BlankIsUnloaded(s);
    FoldOwn(Blank(s), s.body);
    UnserializedRecords(Blank(s), Own(s.body), rest);
  }

  // All conditions of a player.

  const DEFAULT := -1
  const COMBAT := 0

  predicate IsPersistent(s: State) {
    s.ticks != -1 && (s.id == DEFAULT || s.id == COMBAT)
  }

  ghost predicate AllTyped(list: seq<State>) {
    forall i {:trigger list[i]} :: 0 <= i < |list| ==> IsTyped(list[i])
  }

  function SavedAll(list: seq<State>): seq<byte> {
    if list == [] then []
    else Saved(list[0]) + SavedAll(list[1..])
  }

  /** Loading puts every condition in front of those loaded before it, and goes on behind one it refuses.
      Nothing is known when an entry has no place. */
  function LoadedAll(bytes: seq<byte>): Option<seq<State>>
    decreases |bytes|
  {
    match CreatedFrom(bytes)
    case Nothing => Some([])
    case Made(s, rest) =>
      var r := Unserialized(s, rest);
      if r.OutOfBounds? then None
      else
        var others := LoadedAll(r.rest);
        if others.None? then None else if r.Done? then Some(others.value + [r.state]) else others
  }

  function Back(list: seq<State>): seq<State> {
    if list == [] then []
    else Back(list[1..]) + if IsPersistent(list[0]) then [Restored(list[0])] else []
  }

  /** All persistent conditions come back, in reverse order, and no array is overrun. */
  lemma {:induction false} LoadsWhatWasSaved(list: seq<State>)
    requires AllTyped(list)
    ensures LoadedAll(SavedAll(list)) == Some(Back(list))
  {
    if list != [] {
      assert list[0] in list;
      LoadsWhatWasSaved(list[1..]);
      var rest := SavedAll(list[1..]);
      if IsPersistent(list[0]) {
        RoundTrip(list[0], rest);
      } else {
        assert SavedAll(list) == rest;
        assert Back(list) == Back(list[1..]);
      }
    }
  }

  /** A condition with a record its kind does not know is dropped, and all that were saved behind it are loaded. */
  lemma DropsWhatItRefuses(s: State, attr: byte, list: seq<State>)
    requires IsTyped(s) && AllTyped(list) && Width(Blank(s).body, attr).None?
    ensures LoadedAll(Encoded(Common(s)) + ([attr] + SavedAll(list))) == Some(Back(list))
  {
    CreatedFromSaved(s, [attr] + SavedAll(list));
    UnknownRecord(Blank(s), [], attr, SavedAll(list));
    assert Encoded([]) + ([attr] + SavedAll(list)) == [attr] + SavedAll(list);
    LoadsWhatWasSaved(list);
  }

  /** Nothing is created from less than the common fields. */
  lemma CutHeader(s: State, n: nat)
    requires IsTyped(s) && n < |Encoded(Common(s))|
    ensures CreatedFrom(Encoded(Common(s))[..n]) == Nothing
  {
    CommonBytes(s, []);
    assert Encoded(Common(s)) + [] == Encoded(Common(s));
    CreatedFromSaved(s, []);
  }

  // The streams and the conditions themselves.

  class PropStream {
    const data: seq<byte>
    var p: nat

    constructor (data: seq<byte>)
      ensures Valid() && Rest() == data
    {
      this.data := data;
      p := 0;
    }

    ghost predicate Valid()
      reads this
    {
      p <= |data|
    }

    ghost function Rest(): seq<byte>
      reads this
      requires Valid()
    {
      data[p..]
    }

    method Read(size: nat) returns (ok: bool, bytes: seq<byte>)
      requires Valid()
      modifies this
      ensures Valid() && ok == (|old(Rest())| >= size)
      ensures if ok then bytes == old(Rest())[..size] && Rest() == old(Rest())[size..] else Rest() == old(Rest())
    {
      if |data| - p < size {
        return false, [];
      }
      bytes := data[p..p + size];
      p := p + size;
      ok := true;
    }

    /** An attribute that must be this one, and its bytes. */
    method Expect(attr: byte, size: nat) returns (ok: bool, bytes: seq<byte>)
      requires Valid()
      modifies this
      ensures Valid() && ok == (|old(Rest())| > size && old(Rest())[0] == attr)
      ensures ok ==> bytes == old(Rest())[1..size + 1] && Rest() == old(Rest())[size + 1..]
    {
      var first;
      ok, first := Read(1);
      if !ok || first[0] != attr {
        return false, [];
      }
      ok, bytes := Read(size);
    }
  }

  lemma Associates(a: seq<byte>, b: seq<byte>, c: seq<byte>)
    ensures a + b + c == a + (b + c)
  {
  }

  class PropWriteStream {
    var buffer: seq<byte>

    constructor ()
      ensures buffer == []
    {
      buffer := [];
    }

    method Write(bytes: seq<byte>)
      modifies this
      ensures buffer == old(buffer) + bytes
    {
      buffer := buffer + bytes;
    }

    method WriteProp(p: Prop)
      modifies this
      ensures buffer == old(buffer) + Encoded([p])
    {
      buffer := buffer + [p.attr];
      buffer := buffer + p.payload;
      assert [p][1..] == [];
    }
  }

  lemma {:induction false} EncodedJoin(a: seq<Prop>, b: seq<Prop>)
    ensures Encoded(a + b) == Encoded(a) + Encoded(b)
  {
    if a == [] {
      assert a + b == b;
    } else {
      assert (a + b)[1..] == a[1..] + b;
      EncodedJoin(a[1..], b);
    }
  }

  class Condition {
    var conditionType: int
    var id: int
    var ticks: int
    var isBuff: bool
    var subId: int
    var body: Body

    constructor (s: State)
      ensures Get() == s
    {
      conditionType, id, ticks, isBuff, subId, body := s.conditionType, s.id, s.ticks, s.isBuff, s.subId, s.body;
    }

    function Get(): State
      reads this
    {
      State(conditionType, id, ticks, isBuff, subId, body)
    }

    method Set(s: State)
      modifies this
      ensures Get() == s
    {
      conditionType, id, ticks, isBuff, subId, body := s.conditionType, s.id, s.ticks, s.isBuff, s.subId, s.body;
    }

    method Serialize(out: PropWriteStream)
      modifies out
      ensures out.buffer == old(out.buffer) + Serialized(Get())
    {
      var s := Get();
      WriteProps(out, Common(s));
      WriteProps(out, Own(s.body));
    }

    /** A persistent condition is written and marked as ended. */
    method Save(out: PropWriteStream)
      modifies out
      ensures out.buffer == old(out.buffer) + Saved(Get())
    {
      var s := Get();
      if IsPersistent(s) {
        Serialize(out);
        out.Write([END]);
      }
    }

    /** One record after the other. */
    method WriteProps(out: PropWriteStream, props: seq<Prop>)
      modifies out
      ensures out.buffer == old(out.buffer) + Encoded(props)
    {
      for k := 0 to |props|
        invariant out.buffer == old(out.buffer) + Encoded(props[..k])
      {
        EncodedJoin(props[..k], [props[k]]);
        assert props[..k + 1] == props[..k] + [props[k]];
        out.WriteProp(props[k]);
      }
      assert props[..|props|] == props;
    }

    /** One record: its bytes are read and its field is set. */
    method UnserializeProp(attr: byte, stream: PropStream) returns (ok: bool, inBounds: bool)
      requires stream.Valid()
      modifies this, stream
      ensures stream.Valid()
      ensures var w := Width(old(body), attr);
              && inBounds == (w.Some? ==> InBounds(old(body), attr))
              && (inBounds ==> ok == (w.Some? && w.value <= |old(stream.Rest())|))
              && (if inBounds && ok
                  then Get() == SetProp(old(Get()), attr, old(stream.Rest())[..w.value])
                      && stream.Rest() == old(stream.Rest())[w.value..]
                  else Get() == old(Get()) && stream.Rest() == old(stream.Rest()))
    {
      var width := Width(body, attr);
      ok, inBounds := false, true;
      if width.Some? {
        inBounds := InBounds(body, attr);
        if inBounds {
          var payload;
          ok, payload := stream.Read(width.value);
          if ok {
            Set(SetProp(Get(), attr, payload));
          }
        }
      }
    }

    method Unserialize(stream: PropStream) returns (ok: bool, inBounds: bool)
      requires stream.Valid()
      modifies this, stream
      ensures stream.Valid()
      ensures var r := Unserialized(old(Get()), old(stream.Rest()));
              && inBounds == !r.OutOfBounds?
              && (inBounds ==> ok == r.Done? && stream.Rest() == r.rest)
              && (inBounds && ok ==> Get() == r.state)
    {
      var more, attr := Next(stream);
      while more && attr[0] != END
        invariant stream.Valid() && (more ==> |attr| == 1) && (!more ==> attr == [] && stream.Rest() == [])
        invariant Unserialized(old(Get()), old(stream.Rest())) == Unserialized(Get(), attr + stream.Rest())
        decreases |stream.Rest()| + |attr|
      {
        UnserializedStep(Get(), attr[0], attr + stream.Rest(), stream.Rest());
        ok, inBounds := UnserializeProp(attr[0], stream);
        if !inBounds || !ok {
          return;
        }
        more, attr := Next(stream);
      }
      assert more ==> (attr + stream.Rest())[1..] == stream.Rest();
      ok, inBounds := true, true;
    }

    /** The next attribute, if there is one. */
    method Next(stream: PropStream) returns (more: bool, attr: seq<byte>)
      requires stream.Valid()
      modifies stream
      ensures stream.Valid() && old(stream.Rest()) == attr + stream.Rest()
      ensures if more then |attr| == 1 else attr == [] && stream.Rest() == []
    {
      more, attr := stream.Read(1);
      if !more {
        attr := [];
      }
    }
  }

  lemma UnserializedStep(s: State, attr: byte, bytes: seq<byte>, rest: seq<byte>)
    requires bytes == [attr] + rest && attr != END
    ensures var w := Width(s.body, attr);
            Unserialized(s, bytes)
            == if w.None? then Refused(rest)
               else if !InBounds(s.body, attr) then OutOfBounds
               else if |rest| < w.value then Refused(rest)
               else Unserialized(SetProp(s, attr, rest[..w.value]), rest[w.value..])
  {
    assert bytes[1..] == rest;
    var w := Width(s.body, attr);
    if w.Some? && w.value <= |rest| {
      assert bytes[1..w.value + 1] == rest[..w.value] && bytes[w.value + 1..] == rest[w.value..];
    }
  }

  /** The condition created, if any, and the stream behind it. */
  ghost predicate Stands(condition: Condition?, stream: PropStream, made: Creation)
    requires stream.Valid()
    reads condition, stream
  {
    && (condition == null <==> made.Nothing?)
    && (condition != null ==> condition.Get() == made.state && stream.Rest() == made.rest)
  }

  method CreateCondition(stream: PropStream) returns (condition: Condition?)
    requires stream.Valid()
    modifies stream
    ensures stream.Valid()
    ensures Stands(condition, stream, CreatedFrom(old(stream.Rest()))) && (condition != null ==> fresh(condition))
  {
    condition := null;
    ghost var bytes := stream.Rest();
    var ok, t, id, ticks, buff, subId;
    ok, t := stream.Expect(TYPE, 4);
    if !ok { return; }
    ok, id := stream.Expect(ID, 4);
    if !ok { return; }
    ok, ticks := stream.Expect(TICKS, 4);
    if !ok { return; }
    ok, buff := stream.Expect(ISBUFF, 1);
    if !ok { return; }
    ok, subId := stream.Expect(SUBID, 4);
    if !ok { return; }
    assert Header(bytes, t, id, ticks, buff[0], subId, stream.Rest());
    var s := Created(Word(t), Signed8(Word(id)), Signed(Word(ticks)), buff[0] != 0, Word(subId));
    if s.Some? {
      condition := new Condition(s.value);
    }
  }

  /** The conditions of a player are written one after the other. */
  method SaveConditions(conditions: seq<Condition>, out: PropWriteStream)
    modifies out
    ensures out.buffer == old(out.buffer) + SavedAll(States(conditions))
  {
    ghost var states, before := States(conditions), out.buffer;
    var k := 0;
    assert states[..0] == [];
    while k < |conditions|
      invariant 0 <= k <= |conditions| && forall i :: 0 <= i < |conditions| ==> conditions[i].Get() == states[i]
      invariant out.buffer == before + SavedAll(states[..k])
    {
      var c := conditions[k];
      FirstTaken(states, k);
      SavedJoin(states[..k], states[k]);
      Associates(before, SavedAll(states[..k]), Saved(states[k]));
      c.Save(out);
      k := k + 1;
    }
    assert states[..k] == states;
    assert States(conditions) == states;
  }

  lemma FirstTaken(states: seq<State>, k: nat)
    requires k < |states|
    ensures states[..k + 1] == states[..k] + [states[k]]
  {
  }

  function Saved(s: State): seq<byte> {
    if IsPersistent(s) then Serialized(s) + [END] else []
  }

  lemma {:induction false} SavedJoin(a: seq<State>, s: State)
    ensures SavedAll(a + [s]) == SavedAll(a) + Saved(s)
  {
    if a == [] {
      assert a + [s] == [s] && [s][1..] == [];
    } else {
      assert (a + [s])[1..] == a[1..] + [s];
      SavedJoin(a[1..], s);
    }
  }

  ghost function States(conditions: seq<Condition>): (s: seq<State>)
    reads conditions
    ensures |s| == |conditions| && forall i :: 0 <= i < |s| ==> s[i] == conditions[i].Get()
  {
    if conditions == [] then [] else [conditions[0].Get()] + States(conditions[1..])
  }

  function Behind(first: Option<seq<State>>, list: seq<State>): Option<seq<State>> {
    if first.None? then None else Some(first.value + list)
  }

  lemma LoadedStep(bytes: seq<byte>, list: seq<State>)
    requires CreatedFrom(bytes).Made?
    ensures var r := Unserialized(CreatedFrom(bytes).state, CreatedFrom(bytes).rest);
            Behind(LoadedAll(bytes), list)
            == if r.OutOfBounds? then None else Behind(LoadedAll(r.rest), if r.Done? then [r.state] + list else list)
  {
    var r := Unserialized(CreatedFrom(bytes).state, CreatedFrom(bytes).rest);
    if !r.OutOfBounds? && LoadedAll(r.rest).Some? && r.Done? {
      assert LoadedAll(r.rest).value + [r.state] + list == LoadedAll(r.rest).value + ([r.state] + list);
    }
  }

  /** The stored list of a player, read from the stream until no further condition can be created.  `known` tells
      whether every entry had its place. */
  method LoadConditions(stream: PropStream) returns (list: seq<State>, known: bool)
    requires stream.Valid()
    modifies stream
    ensures stream.Valid()
    ensures known == LoadedAll(old(stream.Rest())).Some?
    ensures known ==> list == LoadedAll(old(stream.Rest())).value
  {
    list, known := [], true;
    ghost var bytes, all := stream.Rest(), LoadedAll(stream.Rest());
    assert all.Some? ==> all.value + [] == all.value;
    var condition := CreateCondition(stream);
    while condition != null
      invariant stream.Valid()
      invariant Stands(condition, stream, CreatedFrom(bytes)) && (condition != null ==> fresh(condition))
      invariant known && all == Behind(LoadedAll(bytes), list)
      decreases |bytes|
    {
      list, known := LoadNext(condition, stream, bytes, list);
      if !known {
        return;
      }
      bytes := stream.Rest();
      condition := CreateCondition(stream);
    }
  }

  /** A condition is read and comes to the front of the list, or is dropped. */
  method LoadNext(condition: Condition, stream: PropStream, ghost bytes: seq<byte>, list: seq<State>)
    returns (next: seq<State>, known: bool)
    requires stream.Valid() && CreatedFrom(bytes).Made?
    requires condition.Get() == CreatedFrom(bytes).state && stream.Rest() == CreatedFrom(bytes).rest
    modifies condition, stream
    ensures stream.Valid()
    ensures if known
            then Behind(LoadedAll(bytes), list) == Behind(LoadedAll(stream.Rest()), next) && |stream.Rest()| < |bytes|
            else LoadedAll(bytes).None?
  {
    LoadedStep(bytes, list);
    next := list;
    var ok;
    ok, known := condition.Unserialize(stream);
    if known && ok {
      next := [condition.Get()] + list;
    }
  }
}
