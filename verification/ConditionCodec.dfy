/**
 Saving and loading conditions (src/condition.cpp): every class but ConditionAttributes, field by
 field, and a player's whole list. Classes without saved fields of their own are `Generic`.

 Signed fields are written as their 32- or 64-bit two's complement; floats are carried as their
 four bytes.
 */
module ConditionCodec {
  import opened Basics
  import opened PropStreams

  type U32 = x: int | 0 <= x < 0x1_0000_0000
  type I32 = x: int | -0x8000_0000 <= x < 0x8000_0000
  type I64 = x: int | -0x8000_0000_0000_0000 <= x < 0x8000_0000_0000_0000
  type U16 = x: int | 0 <= x < 0x1_0000
  type I8 = x: int | -0x80 <= x < 0x80

  const TYPE: Byte := 1
  const ID: Byte := 2
  const TICKS: Byte := 3
  const HEALTH_TICKS: Byte := 4
  const HEALTH_GAIN: Byte := 5
  const MANA_TICKS: Byte := 6
  const MANA_GAIN: Byte := 7
  const DELAYED: Byte := 8
  const OWNER: Byte := 9
  const INTERVAL_DATA: Byte := 10
  const SPEED_DELTA: Byte := 11
  const FORMULA_MINA: Byte := 12
  const FORMULA_MINB: Byte := 13
  const FORMULA_MAXA: Byte := 14
  const FORMULA_MAXB: Byte := 15
  const LIGHT_COLOR: Byte := 16
  const LIGHT_LEVEL: Byte := 17
  const LIGHT_TICKS: Byte := 18
  const LIGHT_INTERVAL: Byte := 19
  const SOUL_TICKS: Byte := 20
  const SOUL_GAIN: Byte := 21
  const OUTFIT: Byte := 24
  const PERIOD_DAMAGE: Byte := 25
  const IS_BUFF: Byte := 26
  const SUB_ID: Byte := 27
  const IS_AGGRESSIVE: Byte := 28
  const HEALTH_GAIN_PERCENT: Byte := 32
  const MANA_GAIN_PERCENT: Byte := 33
  const CONSTANT: Byte := 34
  const END_TIME: Byte := 35
  const TYPE64: Byte := 36
  const END: Byte := 254

  datatype Interval = Interval(timeLeft: I32, value: I32, interval: I32)

  datatype Extra =
    | Generic
    | Regeneration(healthTicks: U32, healthGain: U32, healthGainPercent: U32, manaTicks: U32, manaGain: U32,
        manaGainPercent: U32)
    | Soul(soulGain: U32, soulTicks: U32)
    | Speed(speedDelta: I32, mina: U32, minb: U32, maxa: U32, maxb: U32)
    | Damage(delayed: bool, periodDamage: I32, damageList: seq<Interval>)
    | Light(color: Byte, level: Byte, lightTicks: U32, lightInterval: U32)
    | Outfit(look: Look)

  /** Outfit_t, in memory order; one byte of padding follows. */
  datatype Look = Look(
    kind: U16, item: U16, mount: U16, familiar: U16, head: Byte, body: Byte, legs: Byte, feet: Byte, addons: Byte)

  datatype Condition = Condition(
    kind: nat, id: I8, ticks: I32, isBuff: bool, subId: U32, aggressive: bool, constant: bool, endTime: I64,
        extra: Extra)

  // ---- Words ----

  function Unsigned16(x: int): (w: U16) { x % 0x1_0000 }
  function Unsigned32(x: int): (w: U32) { x % 0x1_0000_0000 }
  function Signed32(w: int): (x: I32) { var u := w % 0x1_0000_0000; if u < 0x8000_0000 then u else u - 0x1_0000_0000 }
  function Unsigned64(x: int): (w: nat) { x % 0x1_0000_0000_0000_0000 }
  function Signed64(w: int): (x: I64) {
    var u := w % 0x1_0000_0000_0000_0000;
    if u < 0x8000_0000_0000_0000 then u else u - 0x1_0000_0000_0000_0000
  }
  function Signed8(w: int): (x: I8) { var u := w % 0x100; if u < 0x80 then u else u - 0x100 }
  function Flag(b: bool): (v: nat) { if b then 1 else 0 }

  lemma Words(i: I32, l: I64, d: I8)
    ensures Signed32(Unsigned32(i)) == i && Signed64(Unsigned64(l)) == l && Signed8(Unsigned32(d)) == d
  {
  }

  // ---- Condition types ----

  function PowerOfTwo(n: nat): (p: nat) { if n == 0 then 1 else 2 * PowerOfTwo(n - 1) }

  /** (type & (type - 1)) == 0 for a type that is not 0: exactly one bit is set. */
  predicate OneBit(x: nat) {
    if x == 0 then false else if x == 1 then true else x % 2 == 0 && OneBit(x / 2)
  }

  /** The position of the one bit. */
  function BitOf(x: nat): (n: nat)
    requires OneBit(x)
  {
    if x == 1 then 0 else 1 + BitOf(x / 2)
  }

  /** The test accepts exactly the powers of two, and the position of the bit is the exponent. */
  lemma {:induction false} OneBitPower(n: nat)
    ensures PowerOfTwo(n) > 0 && OneBit(PowerOfTwo(n)) && BitOf(PowerOfTwo(n)) == n
  {
    if n > 0 {
      OneBitPower(n - 1);
    }
  }

  lemma {:induction false} OneBitIff(x: nat)
    ensures OneBit(x) <==> exists n: nat :: x == PowerOfTwo(n)
  {
    if n: nat :| x == PowerOfTwo(n) {
      OneBitPower(n);
    }
    if OneBit(x) {
      PowerOfBit(x);
    }
  }

  lemma {:induction false} PowerOfBit(x: nat)
    requires OneBit(x)
    ensures PowerOfTwo(BitOf(x)) == x
  {
    if x > 1 {
      PowerOfBit(x / 2);
    }
  }

  const DAMAGE_BITS: set<nat> := {0, 1, 2, 3, 15, 20, 21, 22, 31}
  const SPEED_BITS: set<nat> := {4, 5}
  const GENERIC_BITS: set<nat> := {7, 9, 10, 11, 12, 16, 17, 18, 23, 24, 25, 26, 27, 28, 29, 30, 32, 33, 34, 35}

  /** A new condition of the class its type calls for; None for a type that has none, and for ConditionAttributes. */
  function NewExtra(kind: nat): (e: Option<Extra>) {
    if !OneBit(kind) then None
    else
      var n := BitOf(kind);
      if n in DAMAGE_BITS then Some(Damage(false, 0, []))
      else if n in SPEED_BITS then Some(Speed(0, 0, 0, 0, 0))
      else if n == 13 then Some(Regeneration(1000, 0, 0, 1000, 0, 0))
      else if n == 14 then Some(Soul(0, 0))
      else if n == 6 then Some(Outfit(Look(0, 0, 0, 0, 0, 0, 0, 0, 0)))
      else if n == 8 then Some(Light(0, 0, 0, 0))
      else if n in GENERIC_BITS then Some(Generic)
      else None
  }

  predicate SameClass(a: Extra, b: Extra) {
    || (a.Generic? && b.Generic?) || (a.Regeneration? && b.Regeneration?) || (a.Soul? && b.Soul?)
    || (a.Speed? && b.Speed?) || (a.Damage? && b.Damage?) || (a.Light? && b.Light?) || (a.Outfit? && b.Outfit?)
  }

  /** The object's class is the one its type is created as. */
  predicate WellFormed(c: Condition) {
    c.kind < 0x1_0000_0000_0000_0000 && NewExtra(c.kind).Some? && SameClass(NewExtra(c.kind).value, c.extra)
  }

  // ---- Writing ----

  /** A tag and a word of k bytes, in front of what follows. */
  function Field(tag: Byte, v: nat, k: nat, rest: seq<Byte>): (s: seq<Byte>) { [tag] + Bytes(v, k) + rest }

  /** The second half of the header, from the sub id on. */
  function WriteFlags(c: Condition, rest: seq<Byte>): (s: seq<Byte>) {
    Field(SUB_ID, c.subId, 4, Field(IS_AGGRESSIVE, Flag(c.aggressive), 1, WriteConstant(c, rest)))
  }

  function WriteConstant(c: Condition, rest: seq<Byte>): (s: seq<Byte>) {
    Field(CONSTANT, Flag(c.constant), 1, if c.constant then Field(END_TIME, Unsigned64(c.endTime), 8, rest) else rest)
  }

  function WriteBase(c: Condition, rest: seq<Byte>): (s: seq<Byte>) {
    Field(ID, Unsigned32(c.id), 4,
        Field(TICKS, Unsigned32(c.ticks), 4, Field(IS_BUFF, Flag(c.isBuff), 1, WriteFlags(c, rest))))
  }

  function WriteHeader(c: Condition, rest: seq<Byte>): (s: seq<Byte>) {
    if c.kind >= 0x1_0000_0000 then Field(TYPE64, c.kind, 8, WriteBase(c, rest))
        else Field(TYPE, c.kind, 4, WriteBase(c, rest))
  }

  function WriteIntervals(list: seq<Interval>, rest: seq<Byte>): (s: seq<Byte>) {
    if list == [] then rest
    else
      [INTERVAL_DATA] + IntervalBytes(list[0]) + WriteIntervals(list[1..], rest)
  }

  function IntervalBytes(i: Interval): (s: seq<Byte>)
    ensures |s| == 12
  {
    Bytes(Unsigned32(i.timeLeft), 4) + Bytes(Unsigned32(i.value), 4) + Bytes(Unsigned32(i.interval), 4)
  }

  /** Familiar is not written; zeros fill up to the size of the structure. */
  function LookBytes(l: Look): (s: seq<Byte>)
    ensures |s| == 14
  {
    Bytes(l.kind, 2) + Bytes(l.item, 2) + Bytes(l.mount, 2) + [l.head, l.body, l.legs, l.feet, l.addons, 0, 0, 0]
  }

  /** read<Outfit_t> takes the bytes in memory order. */
  function LookRead(s: seq<Byte>): (l: Look)
    requires |s| == 14
  {
    Look(Unsigned16(Value(s[..2])), Unsigned16(Value(s[2..4])), Unsigned16(Value(s[4..6])), Unsigned16(Value(s[6..8])),
         s[8], s[9], s[10], s[11], s[12])
  }

  /** Color and level are written as 32-bit words. */
  function WriteExtra(e: Extra, rest: seq<Byte>): (s: seq<Byte>) {
    match e
    case Generic => rest
    case Regeneration(ht, hg, hp, mt, mg, mp) =>
      Field(HEALTH_TICKS, ht, 4, Field(HEALTH_GAIN, hg, 4, Field(HEALTH_GAIN_PERCENT, hp, 4,
      Field(MANA_TICKS, mt, 4, Field(MANA_GAIN, mg, 4, Field(MANA_GAIN_PERCENT, mp, 4, rest))))))
    case Soul(gain, ticks) => Field(SOUL_GAIN, gain, 4, Field(SOUL_TICKS, ticks, 4, rest))
    case Speed(delta, mina, minb, maxa, maxb) =>
      Field(SPEED_DELTA, Unsigned32(delta), 4, Field(FORMULA_MINA, mina, 4, Field(FORMULA_MINB, minb, 4,
      Field(FORMULA_MAXA, maxa, 4, Field(FORMULA_MAXB, maxb, 4, rest)))))
    case Damage(delayed, period, list) =>
      Field(DELAYED, Flag(delayed), 1, Field(PERIOD_DAMAGE, Unsigned32(period), 4, WriteIntervals(list, rest)))
    case Light(color, level, ticks, interval) =>
      Field(LIGHT_COLOR, color, 4, Field(LIGHT_LEVEL, level, 4,
          Field(LIGHT_TICKS, ticks, 4, Field(LIGHT_INTERVAL, interval, 4, rest))))
    case Outfit(look) => [OUTFIT] + LookBytes(look) + rest
  }

  /** serialize, then the END byte the caller adds, in front of what follows. */
  function Write(c: Condition, rest: seq<Byte>): (s: seq<Byte>) {
    WriteHeader(c, WriteExtra(c.extra, [END] + rest))
  }

  // ---- Reading ----

  /** The expected tag and its word. */
  function Expect(s: seq<Byte>, tag: Byte, k: nat): (r: Option<(nat, seq<Byte>)>) {
    if s == [] || s[0] != tag then None else Read(s[1..], k)
  }

  const NEVER: I64 := 0x7FFF_FFFF_FFFF_FFFF

  /** The constructors: a damage condition starts without ticks. */
  function NewCondition(kind: nat, id: I8, ticks: I32, isBuff: bool, subId: U32, aggressive: bool, constant: bool,
      e: Extra): (c: Condition) {
    var t: I32 := if e.Damage? then 0 else ticks;
    Condition(kind, id, t, isBuff, subId, aggressive, constant, if t == -1 then NEVER else 0, e)
  }

  /** createCondition(PropStream&). */
  function Create(s: seq<Byte>): (r: Option<(Condition, seq<Byte>)>) {
    if s == [] then None
    else
      var kind := if s[0] == TYPE then Read(s[1..], 4) else if s[0] == TYPE64 then Read(s[1..], 8) else None;
      if kind.None? || !OneBit(kind.value.0) then None
      else CreateTyped(kind.value.0, kind.value.1)
  }

  function CreateTyped(kind: nat, s: seq<Byte>): (r: Option<(Condition, seq<Byte>)>) {
    var id := Expect(s, ID, 4);
    if id.None? then None else
    var ticks := Expect(id.value.1, TICKS, 4);
    if ticks.None? then None else
    var buff := Expect(ticks.value.1, IS_BUFF, 1);
    if buff.None? then None
    else CreateFlags(kind, Signed8(id.value.0), Signed32(ticks.value.0), buff.value.0 != 0, buff.value.1)
  }

  function CreateFlags(kind: nat, id: I8, ticks: I32, isBuff: bool, s: seq<Byte>): (r: Option<(Condition, seq<Byte>)>) {
    var sub := Expect(s, SUB_ID, 4);
    if sub.None? then None else
    var aggressive := Expect(sub.value.1, IS_AGGRESSIVE, 1);
    if aggressive.None? then None
    else CreateConstant(kind, id, ticks, isBuff, Unsigned32(sub.value.0), aggressive.value.0 != 0, aggressive.value.1)
  }

  function CreateConstant(kind: nat, id: I8, ticks: I32, isBuff: bool, subId: U32, aggressive: bool,
      s: seq<Byte>): (r: Option<(Condition, seq<Byte>)>) {
    var constant := Expect(s, CONSTANT, 1);
    if constant.None? then None else
    var e := NewExtra(kind);
    if e.None? then None else
    var c := NewCondition(kind, id, ticks, isBuff, subId, aggressive, constant.value.0 != 0, e.value);
    if !c.constant then Some((c, constant.value.1))
    else
      var end := Expect(constant.value.1, END_TIME, 8);
      if end.None? then None else Some((c.(endTime := Signed64(end.value.0)), end.value.1))
  }

  /** Condition::unserializeProp. */
  function BaseProp(c: Condition, tag: Byte, s: seq<Byte>): (r: Option<(Condition, seq<Byte>)>) {
    var width := if tag == TYPE || tag == ID || tag == TICKS || tag == SUB_ID then 4
                 else if tag == TYPE64 || tag == END_TIME then 8
                 else if tag == IS_BUFF || tag == IS_AGGRESSIVE || tag == CONSTANT then 1
                 else 0;
    if width == 0 then None
    else
      var v := Read(s, width);
      if v.None? then None
      else
        var (x, rest) := v.value;
        Some((if tag == TYPE || tag == TYPE64 then c.(kind := x)
              else if tag == ID then c.(id := Signed8(x))
              else if tag == TICKS then c.(ticks := Signed32(x))
              else if tag == SUB_ID then c.(subId := Unsigned32(x))
              else if tag == END_TIME then c.(endTime := Signed64(x))
              else if tag == IS_BUFF then c.(isBuff := x != 0)
              else if tag == IS_AGGRESSIVE then c.(aggressive := x != 0)
              else c.(constant := x != 0), rest))
  }

  function RegenerationProp(e: Extra, tag: Byte, x: U32): (r: Extra)
    requires e.Regeneration?
  {
    if tag == HEALTH_TICKS then e.(healthTicks := x)
    else if tag == HEALTH_GAIN then e.(healthGain := x)
    else if tag == HEALTH_GAIN_PERCENT then e.(healthGainPercent := x)
    else if tag == MANA_TICKS then e.(manaTicks := x)
    else if tag == MANA_GAIN then e.(manaGain := x)
    else e.(manaGainPercent := x)
  }

  function SpeedProp(e: Extra, tag: Byte, x: U32): (r: Extra)
    requires e.Speed?
  {
    if tag == SPEED_DELTA then e.(speedDelta := Signed32(x))
    else if tag == FORMULA_MINA then e.(mina := x)
    else if tag == FORMULA_MINB then e.(minb := x)
    else if tag == FORMULA_MAXA then e.(maxa := x)
    else e.(maxb := x)
  }

  /** One more hit: the list grows and, unless the ticks are endless, setTicks moves the end time. */
  function AddInterval(c: Condition, i: Interval, now: int): (r: Condition)
    requires c.extra.Damage?
  {
    var d := c.(extra := c.extra.(damageList := c.extra.damageList + [i]));
    if c.ticks == -1 then d
    else
      var t := Signed32(c.ticks + i.interval);
      d.(ticks := t, endTime := Signed64(t + now))
  }

  function DamageProp(c: Condition, tag: Byte, s: seq<Byte>, now: int): (r: Option<(Condition, seq<Byte>)>)
    requires c.extra.Damage?
  {
    if tag == DELAYED then
      var v := Read(s, 1);
      if v.None? then None else Some((c.(extra := c.extra.(delayed := v.value.0 != 0)), v.value.1))
    else if tag == PERIOD_DAMAGE then
      var v := Read(s, 4);
      if v.None? then None else Some((c.(extra := c.extra.(periodDamage := Signed32(v.value.0))), v.value.1))
    else if tag == OWNER then
      if |s| < 4 then None else Some((c, s[4..]))
    else if tag == INTERVAL_DATA then
      if |s| < 12 then None
      else
        var i := Interval(Signed32(Value(s[..4])), Signed32(Value(s[4..8])), Signed32(Value(s[8..12])));
        Some((AddInterval(c, i, now), s[12..]))
    else BaseProp(c, tag, s)
  }

  /** Color and level are read as single bytes. */
  function LightProp(c: Condition, tag: Byte, s: seq<Byte>): (r: Option<(Condition, seq<Byte>)>)
    requires c.extra.Light?
  {
    if tag == LIGHT_COLOR || tag == LIGHT_LEVEL then
      if s == [] then None
      else Some((c.(extra := if tag == LIGHT_COLOR then c.extra.(color := s[0]) else c.extra.(level := s[0])), s[1..]))
    else if tag == LIGHT_TICKS || tag == LIGHT_INTERVAL then
      var v := Read(s, 4);
      if v.None? then None
      else
        var x := Unsigned32(v.value.0);
        Some((c.(extra := if tag == LIGHT_TICKS then c.extra.(lightTicks := x) else c.extra.(lightInterval := x)),
            v.value.1))
    else BaseProp(c, tag, s)
  }

  function OutfitProp(c: Condition, tag: Byte, s: seq<Byte>): (r: Option<(Condition, seq<Byte>)>)
    requires c.extra.Outfit?
  {
    if tag == OUTFIT then
      if |s| < 14 then None else Some((c.(extra := Outfit(LookRead(s[..14]))), s[14..]))
    else BaseProp(c, tag, s)
  }

  /** unserializeProp of the condition's class. */
  function Prop(c: Condition, tag: Byte, s: seq<Byte>, now: int): (r: Option<(Condition, seq<Byte>)>) {
    match c.extra
    case Generic => BaseProp(c, tag, s)
    case Regeneration(_, _, _, _, _, _) =>
      if tag in {HEALTH_TICKS, HEALTH_GAIN, HEALTH_GAIN_PERCENT, MANA_TICKS, MANA_GAIN, MANA_GAIN_PERCENT} then
        var v := Read(s, 4);
        if v.None? then None else Some((c.(extra := RegenerationProp(c.extra, tag, Unsigned32(v.value.0))), v.value.1))
      else BaseProp(c, tag, s)
    case Soul(gain, ticks) =>
      if tag == SOUL_GAIN || tag == SOUL_TICKS then
        var v := Read(s, 4);
        if v.None? then None
        else Some((c.(extra := if tag == SOUL_GAIN then Soul(Unsigned32(v.value.0), ticks)
            else Soul(gain, Unsigned32(v.value.0))), v.value.1))
      else BaseProp(c, tag, s)
    case Speed(_, _, _, _, _) =>
      if tag in {SPEED_DELTA, FORMULA_MINA, FORMULA_MINB, FORMULA_MAXA, FORMULA_MAXB} then
        var v := Read(s, 4);
        if v.None? then None else Some((c.(extra := SpeedProp(c.extra, tag, Unsigned32(v.value.0))), v.value.1))
      else BaseProp(c, tag, s)
    case Damage(_, _, _) => DamageProp(c, tag, s, now)
    case Light(_, _, _, _) => LightProp(c, tag, s)
    case Outfit(_) => OutfitProp(c, tag, s)
  }

  datatype Parsed = Parsed(ok: bool, c: Condition, rest: seq<Byte>)

  lemma PropShrinks(c: Condition, tag: Byte, s: seq<Byte>, now: int)
    ensures Prop(c, tag, s, now).Some? ==> |Prop(c, tag, s, now).value.1| < |s|
  {
  }

  /** unserialize: properties up to END or the end of the stream. */
  function Unserialize(c: Condition, s: seq<Byte>, now: int): (r: Parsed)
    decreases |s|
  {
    if s == [] then Parsed(true, c, [])
    else if s[0] == END then Parsed(true, c, s[1..])
    else
      var p := Prop(c, s[0], s[1..], now);
      PropShrinks(c, s[0], s[1..], now);
      if p.None? then Parsed(false, c, s[1..]) else Unserialize(p.value.0, p.value.1, now)
  }

  // ---- One condition comes back ----

  ghost function TotalInterval(list: seq<Interval>): (n: int) {
    if list == [] then 0 else TotalInterval(list[..|list| - 1]) + list[|list| - 1].interval
  }

  /** The ticks summed up while a list is read, in 32 bits; -1 means endless and takes no more. */
  ghost function Running(list: seq<Interval>): (t: I32) {
    if list == [] then 0
    else
      var t := Running(list[..|list| - 1]);
      if t == -1 then -1 else Signed32(t + list[|list| - 1].interval)
  }

  /** An outfit after saving and loading: what follows the mount has moved up by the two bytes of the familiar. */
  function Shifted(l: Look): (r: Look) {
    Look(l.kind, l.item, l.mount, l.head + 256 * l.body, l.legs, l.feet, l.addons, 0, 0)
  }

  /** What loading makes of a saved condition that is not a light. */
  ghost function Restored(c: Condition, now: int): (r: Condition) {
    var ticks: I32 := if c.extra.Damage? then Running(c.extra.damageList) else c.ticks;
    var end: I64 :=
      if c.extra.Damage? && c.extra.damageList != [] then Signed64(ticks + now)
      else if c.constant then c.endTime
      else if ticks == -1 then NEVER else 0;
    c.(ticks := ticks, endTime := end, extra := if c.extra.Outfit? then Outfit(Shifted(c.extra.look)) else c.extra)
  }

  lemma ExpectField(tag: Byte, v: nat, k: nat, rest: seq<Byte>)
    requires v < Power256(k)
    ensures Expect(Field(tag, v, k, rest), tag, k) == Some((v, rest))
    ensures Field(tag, v, k, rest) != [] && Field(tag, v, k, rest)[0] == tag &&
            Read(Field(tag, v, k, rest)[1..], k) == Some((v, rest))
  {
    assert Field(tag, v, k, rest)[1..] == Bytes(v, k) + rest;
    ReadBytes(v, k, rest);
  }

  /** The object createCondition returns for a saved condition. */
  ghost function Fresh(c: Condition): (r: Condition)
    requires WellFormed(c)
  {
    var n := NewCondition(c.kind, c.id, c.ticks, c.isBuff, c.subId, c.aggressive, c.constant, NewExtra(c.kind).value);
    if c.constant then n.(endTime := c.endTime) else n
  }

  lemma ConstantBack(c: Condition, rest: seq<Byte>)
    requires WellFormed(c)
    ensures CreateConstant(c.kind, c.id, c.ticks, c.isBuff, c.subId, c.aggressive, WriteConstant(c, rest)) ==
            Some((Fresh(c), rest))
  {
    Widths();
    Words(c.ticks, c.endTime, c.id);
    if c.constant {
      ExpectField(END_TIME, Unsigned64(c.endTime), 8, rest);
    }
    ExpectField(CONSTANT, Flag(c.constant), 1, if c.constant then Field(END_TIME, Unsigned64(c.endTime), 8, rest)
        else rest);
  }

  lemma FlagsBack(c: Condition, rest: seq<Byte>)
    requires WellFormed(c)
    ensures CreateFlags(c.kind, c.id, c.ticks, c.isBuff, WriteFlags(c, rest)) == Some((Fresh(c), rest))
  {
    Widths();
    ConstantBack(c, rest);
    ExpectField(IS_AGGRESSIVE, Flag(c.aggressive), 1, WriteConstant(c, rest));
    ExpectField(SUB_ID, c.subId, 4, Field(IS_AGGRESSIVE, Flag(c.aggressive), 1, WriteConstant(c, rest)));
  }

  lemma BaseBack(c: Condition, rest: seq<Byte>)
    requires WellFormed(c)
    ensures CreateTyped(c.kind, WriteBase(c, rest)) == Some((Fresh(c), rest))
  {
    Widths();
    Words(c.ticks, c.endTime, c.id);
    FlagsBack(c, rest);
    var s2 := Field(IS_BUFF, Flag(c.isBuff), 1, WriteFlags(c, rest));
    var s1 := Field(TICKS, Unsigned32(c.ticks), 4, s2);
    ExpectField(IS_BUFF, Flag(c.isBuff), 1, WriteFlags(c, rest));
    ExpectField(TICKS, Unsigned32(c.ticks), 4, s2);
    ExpectField(ID, Unsigned32(c.id), 4, s1);
  }

  /** The type word, short or long, leads to the rest of the header. */
  lemma TypeBack(kind: nat, base: seq<Byte>)
    requires kind < 0x1_0000_0000_0000_0000 && OneBit(kind)
    ensures Create(if kind >= 0x1_0000_0000 then Field(TYPE64, kind, 8, base) else Field(TYPE, kind, 4, base)) ==
            CreateTyped(kind, base)
  {
    Widths();
    if kind >= 0x1_0000_0000 {
      ExpectField(TYPE64, kind, 8, base);
    } else {
      ExpectField(TYPE, kind, 4, base);
    }
  }

  lemma CreateWritten(c: Condition, rest: seq<Byte>)
    requires WellFormed(c)
    ensures Create(WriteHeader(c, rest)) == Some((Fresh(c), rest))
  {
    BaseBack(c, rest);
    TypeBack(c.kind, WriteBase(c, rest));
  }

  /** One written word that is not END is handed to Prop, and the loop goes on behind it. */
  lemma ReadOn(c: Condition, tag: Byte, v: nat, k: nat, rest: seq<Byte>, now: int, n: Condition)
    requires v < Power256(k) && tag != END
    requires Prop(c, tag, Bytes(v, k) + rest, now) == Some((n, rest))
    ensures Unserialize(c, Field(tag, v, k, rest), now) == Unserialize(n, rest, now)
  {
    var s := Field(tag, v, k, rest);
    assert s[0] == tag && s[1..] == Bytes(v, k) + rest;
  }

  lemma RegenerationStep(c: Condition, tag: Byte, v: U32, rest: seq<Byte>, now: int)
    requires c.extra.Regeneration?
    requires tag in {HEALTH_TICKS, HEALTH_GAIN, HEALTH_GAIN_PERCENT, MANA_TICKS, MANA_GAIN, MANA_GAIN_PERCENT}
    ensures Unserialize(c, Field(tag, v, 4, rest), now) ==
            Unserialize(c.(extra := RegenerationProp(c.extra, tag, v)), rest, now)
  {
    Widths();
    ReadBytes(v, 4, rest);
    ReadOn(c, tag, v, 4, rest, now, c.(extra := RegenerationProp(c.extra, tag, v)));
  }

  lemma RegenerationBack(c: Condition, e: Extra, rest: seq<Byte>, now: int)
    requires c.extra.Regeneration? && e.Regeneration?
    ensures Unserialize(c, WriteExtra(e, rest), now) == Unserialize(c.(extra := e), rest, now)
  {
    var r5 := Field(MANA_GAIN_PERCENT, e.manaGainPercent, 4, rest);
    var r4 := Field(MANA_GAIN, e.manaGain, 4, r5);
    var r3 := Field(MANA_TICKS, e.manaTicks, 4, r4);
    RegenerationMana(c.(extra := c.extra.(healthTicks := e.healthTicks, healthGain := e.healthGain,
        healthGainPercent := e.healthGainPercent)),
                     e, rest, now);
    var r2 := Field(HEALTH_GAIN_PERCENT, e.healthGainPercent, 4, r3);
    var r1 := Field(HEALTH_GAIN, e.healthGain, 4, r2);
    RegenerationStep(c, HEALTH_TICKS, e.healthTicks, r1, now);
    var c1 := c.(extra := c.extra.(healthTicks := e.healthTicks));
    RegenerationStep(c1, HEALTH_GAIN, e.healthGain, r2, now);
    var c2 := c1.(extra := c1.extra.(healthGain := e.healthGain));
    RegenerationStep(c2, HEALTH_GAIN_PERCENT, e.healthGainPercent, r3, now);
  }

  lemma RegenerationMana(c: Condition, e: Extra, rest: seq<Byte>, now: int)
    requires c.extra.Regeneration? && e.Regeneration?
    requires c.extra.healthTicks == e.healthTicks && c.extra.healthGain == e.healthGain &&
             c.extra.healthGainPercent == e.healthGainPercent
    ensures Unserialize(c, Field(MANA_TICKS, e.manaTicks, 4, Field(MANA_GAIN, e.manaGain, 4,
                           Field(MANA_GAIN_PERCENT, e.manaGainPercent, 4, rest))), now) ==
                               Unserialize(c.(extra := e), rest, now)
  {
    var r5 := Field(MANA_GAIN_PERCENT, e.manaGainPercent, 4, rest);
    var r4 := Field(MANA_GAIN, e.manaGain, 4, r5);
    RegenerationStep(c, MANA_TICKS, e.manaTicks, r4, now);
    var c1 := c.(extra := c.extra.(manaTicks := e.manaTicks));
    RegenerationStep(c1, MANA_GAIN, e.manaGain, r5, now);
    var c2 := c1.(extra := c1.extra.(manaGain := e.manaGain));
    RegenerationStep(c2, MANA_GAIN_PERCENT, e.manaGainPercent, rest, now);
    assert c.(extra := e) == c2.(extra := c2.extra.(manaGainPercent := e.manaGainPercent));
  }

  lemma SoulStep(c: Condition, tag: Byte, v: U32, rest: seq<Byte>, now: int)
    requires c.extra.Soul? && (tag == SOUL_GAIN || tag == SOUL_TICKS)
    ensures Unserialize(c, Field(tag, v, 4, rest), now) ==
            Unserialize(c.(extra := if tag == SOUL_GAIN then Soul(v, c.extra.soulTicks) else Soul(c.extra.soulGain, v)),
                rest, now)
  {
    Widths();
    ReadBytes(v, 4, rest);
    ReadOn(c, tag, v, 4, rest, now,
        c.(extra := if tag == SOUL_GAIN then Soul(v, c.extra.soulTicks) else Soul(c.extra.soulGain, v)));
  }

  lemma SoulBack(c: Condition, e: Extra, rest: seq<Byte>, now: int)
    requires c.extra.Soul? && e.Soul?
    ensures Unserialize(c, WriteExtra(e, rest), now) == Unserialize(c.(extra := e), rest, now)
  {
    SoulStep(c, SOUL_GAIN, e.soulGain, Field(SOUL_TICKS, e.soulTicks, 4, rest), now);
    SoulStep(c.(extra := Soul(e.soulGain, c.extra.soulTicks)), SOUL_TICKS, e.soulTicks, rest, now);
  }

  lemma SpeedStep(c: Condition, tag: Byte, v: U32, rest: seq<Byte>, now: int)
    requires c.extra.Speed? && tag in {SPEED_DELTA, FORMULA_MINA, FORMULA_MINB, FORMULA_MAXA, FORMULA_MAXB}
    ensures Unserialize(c, Field(tag, v, 4, rest), now) ==
            Unserialize(c.(extra := SpeedProp(c.extra, tag, v)), rest, now)
  {
    Widths();
    ReadBytes(v, 4, rest);
    ReadOn(c, tag, v, 4, rest, now, c.(extra := SpeedProp(c.extra, tag, v)));
  }

  lemma SpeedBack(c: Condition, e: Extra, rest: seq<Byte>, now: int)
    requires c.extra.Speed? && e.Speed?
    ensures Unserialize(c, WriteExtra(e, rest), now) == Unserialize(c.(extra := e), rest, now)
  {
    Words(e.speedDelta, 0, 0);
    var r4 := Field(FORMULA_MAXB, e.maxb, 4, rest);
    var r3 := Field(FORMULA_MAXA, e.maxa, 4, r4);
    var r2 := Field(FORMULA_MINB, e.minb, 4, r3);
    var c1 := c.(extra := c.extra.(speedDelta := e.speedDelta));
    SpeedStep(c, SPEED_DELTA, Unsigned32(e.speedDelta), Field(FORMULA_MINA, e.mina, 4, r2), now);
    SpeedFormula(c1, e, rest, now);
  }

  lemma SpeedFormula(c: Condition, e: Extra, rest: seq<Byte>, now: int)
    requires c.extra.Speed? && e.Speed? && c.extra.speedDelta == e.speedDelta
    ensures Unserialize(c, Field(FORMULA_MINA, e.mina, 4, Field(FORMULA_MINB, e.minb, 4,
                           Field(FORMULA_MAXA, e.maxa, 4, Field(FORMULA_MAXB, e.maxb, 4, rest)))), now)
         == Unserialize(c.(extra := e), rest, now)
  {
    var r4 := Field(FORMULA_MAXB, e.maxb, 4, rest);
    var r3 := Field(FORMULA_MAXA, e.maxa, 4, r4);
    SpeedStep(c, FORMULA_MINA, e.mina, Field(FORMULA_MINB, e.minb, 4, r3), now);
    var c1 := c.(extra := c.extra.(mina := e.mina));
    SpeedStep(c1, FORMULA_MINB, e.minb, r3, now);
    var c2 := c1.(extra := c1.extra.(minb := e.minb));
    SpeedStep(c2, FORMULA_MAXA, e.maxa, r4, now);
    var c3 := c2.(extra := c2.extra.(maxa := e.maxa));
    SpeedStep(c3, FORMULA_MAXB, e.maxb, rest, now);
    assert c.(extra := e) == c3.(extra := c3.extra.(maxb := e.maxb));
  }

  ghost function AddAll(c: Condition, list: seq<Interval>, now: int): (r: Condition)
    requires c.extra.Damage?
    ensures r.extra.Damage?
    decreases list
  {
    if list == [] then c else AddAll(AddInterval(c, list[0], now), list[1..], now)
  }

  lemma IntervalWords(i: Interval)
    ensures Value(IntervalBytes(i)[..4]) == Unsigned32(i.timeLeft) &&
            Value(IntervalBytes(i)[4..8]) == Unsigned32(i.value)
    ensures Value(IntervalBytes(i)[8..12]) == Unsigned32(i.interval)
  {
    Widths();
    var a, b, d := Bytes(Unsigned32(i.timeLeft), 4), Bytes(Unsigned32(i.value), 4), Bytes(Unsigned32(i.interval), 4);
    Slices(a, b, d);
    ValueBytes(Unsigned32(i.timeLeft), 4);
    ValueBytes(Unsigned32(i.value), 4);
    ValueBytes(Unsigned32(i.interval), 4);
  }

  lemma Slices(a: seq<Byte>, b: seq<Byte>, d: seq<Byte>)
    requires |a| == |b| == |d| == 4
    ensures (a + b + d)[..4] == a && (a + b + d)[4..8] == b && (a + b + d)[8..12] == d
  {
  }

  lemma IntervalRead(c: Condition, i: Interval, rest: seq<Byte>, now: int)
    requires c.extra.Damage?
    ensures Prop(c, INTERVAL_DATA, IntervalBytes(i) + rest, now) == Some((AddInterval(c, i, now), rest))
  {
    var s, b := IntervalBytes(i) + rest, IntervalBytes(i);
    IntervalWords(i);
    Words(i.timeLeft, 0, 0);
    Words(i.value, 0, 0);
    Words(i.interval, 0, 0);
    assert s[..4] == b[..4] && s[4..8] == b[4..8] && s[8..12] == b[8..12] && s[12..] == rest;
  }

  lemma OneInterval(c: Condition, i: Interval, rest: seq<Byte>, now: int)
    requires c.extra.Damage?
    ensures Unserialize(c, [INTERVAL_DATA] + IntervalBytes(i) + rest, now) ==
            Unserialize(AddInterval(c, i, now), rest, now)
  {
    var s := [INTERVAL_DATA] + IntervalBytes(i) + rest;
    IntervalRead(c, i, rest, now);
    assert s[0] == INTERVAL_DATA && s[1..] == IntervalBytes(i) + rest;
  }

  lemma {:induction false} IntervalsBack(c: Condition, list: seq<Interval>, rest: seq<Byte>, now: int)
    requires c.extra.Damage?
    ensures Unserialize(c, WriteIntervals(list, rest), now) == Unserialize(AddAll(c, list, now), rest, now)
    decreases list
  {
    if list != [] {
      OneInterval(c, list[0], WriteIntervals(list[1..], rest), now);
      IntervalsBack(AddInterval(c, list[0], now), list[1..], rest, now);
    }
  }

  lemma WrapSum(a: int, b: int)
    ensures Signed32(Signed32(a) + b) == Signed32(a + b)
  {
  }

  /** The condition after the hits of a list have been read. */
  ghost function WithHits(c: Condition, list: seq<Interval>, now: int): (r: Condition)
    requires c.extra.Damage?
  {
    c.(extra := c.extra.(damageList := list), ticks := Running(list),
       endTime := if list == [] then c.endTime else Signed64(Running(list) + now))
  }

  /** At -1 nothing changes but the list: the end time is already the one of -1. */
  lemma OneMoreHit(c: Condition, list: seq<Interval>, i: Interval, now: int)
    requires c.extra.Damage?
    ensures AddInterval(WithHits(c, list, now), i, now) == WithHits(c, list + [i], now)
  {
    assert (list + [i])[..|list|] == list;
  }

  lemma {:induction false} AddAllExact(c: Condition, list: seq<Interval>, now: int)
    requires c.extra.Damage? && c.extra.damageList == [] && c.ticks == 0
    ensures AddAll(c, list, now) == WithHits(c, list, now)
    decreases |list|
  {
    if list == [] {
      NoHits(c, now);
    } else {
      var front, last := list[..|list| - 1], list[|list| - 1];
      assert list == front + [last];
      AddAllSnoc(c, front, last, now);
      AddAllExact(c, front, now);
      OneMoreHit(c, front, last, now);
    }
  }

  lemma NoHits(c: Condition, now: int)
    requires c.extra.Damage? && c.extra.damageList == [] && c.ticks == 0
    ensures WithHits(c, [], now) == c
  {
  }

  /** Unless a partial sum is -1, what was summed up is the total in 32 bits. */
  lemma {:induction false} RunningTotal(list: seq<Interval>)
    ensures Running(list) == if NeverEndless(list) then Signed32(TotalInterval(list)) else -1
    decreases |list|
  {
    if list != [] {
      var front := list[..|list| - 1];
      RunningTotal(front);
      WrapSum(TotalInterval(front), list[|list| - 1].interval);
      assert forall k :: 0 <= k <= |front| ==> front[..k] == list[..k];
      assert front[..|front|] == front;
      assert NeverEndless(list) <==> NeverEndless(front) && Signed32(TotalInterval(front)) != -1;
    }
  }

  lemma {:induction false} AddAllSnoc(c: Condition, list: seq<Interval>, i: Interval, now: int)
    requires c.extra.Damage?
    ensures AddAll(c, list + [i], now) == AddInterval(AddAll(c, list, now), i, now)
    decreases list
  {
    if list == [] {
      assert (list + [i])[1..] == [];
      assert list + [i] == [i];
    } else {
      assert (list + [i])[1..] == list[1..] + [i];
      AddAllSnoc(AddInterval(c, list[0], now), list[1..], i, now);
    }
  }

  /** No partial sum is -1, the value that stands for "endless". */
  ghost predicate NeverEndless(list: seq<Interval>) {
    forall k :: 0 <= k < |list| ==> Signed32(TotalInterval(list[..k])) != -1
  }

  /** Lists with intervals that are not negative and add up to a 32-bit number have no such sum. */
  lemma {:induction false} OrdinaryNeverEndless(list: seq<Interval>, k: nat)
    requires (forall i :: 0 <= i < |list| ==> list[i].interval >= 0) && TotalInterval(list) < 0x8000_0000 && k <= |list|
    ensures 0 <= TotalInterval(list[..k]) <= TotalInterval(list)
    ensures Signed32(TotalInterval(list[..k])) != -1
    decreases |list|
  {
    if list == [] {
      assert list[..k] == [];
    } else if k == |list| {
      OrdinaryNeverEndless(list[..k - 1], k - 1);
      assert list[..k] == list && list[..k - 1][..k - 1] == list[..k - 1];
    } else {
      OrdinaryNeverEndless(list[..|list| - 1], k);
      assert list[..|list| - 1][..k] == list[..k];
    }
  }

  lemma DamageScalars(c: Condition, e: Extra, rest: seq<Byte>, now: int)
    requires c.extra == Damage(false, 0, []) && e.Damage?
    ensures Unserialize(c, Field(DELAYED, Flag(e.delayed), 1,
            Field(PERIOD_DAMAGE, Unsigned32(e.periodDamage), 4, rest)), now)
         == Unserialize(c.(extra := Damage(e.delayed, e.periodDamage, [])), rest, now)
  {
    Widths();
    Words(e.periodDamage, 0, 0);
    var r1 := Field(PERIOD_DAMAGE, Unsigned32(e.periodDamage), 4, rest);
    var c1 := c.(extra := Damage(e.delayed, 0, []));
    ReadBytes(Flag(e.delayed), 1, r1);
    ReadOn(c, DELAYED, Flag(e.delayed), 1, r1, now, c1);
    ReadBytes(Unsigned32(e.periodDamage), 4, rest);
    ReadOn(c1, PERIOD_DAMAGE, Unsigned32(e.periodDamage), 4, rest, now,
        c.(extra := Damage(e.delayed, e.periodDamage, [])));
  }

  lemma DamageBack(c: Condition, e: Extra, rest: seq<Byte>, now: int)
    requires c.extra == Damage(false, 0, []) && e.Damage? && c.ticks == 0
    ensures Unserialize(c, WriteExtra(e, rest), now)
         == Unserialize(WithHits(c.(extra := Damage(e.delayed, e.periodDamage, [])), e.damageList, now), rest, now)
  {
    var c2 := c.(extra := Damage(e.delayed, e.periodDamage, []));
    AddAllExact(c2, e.damageList, now);
    IntervalsBack(c2, e.damageList, rest, now);
    DamageScalars(c, e, WriteIntervals(e.damageList, rest), now);
  }

  lemma StopAtEnd(c: Condition, rest: seq<Byte>, now: int)
    ensures Unserialize(c, [END] + rest, now) == Parsed(true, c, rest)
  {
    var s := [END] + rest;
    assert s[0] == END && s[1..] == rest;
  }

  lemma LookMoves(l: Look)
    ensures LookRead(LookBytes(l)) == Shifted(l)
  {
    assert Power256(2) == 0x1_0000;
    var s := LookBytes(l);
    ValueBytes(l.kind, 2);
    ValueBytes(l.item, 2);
    ValueBytes(l.mount, 2);
    assert s[..2] == Bytes(l.kind, 2) && s[2..4] == Bytes(l.item, 2) && s[4..6] == Bytes(l.mount, 2);
    assert s[6..8] == [l.head, l.body] && [l.head, l.body][1..] == [l.body] && [l.body][1..] == [];
    assert Value([l.body]) == l.body;
  }

  lemma OutfitBack(c: Condition, e: Extra, rest: seq<Byte>, now: int)
    requires c.extra.Outfit? && e.Outfit?
    ensures Unserialize(c, WriteExtra(e, rest), now) == Unserialize(c.(extra := Outfit(Shifted(e.look))), rest, now)
  {
    var t := LookBytes(e.look) + rest;
    assert WriteExtra(e, rest)[0] == OUTFIT && WriteExtra(e, rest)[1..] == t;
    assert t[..14] == LookBytes(e.look) && t[14..] == rest;
    LookMoves(e.look);
    assert Prop(c, OUTFIT, t, now) == Some((c.(extra := Outfit(Shifted(e.look))), rest));
  }

  /** The class's own part turns the fresh object into the restored condition. */
  lemma ExtraBack(c: Condition, rest: seq<Byte>, now: int)
    requires WellFormed(c) && !c.extra.Light?
    ensures Unserialize(Fresh(c), WriteExtra(c.extra, rest), now) == Unserialize(Restored(c, now), rest, now)
  {
    var n := Fresh(c);
    match c.extra {
      case Generic =>
      case Regeneration(_, _, _, _, _, _) =>
        RegenerationBack(n, c.extra, rest, now);
        assert n.(extra := c.extra) == Restored(c, now);
      case Soul(_, _) =>
        SoulBack(n, c.extra, rest, now);
        assert n.(extra := c.extra) == Restored(c, now);
      case Speed(_, _, _, _, _) =>
        SpeedBack(n, c.extra, rest, now);
        assert n.(extra := c.extra) == Restored(c, now);
      case Damage(_, _, _) => DamageRestored(c, rest, now);
      case Outfit(_) =>
        OutfitBack(n, c.extra, rest, now);
        assert n.(extra := Outfit(Shifted(c.extra.look))) == Restored(c, now);
    }
  }

  lemma DamageRestored(c: Condition, rest: seq<Byte>, now: int)
    requires WellFormed(c) && c.extra.Damage?
    ensures Unserialize(Fresh(c), WriteExtra(c.extra, rest), now) == Unserialize(Restored(c, now), rest, now)
  {
    var n := Fresh(c);
    assert n.ticks == 0 && n.extra == Damage(false, 0, []);
    DamageBack(n, c.extra, rest, now);
    assert WithHits(n.(extra := Damage(c.extra.delayed, c.extra.periodDamage, [])), c.extra.damageList, now) ==
           Restored(c, now);
  }

  /** Main result on one condition: loading what was saved gives the restored condition and stops right behind it. */
  lemma RoundTrip(c: Condition, rest: seq<Byte>, now: int)
    requires WellFormed(c) && !c.extra.Light?
    ensures Create(Write(c, rest)) == Some((Fresh(c), WriteExtra(c.extra, [END] + rest)))
    ensures Unserialize(Fresh(c), WriteExtra(c.extra, [END] + rest), now) == Parsed(true, Restored(c, now), rest)
  {
    CreateWritten(c, WriteExtra(c.extra, [END] + rest));
    ExtraBack(c, [END] + rest, now);
    StopAtEnd(Restored(c, now), rest, now);
  }

  /** The condition a load makes of the saved bytes, whatever follows them. */
  ghost function Loaded(c: Condition, rest: seq<Byte>, now: int): (r: Condition)
    requires WellFormed(c)
  {
    Unserialize(Fresh(c), WriteExtra(c.extra, [END] + rest), now).c
  }

  lemma LoadedIsRestored(c: Condition, rest: seq<Byte>, now: int)
    requires WellFormed(c) && !c.extra.Light?
    ensures Loaded(c, rest, now) == Restored(c, now)
  {
    RoundTrip(c, rest, now);
  }

  /** Kind, id, flags, subId and, except for an outfit, the class's own fields are loaded as they were saved. */
  lemma FieldsKept(c: Condition, rest: seq<Byte>, now: int)
    requires WellFormed(c) && !c.extra.Light?
    ensures var r := Loaded(c, rest, now);
            && r == c.(ticks := r.ticks, endTime := r.endTime, extra := r.extra)
            && (!c.extra.Outfit? ==> r.extra == c.extra)
            && (!c.extra.Damage? ==> r.ticks == c.ticks && (c.constant ==> r.endTime == c.endTime))
  {
    LoadedIsRestored(c, rest, now);
  }

  lemma ShiftedIff(l: Look)
    ensures Shifted(l) == l <==> l.familiar == l.head == l.body == l.legs == l.feet == l.addons == 0
  {
  }

  /** An outfit is loaded as it was saved exactly when it has no colors, addons or familiar. */
  lemma OutfitKeptIff(c: Condition, rest: seq<Byte>, now: int)
    requires WellFormed(c) && c.extra.Outfit?
    ensures var l := c.extra.look;
            Loaded(c, rest, now).extra == c.extra <==>
            l.familiar == l.head == l.body == l.legs == l.feet == l.addons == 0
  {
    LoadedIsRestored(c, rest, now);
    ShiftedIff(c.extra.look);
  }

  /**
   The loaded ticks of a damage condition are the sum of its intervals, in 32 bits, exactly when no
   proper partial sum is -1, or the whole sum is -1 as well.
   */
  lemma DamageTicksIff(c: Condition, rest: seq<Byte>, now: int)
    requires WellFormed(c) && c.extra.Damage?
    ensures var list := c.extra.damageList;
            Loaded(c, rest, now).ticks == Signed32(TotalInterval(list)) <==>
            NeverEndless(list) || Signed32(TotalInterval(list)) == -1
  {
    LoadedIsRestored(c, rest, now);
    RunningTotal(c.extra.damageList);
  }

  /**
   A constant damage condition does not get its saved end time back unless it has no pending hits:
   reading a hit sets the end time anew.
   */
  lemma EndTimeKeptIff(c: Condition, rest: seq<Byte>, now: int)
    requires WellFormed(c) && !c.extra.Light? && c.constant
    ensures Loaded(c, rest, now).endTime == c.endTime <==>
            !c.extra.Damage? || c.extra.damageList == [] || c.endTime == Signed64(Running(c.extra.damageList) + now)
  {
    LoadedIsRestored(c, rest, now);
  }

  // ---- Concrete conditions that come back changed ----

  /** Fire with two hits left, two seconds each, that was to end at 4000. */
  const BURNING := Condition(2, -1, 4000, false, 0, true, true, 4000,
      Damage(false, 0, [Interval(2000, -10, 2000), Interval(2000, -10, 2000)]))

  lemma BurningRestored()
    ensures WellFormed(BURNING) && Restored(BURNING, 60_000) == BURNING.(endTime := 64_000)
  {
    var list := BURNING.extra.damageList;
    assert list[..1] == [Interval(2000, -10, 2000)] && list[..1][..0] == [];
    assert Running(list[..1]) == 2000 && Running(list) == 4000;
  }

  /** Loaded a minute later it ends a minute later. */
  lemma EndTimeChanges(rest: seq<Byte>)
    ensures WellFormed(BURNING)
    ensures Unserialize(Fresh(BURNING), WriteExtra(BURNING.extra, [END] + rest), 60_000) ==
            Parsed(true, BURNING.(endTime := 64_000), rest)
  {
    BurningRestored();
    RoundTrip(BURNING, rest, 60_000);
  }

  /** Hits in a save whose first interval is -1. */
  const STUCK := BURNING.(extra := Damage(false, 0, [Interval(1000, -10, -1), Interval(1000, -10, 1000)]))

  lemma StuckRestored()
    ensures WellFormed(STUCK) && Signed32(TotalInterval(STUCK.extra.damageList)) == 999 &&
            Restored(STUCK, 0).ticks == -1
  {
    var list := STUCK.extra.damageList;
    assert list[..1] == [Interval(1000, -10, -1)] && list[..1][..0] == [];
    assert Running(list[..1]) == -1 && TotalInterval(list[..1]) == -1;
  }

  /** They load as they are, but the ticks stay at -1, the mark of an endless condition, instead of 999. */
  lemma TicksStick(rest: seq<Byte>)
    ensures WellFormed(STUCK) && Signed32(TotalInterval(STUCK.extra.damageList)) == 999
    ensures var p := Unserialize(Fresh(STUCK), WriteExtra(STUCK.extra, [END] + rest), 0);
            p.ok && p.rest == rest && p.c.extra == STUCK.extra && p.c.ticks == -1
  {
    StuckRestored();
    RoundTrip(STUCK, rest, 0);
  }

  // ---- Lights ----

  lemma ColorRead(c: Condition, color: Byte, rest: seq<Byte>, now: int)
    requires c.extra.Light?
    ensures Unserialize(c, [LIGHT_COLOR, color] + rest, now) ==
            Unserialize(c.(extra := c.extra.(color := color)), rest, now)
  {
    var s := [LIGHT_COLOR, color] + rest;
    assert s[0] == LIGHT_COLOR && s[1..] == [color] + rest && ([color] + rest)[1..] == rest;
  }

  lemma ZeroTag(c: Condition, rest: seq<Byte>, now: int)
    requires c.extra.Light?
    ensures Unserialize(c, [0] + rest, now) == Parsed(false, c, rest)
  {
    assert ([0] + rest)[0] == 0 && ([0] + rest)[1..] == rest;
  }

  /** The second byte of the color word is taken for a tag, which no class knows. */
  lemma LightFails(c: Condition, rest: seq<Byte>, now: int)
    requires WellFormed(c) && c.extra.Light?
    ensures var p := Unserialize(Fresh(c), WriteExtra(c.extra, rest), now);
            !p.ok && |p.rest| >= 2 && p.rest[0] == 0
  {
    var e := c.extra;
    var after := Field(LIGHT_LEVEL, e.level, 4,
        Field(LIGHT_TICKS, e.lightTicks, 4, Field(LIGHT_INTERVAL, e.lightInterval, 4, rest)));
    ColorBytes(e.color);
    assert WriteExtra(e, rest) == [LIGHT_COLOR, e.color] + ([0] + ([0, 0] + after));
    var n := Fresh(c);
    ColorRead(n, e.color, [0] + ([0, 0] + after), now);
    ZeroTag(n.(extra := n.extra.(color := e.color)), [0, 0] + after, now);
  }

  lemma ColorBytes(color: Byte)
    ensures Bytes(color, 4) == [color, 0, 0, 0]
  {
    assert Bytes(0, 1) == [0] && Bytes(0, 2) == [0, 0] && Bytes(0, 3) == [0, 0, 0];
  }

  // ---- A player's whole list ----

  /** The conditions of a player in order, each with its END byte. */
  function SaveAll(list: seq<Condition>): (s: seq<Byte>) {
    if list == [] then [] else Write(list[0], SaveAll(list[1..]))
  }

  lemma ReadShrinks(s: seq<Byte>)
    ensures Create(s).Some? ==> |Create(s).value.1| < |s|
  {
  }

  lemma {:induction false} UnserializeShrinks(c: Condition, s: seq<Byte>, now: int)
    ensures |Unserialize(c, s, now).rest| <= |s|
    decreases |s|
  {
    if s != [] && s[0] != END {
      var p := Prop(c, s[0], s[1..], now);
      PropShrinks(c, s[0], s[1..], now);
      if p.Some? {
        UnserializeShrinks(p.value.0, p.value.1, now);
      }
    }
  }

  /** The loading loop: every condition that parses goes to the front of the list. */
  function LoadAll(s: seq<Byte>, now: int, loaded: seq<Condition>): (r: seq<Condition>)
    decreases |s|
  {
    var c := Create(s);
    if c.None? then loaded
    else
      ReadShrinks(s);
      UnserializeShrinks(c.value.0, c.value.1, now);
      var p := Unserialize(c.value.0, c.value.1, now);
      LoadAll(p.rest, now, if p.ok then [p.c] + loaded else loaded)
  }

  ghost function RestoredReversed(list: seq<Condition>, now: int): (r: seq<Condition>) {
    if list == [] then [] else RestoredReversed(list[1..], now) + [Restored(list[0], now)]
  }

  lemma LoadOne(c: Condition, rest: seq<Byte>, now: int, loaded: seq<Condition>)
    requires WellFormed(c) && !c.extra.Light?
    ensures LoadAll(Write(c, rest), now, loaded) == LoadAll(rest, now, [Restored(c, now)] + loaded)
  {
    RoundTrip(c, rest, now);
  }

  /** A light is dropped, and loading stops inside it. */
  lemma LoadStops(c: Condition, rest: seq<Byte>, now: int, loaded: seq<Condition>)
    requires WellFormed(c) && c.extra.Light?
    ensures LoadAll(Write(c, rest), now, loaded) == loaded
  {
    CreateWritten(c, WriteExtra(c.extra, [END] + rest));
    LightFails(c, [END] + rest, now);
    var p := Unserialize(Fresh(c), WriteExtra(c.extra, [END] + rest), now);
    assert Create(p.rest) == None;
  }

  /** The conditions in front of the first light. */
  function BeforeLight(list: seq<Condition>): (r: seq<Condition>) {
    if list == [] || list[0].extra.Light? then [] else [list[0]] + BeforeLight(list[1..])
  }

  lemma Regroup(a: seq<Condition>, c: Condition, b: seq<Condition>)
    ensures a + ([c] + b) == (a + [c]) + b
  {
  }

  /**
   Main result on lists: what stands in front of the first light condition is loaded, each condition
   restored, in reverse order; the light and everything behind it is lost.
   */
  lemma {:induction false} ListRoundTrip(list: seq<Condition>, now: int, loaded: seq<Condition>)
    requires forall c :: c in list ==> WellFormed(c)
    ensures LoadAll(SaveAll(list), now, loaded) == RestoredReversed(BeforeLight(list), now) + loaded
    decreases list
  {
    if list != [] {
      var c, rest := list[0], list[1..];
      if c.extra.Light? {
        LoadStops(c, SaveAll(rest), now, loaded);
      } else {
        var before := BeforeLight(rest);
        assert ([c] + before)[1..] == before;
        Regroup(RestoredReversed(before, now), Restored(c, now), loaded);
        ListRoundTrip(rest, now, [Restored(c, now)] + loaded);
        LoadOne(c, SaveAll(rest), now, loaded);
      }
    }
  }

  lemma {:induction false} ReversedLength(list: seq<Condition>, now: int)
    ensures |RestoredReversed(list, now)| == |list|
  {
    if list != [] {
      ReversedLength(list[1..], now);
    }
  }

  lemma {:induction false} BeforeLightIff(list: seq<Condition>)
    ensures |BeforeLight(list)| <= |list|
    ensures |BeforeLight(list)| == |list| <==> forall c :: c in list ==> !c.extra.Light?
    ensures BeforeLight(list) <= list
  {
    if list != [] {
      BeforeLightIff(list[1..]);
      assert list == [list[0]] + list[1..];
    }
  }

  /** A saved list loads completely, every condition restored, exactly when it holds no light. */
  lemma ListCompleteIff(list: seq<Condition>, now: int)
    requires forall c :: c in list ==> WellFormed(c)
    ensures LoadAll(SaveAll(list), now, []) == RestoredReversed(list, now) <==> forall c :: c in list ==>
            !c.extra.Light?
  {
    ListRoundTrip(list, now, []);
    var before := BeforeLight(list);
    assert RestoredReversed(before, now) + [] == RestoredReversed(before, now);
    BeforeLightIff(list);
    SameWhenAsLong(before, list, now);
  }

  lemma SameWhenAsLong(before: seq<Condition>, list: seq<Condition>, now: int)
    requires before <= list
    ensures RestoredReversed(before, now) == RestoredReversed(list, now) <==> |before| == |list|
  {
    ReversedLength(list, now);
    ReversedLength(before, now);
    assert |before| == |list| ==> before == list;
  }

  lemma LightFirst(light: Condition, list: seq<Condition>, now: int)
    requires WellFormed(light) && light.extra.Light?
    ensures LoadAll(SaveAll([light] + list), now, []) == []
  {
    assert ([light] + list)[1..] == list;
    LoadStops(light, SaveAll(list), now, []);
  }

  lemma LoadSingle(c: Condition, now: int)
    requires WellFormed(c) && !c.extra.Light?
    ensures LoadAll(SaveAll([c]), now, []) == [Restored(c, now)]
  {
    assert [c][1..] == [] && SaveAll([c]) == Write(c, []);
    LoadOne(c, [], now, []);
    assert [Restored(c, now)] + [] == [Restored(c, now)];
  }

  lemma LightKind(c: Condition)
    requires c.kind == 256 && c.extra.Light?
    ensures WellFormed(c)
  {
    OneBitPower(8);
    assert PowerOfTwo(8) == 256;
  }

  lemma OutfitKind(c: Condition)
    requires c.kind == 64 && c.extra.Outfit?
    ensures WellFormed(c)
  {
    OneBitPower(6);
    assert PowerOfTwo(6) == 64;
  }

  /** A light in front of a burning condition: neither is loaded. */
  lemma LightLosesTheRest(light: Condition)
    requires light == Condition(256, -1, 60_000, false, 0, false, false, 0, Light(215, 6, 0, 0))
    ensures WellFormed(light) && WellFormed(BURNING) && LoadAll(SaveAll([light] + [BURNING]), 0, []) == []
  {
    LightKind(light);
    BurningRestored();
    LightFirst(light, [BURNING], 0);
  }

  /** An outfit with colors and addons: the colors move up, and two of them become the familiar. */
  lemma OutfitShifts(c: Condition)
    requires c == Condition(64, 0, 60_000, false, 0, false, false, 0, Outfit(Look(128, 0, 0, 0, 10, 20, 30, 40, 3)))
    ensures WellFormed(c)
    ensures LoadAll(SaveAll([c]), 0, []) == [c.(extra := Outfit(Look(128, 0, 0, 5130, 30, 40, 3, 0, 0)))]
  {
    OutfitKind(c);
    LoadSingle(c, 0);
  }
}
