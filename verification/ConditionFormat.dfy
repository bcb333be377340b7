/** The format of a saved condition (src/condition.cpp, src/condition.h), spelled out with its tags and widths. */
module ConditionFormat {
  import opened Basics
  import opened PropStreams
  import opened ConditionCodec

  /** A field is its tag, its bytes, lowest first, and what follows. */
  lemma FieldBytes(tag: Byte, v: nat, k: nat, rest: seq<Byte>, i: nat)
    requires i < k
    ensures var s := Field(tag, v, k, rest);
            |s| == 1 + k + |rest| && s[0] == tag && s[1 + i] == v / Power256(i) % 256 && s[1 + k..] == rest
  {
    LittleEndian(v, k, i);
  }

  /** A 32-bit word, a negative one as two's complement. */
  function Word(tag: Byte, x: int, rest: seq<Byte>): (s: seq<Byte>) { Field(tag, x % 0x1_0000_0000, 4, rest) }

  function Bit(tag: Byte, b: bool, rest: seq<Byte>): (s: seq<Byte>) { Field(tag, if b then 1 else 0, 1, rest) }

  /** What each class writes behind the header. */
  function ClassBytes(e: Extra, rest: seq<Byte>): (s: seq<Byte>) {
    match e
    case Generic => rest
    case Regeneration(ht, hg, hp, mt, mg, mp) =>
      Word(4, ht, Word(5, hg, Word(32, hp, Word(6, mt, Word(7, mg, Word(33, mp, rest))))))
    case Soul(gain, ticks) => Word(21, gain, Word(20, ticks, rest))
    case Speed(delta, mina, minb, maxa, maxb) =>
      Word(11, delta, Word(12, mina, Word(13, minb, Word(14, maxa, Word(15, maxb, rest)))))
    case Damage(delayed, period, list) => Bit(8, delayed, Word(25, period, HitBytes(list, rest)))
    case Light(color, level, ticks, interval) =>
      Word(16, color, Word(17, level, Word(18, ticks, Word(19, interval, rest))))
    case Outfit(l) =>
      [24] + (Bytes(l.kind, 2) + Bytes(l.item, 2) + Bytes(l.mount, 2)
              + [l.head, l.body, l.legs, l.feet, l.addons, 0, 0, 0]) + rest
  }

  /** The hits of a damage condition: time left, value and interval each. */
  function HitBytes(list: seq<Interval>, rest: seq<Byte>): (s: seq<Byte>) {
    if list == [] then rest
    else
      var i := list[0];
      [10] + (Bytes(i.timeLeft % 0x1_0000_0000, 4) + Bytes(i.value % 0x1_0000_0000, 4)
              + Bytes(i.interval % 0x1_0000_0000, 4)) + HitBytes(list[1..], rest)
  }

  lemma {:induction false} HitsWritten(list: seq<Interval>, rest: seq<Byte>)
    ensures WriteIntervals(list, rest) == HitBytes(list, rest)
  {
    if list != [] {
      HitsWritten(list[1..], rest);
    }
  }

  /** The end time, of a constant condition only. */
  function EndTime(c: Condition, rest: seq<Byte>): (s: seq<Byte>) {
    if c.constant then Field(35, c.endTime % 0x1_0000_0000_0000_0000, 8, rest) else rest
  }

  /** Type (in eight bytes only where four do not do), id, ticks, buff, sub id, aggressive and constant. */
  function HeaderBytes(c: Condition, rest: seq<Byte>): (s: seq<Byte>) {
    var base := Word(2, c.id, Word(3, c.ticks, Bit(26, c.isBuff,
                Word(27, c.subId, Bit(28, c.aggressive, Bit(34, c.constant, EndTime(c, rest)))))));
    if c.kind < 0x1_0000_0000 then Field(1, c.kind, 4, base) else Field(36, c.kind, 8, base)
  }

  lemma WordWritten(tag: Byte, x: int, rest: seq<Byte>)
    ensures Field(tag, Unsigned32(x), 4, rest) == Word(tag, x, rest)
  {
  }

  lemma BitWritten(tag: Byte, b: bool, rest: seq<Byte>)
    ensures Field(tag, Flag(b), 1, rest) == Bit(tag, b, rest)
  {
  }

  lemma FlagsWritten(c: Condition, rest: seq<Byte>)
    ensures WriteFlags(c, rest) == Word(27, c.subId, Bit(28, c.aggressive, Bit(34, c.constant, EndTime(c, rest))))
  {
    BitWritten(34, c.constant, EndTime(c, rest));
    BitWritten(28, c.aggressive, WriteConstant(c, rest));
    WordWritten(27, c.subId, Bit(28, c.aggressive, WriteConstant(c, rest)));
  }

  lemma HeaderWritten(c: Condition, rest: seq<Byte>)
    ensures WriteHeader(c, rest) == HeaderBytes(c, rest)
  {
    FlagsWritten(c, rest);
    var flags := WriteFlags(c, rest);
    BitWritten(26, c.isBuff, flags);
    WordWritten(3, c.ticks, Bit(26, c.isBuff, flags));
    WordWritten(2, c.id, Word(3, c.ticks, Bit(26, c.isBuff, flags)));
  }

  lemma ThreeWritten(
      a: Byte, x: U32, b: Byte, y: U32, c: Byte, z: U32, rest: seq<Byte>, fields: seq<Byte>, words: seq<Byte>)
    requires fields == Field(a, x, 4, Field(b, y, 4, Field(c, z, 4, rest)))
    requires words == Word(a, x, Word(b, y, Word(c, z, rest)))
    ensures fields == words
  {
    var last := Word(c, z, rest);
    OneWritten(c, z, rest, Field(c, z, 4, rest), last);
    TwoWritten(a, x, x, b, y, last, fields, words);
  }

  lemma OneWritten(a: Byte, x: U32, rest: seq<Byte>, fields: seq<Byte>, words: seq<Byte>)
    requires fields == Field(a, x, 4, rest) && words == Word(a, x, rest)
    ensures fields == words
  {
  }

  lemma TwoWritten(
      a: Byte, x: int, w: U32, b: Byte, y: U32, rest: seq<Byte>, fields: seq<Byte>, words: seq<Byte>)
    requires w == x % 0x1_0000_0000
    requires fields == Field(a, w, 4, Field(b, y, 4, rest)) && words == Word(a, x, Word(b, y, rest))
    ensures fields == words
  {
  }

  lemma RegenerationWritten(e: Extra, rest: seq<Byte>)
    requires e.Regeneration?
    ensures WriteExtra(e, rest) == ClassBytes(e, rest)
  {
    var mana := Word(6, e.manaTicks, Word(7, e.manaGain, Word(33, e.manaGainPercent, rest)));
    ThreeWritten(6, e.manaTicks, 7, e.manaGain, 33, e.manaGainPercent, rest,
                 Field(6, e.manaTicks, 4, Field(7, e.manaGain, 4, Field(33, e.manaGainPercent, 4, rest))), mana);
    ThreeWritten(4, e.healthTicks, 5, e.healthGain, 32, e.healthGainPercent, mana,
                 WriteExtra(e, rest), ClassBytes(e, rest));
  }

  lemma SpeedWritten(e: Extra, rest: seq<Byte>)
    requires e.Speed?
    ensures WriteExtra(e, rest) == ClassBytes(e, rest)
  {
    var last := Word(13, e.minb, Word(14, e.maxa, Word(15, e.maxb, rest)));
    ThreeWritten(13, e.minb, 14, e.maxa, 15, e.maxb, rest,
                 Field(13, e.minb, 4, Field(14, e.maxa, 4, Field(15, e.maxb, 4, rest))), last);
    TwoWritten(11, e.speedDelta, Unsigned32(e.speedDelta), 12, e.mina, last, WriteExtra(e, rest), ClassBytes(e, rest));
  }

  lemma LightWritten(e: Extra, rest: seq<Byte>)
    requires e.Light?
    ensures WriteExtra(e, rest) == ClassBytes(e, rest)
  {
    var last := Word(18, e.lightTicks, Word(19, e.lightInterval, rest));
    TwoWritten(18, e.lightTicks, e.lightTicks, 19, e.lightInterval, rest,
               Field(18, e.lightTicks, 4, Field(19, e.lightInterval, 4, rest)), last);
    TwoWritten(16, e.color, e.color, 17, e.level, last, WriteExtra(e, rest), ClassBytes(e, rest));
  }

  lemma DamageWritten(e: Extra, rest: seq<Byte>)
    requires e.Damage?
    ensures WriteExtra(e, rest) == ClassBytes(e, rest)
  {
    HitsWritten(e.damageList, rest);
  }

  lemma ClassWritten(e: Extra, rest: seq<Byte>)
    ensures WriteExtra(e, rest) == ClassBytes(e, rest)
  {
    match e {
      case Regeneration(_, _, _, _, _, _) => RegenerationWritten(e, rest);
      case Speed(_, _, _, _, _) => SpeedWritten(e, rest);
      case Light(_, _, _, _) => LightWritten(e, rest);
      case Damage(_, _, _) => DamageWritten(e, rest);
      case _ =>
    }
  }

  /** A saved condition: its header, what its class adds, and the end byte. */
  lemma SavedBytes(c: Condition, rest: seq<Byte>)
    ensures Write(c, rest) == HeaderBytes(c, ClassBytes(c.extra, [254] + rest))
  {
    ClassWritten(c.extra, [254] + rest);
    HeaderWritten(c, ClassBytes(c.extra, [254] + rest));
  }
}
