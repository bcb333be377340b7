/**
 Saving and loading conditions through the stream objects (src/condition.cpp, src/iologindata.cpp),
 proved against the functions of `ConditionCodec`.

 The methods that write take, as a ghost, whatever is going to be appended later.
 */
module ConditionStreams {
  import opened Basics
  import opened PropStreams
  import opened ConditionCodec

  // ---- Writing ----

  lemma OneByte(tag: Byte)
    ensures Bytes(tag, 1) == [tag]
  {
    assert Bytes(tag / 256, 0) == [];
  }

  method WriteField(out: PropWriteStream, tag: Byte, v: nat, k: nat)
    modifies out
    ensures out.buffer == old(out.buffer) + [tag] + Bytes(v, k)
    ensures forall rest :: out.buffer + rest == old(out.buffer) + Field(tag, v, k, rest)
  {
    ghost var before := out.buffer;
    OneByte(tag);
    out.Write(tag, 1);
    out.Write(v, k);
    forall rest ensures out.buffer + rest == before + Field(tag, v, k, rest) {
      Regrouped(before, [tag], Bytes(v, k), rest);
    }
  }

  lemma Regrouped(a: seq<Byte>, b: seq<Byte>, c: seq<Byte>, d: seq<Byte>)
    ensures a + b + c + d == a + (b + c + d)
  {
  }

  lemma Joined(a: seq<Byte>, b: seq<Byte>, c: seq<Byte>)
    ensures a + b + c == a + (b + c)
  {
  }

  /** Condition::serialize. */
  method SerializeBase(c: Condition, out: PropWriteStream, ghost rest: seq<Byte>)
    modifies out
    ensures out.buffer + rest == old(out.buffer) + WriteHeader(c, rest)
  {
    if c.kind >= 0x1_0000_0000 {
      WriteField(out, TYPE64, c.kind, 8);
    } else {
      WriteField(out, TYPE, c.kind, 4);
    }
    assert out.buffer + WriteBase(c, rest) == old(out.buffer) + WriteHeader(c, rest);
    WriteField(out, ID, Unsigned32(c.id), 4);
    WriteField(out, TICKS, Unsigned32(c.ticks), 4);
    WriteField(out, IS_BUFF, Flag(c.isBuff), 1);
    assert out.buffer + WriteFlags(c, rest) == old(out.buffer) + WriteHeader(c, rest);
    SerializeFlags(c, out, rest);
  }

  method SerializeFlags(c: Condition, out: PropWriteStream, ghost rest: seq<Byte>)
    modifies out
    ensures out.buffer + rest == old(out.buffer) + WriteFlags(c, rest)
  {
    WriteField(out, SUB_ID, c.subId, 4);
    WriteField(out, IS_AGGRESSIVE, Flag(c.aggressive), 1);
    assert out.buffer + WriteConstant(c, rest) == old(out.buffer) + WriteFlags(c, rest);
    WriteField(out, CONSTANT, Flag(c.constant), 1);
    if c.constant {
      WriteField(out, END_TIME, Unsigned64(c.endTime), 8);
    }
  }

  method SerializeRegeneration(e: Extra, out: PropWriteStream, ghost rest: seq<Byte>)
    requires e.Regeneration?
    modifies out
    ensures out.buffer + rest == old(out.buffer) + WriteExtra(e, rest)
  {
    ghost var mana := Field(MANA_TICKS, e.manaTicks, 4,
        Field(MANA_GAIN, e.manaGain, 4, Field(MANA_GAIN_PERCENT, e.manaGainPercent, 4, rest)));
    WriteField(out, HEALTH_TICKS, e.healthTicks, 4);
    WriteField(out, HEALTH_GAIN, e.healthGain, 4);
    WriteField(out, HEALTH_GAIN_PERCENT, e.healthGainPercent, 4);
    assert out.buffer + mana == old(out.buffer) + WriteExtra(e, rest);
    WriteField(out, MANA_TICKS, e.manaTicks, 4);
    WriteField(out, MANA_GAIN, e.manaGain, 4);
    WriteField(out, MANA_GAIN_PERCENT, e.manaGainPercent, 4);
  }

  method SerializeSpeed(e: Extra, out: PropWriteStream, ghost rest: seq<Byte>)
    requires e.Speed?
    modifies out
    ensures out.buffer + rest == old(out.buffer) + WriteExtra(e, rest)
  {
    ghost var more := Field(FORMULA_MINB, e.minb, 4,
        Field(FORMULA_MAXA, e.maxa, 4, Field(FORMULA_MAXB, e.maxb, 4, rest)));
    WriteField(out, SPEED_DELTA, Unsigned32(e.speedDelta), 4);
    WriteField(out, FORMULA_MINA, e.mina, 4);
    assert out.buffer + more == old(out.buffer) + WriteExtra(e, rest);
    WriteField(out, FORMULA_MINB, e.minb, 4);
    WriteField(out, FORMULA_MAXA, e.maxa, 4);
    WriteField(out, FORMULA_MAXB, e.maxb, 4);
  }

  method SerializeDamage(e: Extra, out: PropWriteStream, ghost rest: seq<Byte>)
    requires e.Damage?
    modifies out
    ensures out.buffer + rest == old(out.buffer) + WriteExtra(e, rest)
  {
    WriteField(out, DELAYED, Flag(e.delayed), 1);
    WriteField(out, PERIOD_DAMAGE, Unsigned32(e.periodDamage), 4);
    assert out.buffer + WriteIntervals(e.damageList, rest) == old(out.buffer) + WriteExtra(e, rest);
    SerializeIntervals(e.damageList, out, rest);
  }

  method SerializeIntervals(list: seq<Interval>, out: PropWriteStream, ghost rest: seq<Byte>)
    modifies out
    ensures out.buffer + rest == old(out.buffer) + WriteIntervals(list, rest)
  {
    var i := 0;
    assert list[0..] == list;
    while i < |list|
      invariant 0 <= i <= |list|
      invariant out.buffer + WriteIntervals(list[i..], rest) == old(out.buffer) + WriteIntervals(list, rest)
    {
      assert list[i..][1..] == list[i + 1..];
      SerializeInterval(list[i], out, WriteIntervals(list[i + 1..], rest));
      i := i + 1;
    }
  }

  method SerializeInterval(i: Interval, out: PropWriteStream, ghost rest: seq<Byte>)
    modifies out
    ensures out.buffer + rest == old(out.buffer) + ([INTERVAL_DATA] + IntervalBytes(i) + rest)
  {
    ghost var before := out.buffer;
    OneByte(INTERVAL_DATA);
    out.Write(INTERVAL_DATA, 1);
    WriteInterval(i, out);
    Regrouped(before, [INTERVAL_DATA], IntervalBytes(i), rest);
  }

  /** write<IntervalInfo>. */
  method WriteInterval(i: Interval, out: PropWriteStream)
    modifies out
    ensures out.buffer == old(out.buffer) + IntervalBytes(i)
  {
    out.Write(Unsigned32(i.timeLeft), 4);
    out.Write(Unsigned32(i.value), 4);
    out.Write(Unsigned32(i.interval), 4);
    Regrouped(old(out.buffer), Bytes(Unsigned32(i.timeLeft), 4), Bytes(Unsigned32(i.value), 4),
        Bytes(Unsigned32(i.interval), 4));
  }

  method SerializeLight(e: Extra, out: PropWriteStream, ghost rest: seq<Byte>)
    requires e.Light?
    modifies out
    ensures out.buffer + rest == old(out.buffer) + WriteExtra(e, rest)
  {
    WriteField(out, LIGHT_COLOR, e.color, 4);
    WriteField(out, LIGHT_LEVEL, e.level, 4);
    assert out.buffer + Field(LIGHT_TICKS, e.lightTicks, 4, Field(LIGHT_INTERVAL, e.lightInterval, 4, rest)) ==
           old(out.buffer) + WriteExtra(e, rest);
    WriteField(out, LIGHT_TICKS, e.lightTicks, 4);
    WriteField(out, LIGHT_INTERVAL, e.lightInterval, 4);
  }

  method SerializeOutfit(l: Look, out: PropWriteStream, ghost rest: seq<Byte>)
    modifies out
    ensures out.buffer + rest == old(out.buffer) + WriteExtra(Outfit(l), rest)
  {
    ghost var before := out.buffer;
    OneByte(OUTFIT);
    out.Write(OUTFIT, 1);
    WriteLook(l, out);
    Regrouped(before, [OUTFIT], LookBytes(l), rest);
  }

  method WriteLook(l: Look, out: PropWriteStream)
    modifies out
    ensures out.buffer == old(out.buffer) + LookBytes(l)
  {
    ghost var before := out.buffer;
    out.Write(l.kind, 2);
    out.Write(l.item, 2);
    out.Write(l.mount, 2);
    Regrouped(before, Bytes(l.kind, 2), Bytes(l.item, 2), Bytes(l.mount, 2));
    ghost var words := Bytes(l.kind, 2) + Bytes(l.item, 2) + Bytes(l.mount, 2);
    var bytes := [l.head, l.body, l.legs, l.feet, l.addons, 0, 0, 0];
    var i := 0;
    while i < 8
      invariant 0 <= i <= 8
      invariant out.buffer == before + words + bytes[..i]
    {
      OneByte(bytes[i]);
      out.Write(bytes[i], 1);
      Joined(before + words, bytes[..i], [bytes[i]]);
      assert bytes[..i + 1] == bytes[..i] + [bytes[i]];
      i := i + 1;
    }
    assert bytes[..8] == bytes;
    Joined(before, words, bytes);
  }

  /** serialize of the condition's class. */
  method Serialize(c: Condition, out: PropWriteStream, ghost rest: seq<Byte>)
    modifies out
    ensures out.buffer + rest == old(out.buffer) + WriteHeader(c, WriteExtra(c.extra, rest))
  {
    SerializeBase(c, out, WriteExtra(c.extra, rest));
    match c.extra {
      case Generic =>
      case Regeneration(_, _, _, _, _, _) => SerializeRegeneration(c.extra, out, rest);
      case Soul(gain, ticks) =>
        WriteField(out, SOUL_GAIN, gain, 4);
        WriteField(out, SOUL_TICKS, ticks, 4);
      case Speed(_, _, _, _, _) => SerializeSpeed(c.extra, out, rest);
      case Damage(_, _, _) => SerializeDamage(c.extra, out, rest);
      case Light(_, _, _, _) => SerializeLight(c.extra, out, rest);
      case Outfit(look) => SerializeOutfit(look, out, rest);
    }
  }

  /** isPersistent; the muted condition is bit 16. */
  predicate Persistent(c: Condition) { c.ticks != -1 && (c.id == -1 || c.id == 0 || c.kind == 0x1_0000) }

  /** The conditions a save keeps. */
  function Kept(list: seq<Condition>): (r: seq<Condition>) {
    if list == [] then []
    else (if Persistent(list[0]) || list[0].constant then [list[0]] else []) + Kept(list[1..])
  }

  /** What a save keeps and skips: order and multiplicity stay. */
  lemma {:induction false} KeptExact(list: seq<Condition>, i: nat)
    requires i < |list|
    ensures var c := list[i];
            Kept(list[..i + 1]) == Kept(list[..i]) +
              if c.constant || (c.ticks != -1 && (c.id == -1 || c.id == 0 || c.kind == 65_536)) then [c] else []
    decreases i
  {
    assert list[..i + 1][0] == list[0];
    if i == 0 {
      assert list[..0] == [] && list[..1][1..] == [];
    } else {
      assert list[..i + 1][1..] == list[1..][..i] && list[..i][1..] == list[1..][..i - 1];
      KeptExact(list[1..], i - 1);
    }
  }

  /** The loop over a player's conditions. */
  method SaveConditions(list: seq<Condition>) returns (bytes: seq<Byte>)
    ensures bytes == SaveAll(Kept(list))
  {
    var out := new PropWriteStream();
    var i := 0;
    assert list[0..] == list;
    while i < |list|
      invariant 0 <= i <= |list| && fresh(out)
      invariant out.buffer + SaveAll(Kept(list[i..])) == SaveAll(Kept(list))
    {
      KeptFrom(list, i);
      SaveOne(list[i], out, SaveAll(Kept(list[i + 1..])));
      i := i + 1;
    }
    bytes := out.buffer;
  }

  /** What the save writes for one condition, in front of what follows. */
  function Saved(c: Condition, rest: seq<Byte>): (s: seq<Byte>) {
    if Persistent(c) || c.constant then Write(c, rest) else rest
  }

  method SaveOne(c: Condition, out: PropWriteStream, ghost rest: seq<Byte>)
    modifies out
    ensures out.buffer + rest == old(out.buffer) + Saved(c, rest)
  {
    if Persistent(c) || c.constant {
      Serialize(c, out, [END] + rest);
      ghost var before := out.buffer;
      OneByte(END);
      out.Write(END, 1);
      Joined(before, [END], rest);
    }
  }

  lemma KeptFrom(list: seq<Condition>, i: nat)
    requires i < |list|
    ensures SaveAll(Kept(list[i..])) == Saved(list[i], SaveAll(Kept(list[i + 1..])))
  {
    var later := Kept(list[i + 1..]);
    assert list[i..][0] == list[i] && list[i..][1..] == list[i + 1..];
    if Persistent(list[i]) || list[i].constant {
      assert Kept(list[i..]) == [list[i]] + later;
      SaveFirst(list[i], later);
    } else {
      assert Kept(list[i..]) == later;
    }
  }

  lemma SaveFirst(c: Condition, rest: seq<Condition>)
    ensures SaveAll([c] + rest) == Write(c, SaveAll(rest))
  {
    assert ([c] + rest)[1..] == rest && ([c] + rest)[0] == c;
  }

  // ---- Reading ----

  method ReadExpected(s: PropStream, tag: Byte, k: nat) returns (ok: bool, v: nat)
    requires s.Valid()
    modifies s
    ensures s.Valid() && ok == Expect(old(s.Rest()), tag, k).Some?
    ensures ok ==> Expect(old(s.Rest()), tag, k) == Some((v, s.Rest()))
  {
    v := 0;
    var found, attr := s.ReadRaw(1);
    if !found || attr[0] != tag {
      return false, v;
    }
    ok, v := s.ReadWord(k);
  }

  /** createCondition(PropStream&). */
  method CreateCondition(s: PropStream) returns (c: Option<Condition>)
    requires s.Valid()
    modifies s
    ensures s.Valid()
    ensures Create(old(s.Rest())) == if c.Some? then Some((c.value, s.Rest())) else None
  {
    var ok, attr := s.ReadRaw(1);
    if !ok {
      return None;
    }
    var kind := 0;
    if attr[0] == TYPE {
      ok, kind := s.ReadWord(4);
    } else if attr[0] == TYPE64 {
      ok, kind := s.ReadWord(8);
    } else {
      return None;
    }
    if !ok || !OneBit(kind) {
      return None;
    }
    c := CreateOfType(s, kind);
  }

  method CreateOfType(s: PropStream, kind: nat) returns (c: Option<Condition>)
    requires s.Valid()
    modifies s
    ensures s.Valid()
    ensures CreateTyped(kind, old(s.Rest())) == if c.Some? then Some((c.value, s.Rest())) else None
  {
    var ok, id := ReadExpected(s, ID, 4);
    if !ok {
      return None;
    }
    var ticks;
    ok, ticks := ReadExpected(s, TICKS, 4);
    if !ok {
      return None;
    }
    var buff;
    ok, buff := ReadExpected(s, IS_BUFF, 1);
    if !ok {
      return None;
    }
    c := CreateWithFlags(s, kind, Signed8(id), Signed32(ticks), buff != 0);
  }

  method CreateWithFlags(s: PropStream, kind: nat, id: I8, ticks: I32, isBuff: bool) returns (c: Option<Condition>)
    requires s.Valid()
    modifies s
    ensures s.Valid()
    ensures CreateFlags(kind, id, ticks, isBuff, old(s.Rest())) == if c.Some? then Some((c.value, s.Rest())) else None
  {
    var ok, subId := ReadExpected(s, SUB_ID, 4);
    if !ok {
      return None;
    }
    var aggressive;
    ok, aggressive := ReadExpected(s, IS_AGGRESSIVE, 1);
    if !ok {
      return None;
    }
    c := CreateWithConstant(s, kind, id, ticks, isBuff, Unsigned32(subId), aggressive != 0);
  }

  method CreateWithConstant(s: PropStream, kind: nat, id: I8, ticks: I32, isBuff: bool, subId: U32, aggressive: bool)
    returns (c: Option<Condition>)
    requires s.Valid()
    modifies s
    ensures s.Valid()
    ensures CreateConstant(kind, id, ticks, isBuff, subId, aggressive, old(s.Rest())) == if c.Some?
            then Some((c.value, s.Rest())) else None
  {
    var ok, constant := ReadExpected(s, CONSTANT, 1);
    if !ok {
      return None;
    }
    var extra := NewExtra(kind);
    if extra.None? {
      return None;
    }
    var condition := NewCondition(kind, id, ticks, isBuff, subId, aggressive, constant != 0, extra.value);
    if condition.constant {
      var endTime;
      ok, endTime := ReadExpected(s, END_TIME, 8);
      if !ok {
        return None;
      }
      condition := condition.(endTime := Signed64(endTime));
    }
    return Some(condition);
  }

  /** Condition::unserializeProp. */
  method ReadBaseProp(c: Condition, tag: Byte, s: PropStream) returns (ok: bool, r: Condition)
    requires s.Valid()
    modifies s
    ensures s.Valid()
    ensures BaseProp(c, tag, old(s.Rest())) == if ok then Some((r, s.Rest())) else None
    ensures !ok ==> r == c && s.Rest() == old(s.Rest())
  {
    r := c;
    var v := 0;
    if tag == TYPE || tag == ID || tag == TICKS || tag == SUB_ID {
      ok, v := s.ReadWord(4);
    } else if tag == TYPE64 || tag == END_TIME {
      ok, v := s.ReadWord(8);
    } else if tag == IS_BUFF || tag == IS_AGGRESSIVE || tag == CONSTANT {
      ok, v := s.ReadWord(1);
    } else {
      return false, c;
    }
    if ok {
      if tag == TYPE || tag == TYPE64 { r := c.(kind := v); }
      else if tag == ID { r := c.(id := Signed8(v)); }
      else if tag == TICKS { r := c.(ticks := Signed32(v)); }
      else if tag == SUB_ID { r := c.(subId := Unsigned32(v)); }
      else if tag == END_TIME { r := c.(endTime := Signed64(v)); }
      else if tag == IS_BUFF { r := c.(isBuff := v != 0); }
      else if tag == IS_AGGRESSIVE { r := c.(aggressive := v != 0); }
      else { r := c.(constant := v != 0); }
    }
  }

  /** ConditionDamage::unserializeProp. */
  method ReadDamageProp(c: Condition, tag: Byte, s: PropStream, now: int) returns (ok: bool, r: Condition)
    requires s.Valid() && c.extra.Damage?
    modifies s
    ensures s.Valid()
    ensures DamageProp(c, tag, old(s.Rest()), now) == if ok then Some((r, s.Rest())) else None
    ensures !ok ==> r == c && s.Rest() == old(s.Rest())
  {
    r := c;
    var v;
    if tag == DELAYED {
      ok, v := s.ReadWord(1);
      r := if ok then c.(extra := c.extra.(delayed := v != 0)) else c;
    } else if tag == PERIOD_DAMAGE {
      ok, v := s.ReadWord(4);
      r := if ok then c.(extra := c.extra.(periodDamage := Signed32(v))) else c;
    } else if tag == OWNER {
      ok := s.Skip(4);
    } else if tag == INTERVAL_DATA {
      ok, r := ReadInterval(c, s, now);
    } else {
      ok, r := ReadBaseProp(c, tag, s);
    }
  }

  method ReadInterval(c: Condition, s: PropStream, now: int) returns (ok: bool, r: Condition)
    requires s.Valid() && c.extra.Damage?
    modifies s
    ensures s.Valid()
    ensures DamageProp(c, INTERVAL_DATA, old(s.Rest()), now) == if ok then Some((r, s.Rest())) else None
    ensures !ok ==> r == c && s.Rest() == old(s.Rest())
  {
    ghost var before := s.Rest();
    r := c;
    var bytes;
    ok, bytes := s.ReadRaw(12);
    if ok {
      assert bytes[..4] == before[..4] && bytes[4..8] == before[4..8] && bytes[8..12] == before[8..12];
      r := AddInterval(c, Interval(Signed32(Value(bytes[..4])), Signed32(Value(bytes[4..8])),
          Signed32(Value(bytes[8..12]))), now);
    }
  }

  /** ConditionLight::unserializeProp. */
  method ReadLightProp(c: Condition, tag: Byte, s: PropStream) returns (ok: bool, r: Condition)
    requires s.Valid() && c.extra.Light?
    modifies s
    ensures s.Valid()
    ensures LightProp(c, tag, old(s.Rest())) == if ok then Some((r, s.Rest())) else None
    ensures !ok ==> r == c && s.Rest() == old(s.Rest())
  {
    r := c;
    if tag == LIGHT_COLOR || tag == LIGHT_LEVEL {
      var bytes;
      ok, bytes := s.ReadRaw(1);
      if ok {
        r := c.(extra := if tag == LIGHT_COLOR then c.extra.(color := bytes[0]) else c.extra.(level := bytes[0]));
      }
    } else if tag == LIGHT_TICKS || tag == LIGHT_INTERVAL {
      var v;
      ok, v := s.ReadWord(4);
      if ok {
        r := c.(extra := if tag == LIGHT_TICKS then c.extra.(lightTicks := Unsigned32(v))
            else c.extra.(lightInterval := Unsigned32(v)));
      }
    } else {
      ok, r := ReadBaseProp(c, tag, s);
    }
  }

  /** ConditionOutfit::unserializeProp. */
  method ReadOutfitProp(c: Condition, tag: Byte, s: PropStream) returns (ok: bool, r: Condition)
    requires s.Valid() && c.extra.Outfit?
    modifies s
    ensures s.Valid()
    ensures OutfitProp(c, tag, old(s.Rest())) == if ok then Some((r, s.Rest())) else None
    ensures !ok ==> r == c && s.Rest() == old(s.Rest())
  {
    r := c;
    if tag == OUTFIT {
      var bytes;
      ok, bytes := s.ReadRaw(14);
      r := if ok then c.(extra := Outfit(LookRead(bytes))) else c;
    } else {
      ok, r := ReadBaseProp(c, tag, s);
    }
  }

  /** unserializeProp of the condition's class. */
  method ReadProp(c: Condition, tag: Byte, s: PropStream, now: int) returns (ok: bool, r: Condition)
    requires s.Valid()
    modifies s
    ensures s.Valid()
    ensures Prop(c, tag, old(s.Rest()), now) == if ok then Some((r, s.Rest())) else None
    ensures !ok ==> r == c && s.Rest() == old(s.Rest())
  {
    r := c;
    var v;
    if c.extra.Regeneration? && tag in {HEALTH_TICKS, HEALTH_GAIN, HEALTH_GAIN_PERCENT, MANA_TICKS, MANA_GAIN,
        MANA_GAIN_PERCENT} {
      ok, v := s.ReadWord(4);
      r := if ok then c.(extra := RegenerationProp(c.extra, tag, Unsigned32(v))) else c;
    } else if c.extra.Soul? && (tag == SOUL_GAIN || tag == SOUL_TICKS) {
      ok, v := s.ReadWord(4);
      if ok {
        r := c.(extra := if tag == SOUL_GAIN then c.extra.(soulGain := Unsigned32(v))
            else c.extra.(soulTicks := Unsigned32(v)));
      }
    } else if c.extra.Speed? && tag in {SPEED_DELTA, FORMULA_MINA, FORMULA_MINB, FORMULA_MAXA, FORMULA_MAXB} {
      ok, v := s.ReadWord(4);
      r := if ok then c.(extra := SpeedProp(c.extra, tag, Unsigned32(v))) else c;
    } else if c.extra.Damage? {
      ok, r := ReadDamageProp(c, tag, s, now);
    } else if c.extra.Light? {
      ok, r := ReadLightProp(c, tag, s);
    } else if c.extra.Outfit? {
      ok, r := ReadOutfitProp(c, tag, s);
    } else {
      ok, r := ReadBaseProp(c, tag, s);
    }
  }

  /** The loop of unserialize. */
  method UnserializeFrom(c: Condition, s: PropStream, now: int) returns (ok: bool, r: Condition)
    requires s.Valid()
    modifies s
    ensures s.Valid()
    ensures Parsed(ok, r, s.Rest()) == Unserialize(c, old(s.Rest()), now)
  {
    r := c;
    while true
      invariant s.Valid()
      invariant Unserialize(c, old(s.Rest()), now) == Unserialize(r, s.Rest(), now)
      decreases |s.Rest()|
    {
      var read, attr := s.ReadRaw(1);
      if !read || attr[0] == END {
        return true, r;
      }
      ghost var before := s.Rest();
      PropShrinks(r, attr[0], before, now);
      ok, r := ReadProp(r, attr[0], s, now);
      if !ok {
        return false, r;
      }
    }
  }

  /** The loading loop: what parses goes to the front of the player's list. */
  method LoadConditions(bytes: seq<Byte>, now: int) returns (loaded: seq<Condition>)
    ensures loaded == LoadAll(bytes, now, [])
  {
    var s := new PropStream(bytes);
    assert s.Rest() == bytes;
    loaded := [];
    var c := CreateCondition(s);
    ghost var at := bytes;
    while c.Some?
      invariant s.Valid() && fresh(s)
      invariant Create(at) == if c.Some? then Some((c.value, s.Rest())) else None
      invariant LoadAll(bytes, now, []) == LoadAll(at, now, loaded)
      decreases |at|
    {
      ReadShrinks(at);
      UnserializeShrinks(c.value, s.Rest(), now);
      var ok, condition := UnserializeFrom(c.value, s, now);
      at := s.Rest();
      if ok {
        loaded := [condition] + loaded;
      }
      c := CreateCondition(s);
    }
  }

  /** Main result: saving and loading a player's conditions restores what is kept, up to the first light. */
  method SaveThenLoad(list: seq<Condition>, now: int) returns (loaded: seq<Condition>)
    requires forall c :: c in list ==> WellFormed(c)
    ensures loaded == RestoredReversed(BeforeLight(Kept(list)), now)
  {
    var bytes := SaveConditions(list);
    KeptWithin(list);
    ListRoundTrip(Kept(list), now, []);
    loaded := LoadConditions(bytes, now);
    var before := BeforeLight(Kept(list));
    assert RestoredReversed(before, now) + [] == RestoredReversed(before, now);
  }

  lemma {:induction false} KeptWithin(list: seq<Condition>)
    ensures forall c :: c in Kept(list) <==> c in list && (Persistent(c) || c.constant)
  {
    if list != [] {
      KeptWithin(list[1..]);
      assert list == [list[0]] + list[1..];
    }
  }
}
