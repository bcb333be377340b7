/** The manager object of src/decay.cpp, proved against the functions of `DecayModel`. */
module DecayManager {
  import opened Basics
  import opened DecayModel
  import opened DecayTracking

  class Decay {
    var decayMap: Buckets
    var eventId: EventId
    // The clock, the items' attributes and the scheduler.
    var now: int
    var stamps: map<Item, int>
    var alive: set<Item>
    var timers: map<EventId, Timer>
    var nextId: EventId

    ghost function View(): (s: State)
      reads this
    {
      State(now, decayMap, eventId, stamps, alive, timers, nextId)
    }

    constructor ()
      ensures View() == INITIAL && Inv(View())
    {
      decayMap, eventId, now, stamps, alive, timers, nextId := map[], 0, 0, map[], {}, map[], 1;
    }

    /** decayMap.begin()->first. */
    method FirstKey() returns (k: int)
      requires decayMap != map[]
      ensures IsLeast(k, decayMap.Keys) && k == Least(decayMap.Keys)
    {
      assert decayMap.Keys != {} by {
        assert |decayMap.Keys| == |decayMap|;
      }
      var rest := decayMap.Keys;
      k := Pick(rest);
      rest := rest - {k};
      while rest != {}
        invariant rest <= decayMap.Keys && k in decayMap.Keys
        invariant forall j :: j in decayMap.Keys && j !in rest ==> k <= j
        decreases |rest|
      {
        var j := Pick(rest);
        if j < k {
          k := j;
        }
        rest := rest - {j};
      }
    }

    method Pick(keys: set<int>) returns (k: int)
      requires keys != {}
      ensures k in keys
    {
      assert (forall j: int :: j !in keys) ==> keys == {};
      k :| k in keys;
    }

    method StopEvent(id: EventId)
      modifies this`timers
      ensures View() == DecayModel.StopEvent(old(View()), id)
    {
      if id in timers && !timers[id].posted {
        timers := timers - {id};
      }
    }

    method AddEvent(delay: int)
      modifies this`timers, this`eventId, this`nextId
      ensures View() == DecayModel.AddEvent(old(View()), delay)
    {
      timers := timers[nextId := Timer(now + delay, false)];
      eventId := nextId;
      nextId := nextId + 1;
    }

    method StopDecay(x: Item, timestamp: int)
      modifies this`decayMap
      ensures View() == Stopped(old(View()), x, timestamp)
      ensures forall t, y :: y != x || t != timestamp ==> Listed(decayMap, t, y) == Listed(old(decayMap), t, y)
      ensures x in alive && Listed(old(decayMap), timestamp, x) > 0 ==>
                Listed(decayMap, timestamp, x) == Listed(old(decayMap), timestamp, x) - 1
    {
      StopExact(View(), x, timestamp);
      if x !in alive || timestamp !in decayMap {
        return;
      }
      var items := decayMap[timestamp];
      var i := 0;
      while i < |items| && items[i] != x
        invariant 0 <= i <= |items|
        invariant x !in items[..i]
      {
        i := i + 1;
      }
      if i == |items| {
        return;
      }
      if |items| == 1 {
        decayMap := decayMap - {timestamp};
      } else {
        FirstIndex(items, x, i);
        decayMap := decayMap[timestamp := items[i := items[|items| - 1]][..|items| - 1]];
      }
    }

    method StartDecay(x: Item, duration: int)
      requires x in alive
      modifies this
      ensures View() == Started(old(View()), x, duration)
      ensures old(Sound(View())) && 0 <= duration <= INT32_MAX ==>
                ListedOnceAt(old(decayMap), decayMap, x, now + duration)
    {
      if Sound(View()) && 0 <= duration <= INT32_MAX {
        StartExact(View(), x, duration);
      }
      if x in stamps {
        StopDecay(x, stamps[x]);
      }
      var timestamp := now + duration;
      Arm(timestamp, duration);
      stamps := stamps[x := timestamp];
      decayMap := decayMap[timestamp := Bucket(decayMap, timestamp) + [x]];
    }

    /** A timer for an entry that becomes the earliest. */
    method Arm(timestamp: int, duration: int)
      modifies this`timers, this`eventId, this`nextId
      ensures View() == Armed(old(View()), timestamp, duration)
    {
      if decayMap == map[] {
        AddEvent(Clamp(duration));
      } else {
        var first := FirstKey();
        if timestamp < first {
          StopEvent(eventId);
          AddEvent(Clamp(duration));
        }
      }
    }

    method ScheduleNextCheck(next: int)
      modifies this`timers, this`eventId, this`nextId
      ensures View() == DecayModel.AddEvent(
                          if old(eventId) != 0 then DecayModel.StopEvent(old(View()), old(eventId)) else old(View()),
                          Clamp(ToInt32(next - old(now))))
    {
      if eventId != 0 {
        StopEvent(eventId);
      }
      AddEvent(Clamp(ToInt32(next - now)));
    }

    method Clear()
      modifies this
      ensures View() == Cleared(old(View()))
    {
      if eventId != 0 {
        StopEvent(eventId);
        eventId := 0;
      }
      decayMap := map[];
    }

    /** What callbacks do to items while a batch is handed over. */
    method Perform(acts: seq<Action>)
      requires AllPossible(View(), acts)
      modifies this
      ensures View() == ActAll(old(View()), acts)
    {
      var i := 0;
      ghost var before := View();
      assert acts[0..] == acts;
      while i < |acts|
        invariant 0 <= i <= |acts|
        invariant AllPossible(View(), acts[i..])
        invariant ActAll(before, acts) == ActAll(View(), acts[i..])
      {
        assert acts[i..][1..] == acts[i + 1..];
        match acts[i] {
          case Start(x, duration) => StartDecay(x, duration);
          case Stop(x) =>
            if x in stamps {
              StopDecay(x, stamps[x]);
              stamps := stamps - {x};
            }
          case Birth(x) => alive := alive + {x};
          case Death(x) => alive, stamps := alive - {x}, stamps - {x};
        }
        i := i + 1;
      }
    }

    /** Hands over the live entries in order; `scripts` is what their callbacks do. */
    method ProcessDecayBatch(batch: seq<Item>, scripts: seq<seq<Action>>) returns (log: seq<HandOver>)
      requires ScriptsPossible(View(), batch, scripts)
      modifies this
      ensures View() == Processed(old(View()), batch, scripts)
      ensures log == HandOvers(old(View()), batch, scripts)
    {
      log := [];
      var i := 0;
      ghost var before := View();
      assert batch[0..] == batch && scripts[0..] == scripts;
      while i < |batch|
        invariant 0 <= i <= |batch|
        invariant ScriptsPossible(View(), batch[i..], scripts[i..])
        invariant Processed(before, batch, scripts) == Processed(View(), batch[i..], scripts[i..])
        invariant HandOvers(before, batch, scripts) == log + HandOvers(View(), batch[i..], scripts[i..])
      {
        var entry := HandNext(batch, scripts, i);
        log := log + entry;
        i := i + 1;
      }
    }

    method HandNext(batch: seq<Item>, scripts: seq<seq<Action>>, i: nat) returns (entry: seq<HandOver>)
      requires i < |batch| == |scripts| && ScriptsPossible(View(), batch[i..], scripts[i..])
      modifies this
      ensures ScriptsPossible(View(), batch[i + 1..], scripts[i + 1..])
      ensures Processed(old(View()), batch[i..], scripts[i..]) == Processed(View(), batch[i + 1..], scripts[i + 1..])
      ensures HandOvers(old(View()), batch[i..], scripts[i..]) == entry +
              HandOvers(View(), batch[i + 1..], scripts[i + 1..])
    {
      BatchStep(View(), batch, scripts, i);
      entry := HandOne(batch[i], scripts[i]);
    }

    /** One entry of the batch, if it is still alive. */
    method HandOne(x: Item, script: seq<Action>) returns (entry: seq<HandOver>)
      requires if x in alive then AllPossible(View(), script) else script == []
      modifies this
      ensures View() == ActAll(old(View()), script)
      ensures entry == if x in old(alive) then [HandOverOf(old(View()), x)] else []
    {
      entry := [];
      if x in alive {
        entry := [if x in stamps then HandOver(x, true, stamps[x]) else HandOver(x, false, 0)];
        Perform(script);
      }
    }

    /** The check a timer runs: collect what is due, hand it over, arm the next timer. */
    method CheckDecay(id: EventId, scripts: seq<seq<Action>>) returns (log: seq<HandOver>)
      requires ScriptsPossible(BatchStart(View(), id), Expired(decayMap, now), scripts)
      modifies this
      ensures View() == Checked(old(View()), id, scripts)
      ensures log == HandOvers(BatchStart(old(View()), id), Expired(old(decayMap), old(now)), scripts)
      ensures old(Sound(View())) ==> Inv(View())
    {
      ghost var before := View();
      timers := timers - {id};
      var batch := TakeExpired();
      log := ProcessDecayBatch(batch, scripts);
      Reschedule();
      if Sound(before) {
        CheckedKeeps(before, id, scripts);
      }
    }

    method Reschedule()
      modifies this`timers, this`eventId, this`nextId
      ensures View() == Rescheduled(old(View()))
    {
      if decayMap != map[] {
        var next := FirstKey();
        ScheduleNextCheck(next);
      }
    }

    method TakeExpired() returns (batch: seq<Item>)
      modifies this`decayMap
      ensures batch == Expired(old(decayMap), now) && decayMap == Remaining(old(decayMap), now)
    {
      batch := [];
      while decayMap != map[]
        invariant Expired(old(decayMap), now) == batch + Expired(decayMap, now)
        invariant Remaining(decayMap, now) == Remaining(old(decayMap), now)
        decreases |decayMap|
      {
        var first := FirstKey();
        if first > now {
          break;
        }
        batch := batch + decayMap[first];
        assert (decayMap - {first}).Keys == decayMap.Keys - {first};
        decayMap := decayMap - {first};
      }
      assert decayMap == Remaining(decayMap, now);
    }
  }

  /** What is left of the batch, one entry at a time. */
  lemma BatchStep(s: State, batch: seq<Item>, scripts: seq<seq<Action>>, i: nat)
    requires i < |batch| == |scripts| && ScriptsPossible(s, batch[i..], scripts[i..])
    ensures var t := ActAll(s, scripts[i]);
            && ScriptsPossible(t, batch[i + 1..], scripts[i + 1..])
            && Processed(s, batch[i..], scripts[i..]) == Processed(t, batch[i + 1..], scripts[i + 1..])
            && HandOvers(s, batch[i..], scripts[i..]) ==
               (if batch[i] in s.alive then [HandOverOf(s, batch[i])] else []) +
                   HandOvers(t, batch[i + 1..], scripts[i + 1..])
    ensures if batch[i] in s.alive then AllPossible(s, scripts[i]) else scripts[i] == []
  {
    assert batch[i..][1..] == batch[i + 1..] && scripts[i..][1..] == scripts[i + 1..];
    assert batch[i..][0] == batch[i] && scripts[i..][0] == scripts[i];
  }

  lemma {:induction false} FirstIndex(b: seq<Item>, x: Item, i: nat)
    requires i < |b| && b[i] == x && x !in b[..i]
    ensures IndexIn(b, x) == i
  {
    if i > 0 {
      assert b[..i][0] == b[0];
      assert b[1..][..i - 1] == b[..i][1..];
      FirstIndex(b[1..], x, i - 1);
    }
  }
}
