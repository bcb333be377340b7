/**
 What becomes of one decaying item (src/decay.cpp): it stays in the bucket of its stamp until it is
 stopped, restarted or destroyed, until everything is cleared, or until a check hands it over in time.
 */
module DecayTracking {
  import opened Basics
  import opened DecayModel

  /** How often x is listed under time t. */
  ghost function Listed(m: Buckets, t: int, x: Item): (n: nat) { multiset(Bucket(m, t))[x] }

  // ---- One stop, one start ----

  lemma SwapRemoveCounts(b: seq<Item>, x: Item)
    requires x in b
    ensures multiset(SwapRemove(b, x)) == multiset(b) - multiset{x}
  {
    var i, n := IndexIn(b, x), |b| - 1;
    var c := b[i := b[n]];
    FrontCounts(b);
    FrontCounts(c);
    UpdateCounts(b, i, b[n]);
  }

  lemma FrontCounts(b: seq<Item>)
    requires b != []
    ensures multiset(b) == multiset(b[..|b| - 1]) + multiset{b[|b| - 1]}
  {
    assert b == b[..|b| - 1] + [b[|b| - 1]];
  }

  lemma UpdateCounts(b: seq<Item>, i: nat, y: Item)
    requires i < |b|
    ensures multiset(b[i := y]) + multiset{b[i]} == multiset(b) + multiset{y}
  {
    assert b == b[..i] + [b[i]] + b[i + 1..];
    assert b[i := y] == b[..i] + [y] + b[i + 1..];
  }

  /** The list under t loses x once; every other list is the same. */
  ghost predicate LosesOne(m: Buckets, n: Buckets, x: Item, t: int) {
    && multiset(Bucket(n, t)) == multiset(Bucket(m, t)) - multiset{x}
    && forall k :: k != t ==> Bucket(n, k) == Bucket(m, k)
  }

  lemma StopLosesOne(s: State, x: Item, t: int)
    requires x in s.alive && t in s.buckets && x in s.buckets[t]
    ensures Stopped(s, x, t) == s.(buckets := Stopped(s, x, t).buckets)
    ensures LosesOne(s.buckets, Stopped(s, x, t).buckets, x, t)
  {
    var b := s.buckets[t];
    SwapRemoveCounts(b, x);
    if |b| == 1 {
      assert b == [x];
    }
  }

  /** A stop takes one entry of the item out of the bucket named, and nothing else anywhere. */
  lemma StopExact(s: State, x: Item, t: int)
    ensures var r := Stopped(s, x, t);
            && r == s.(buckets := r.buckets)
            && forall k, y :: Listed(r.buckets, k, y) ==
                 if y == x && k == t && x in s.alive && Listed(s.buckets, t, x) > 0 then Listed(s.buckets, k, y) - 1
                 else Listed(s.buckets, k, y)
  {
    if x in s.alive && t in s.buckets && x in s.buckets[t] {
      StopLosesOne(s, x, t);
    } else {
      assert Stopped(s, x, t) == s;
    }
  }

  lemma NotListed(s: State, k: int, x: Item)
    requires Absent(s.buckets, x)
    ensures Listed(s.buckets, k, x) == 0
  {
  }

  /** In n the item is listed nowhere, and every other item as in m. */
  ghost predicate Unlists(m: Buckets, n: Buckets, x: Item) {
    forall k, y :: Listed(n, k, y) == if y == x then 0 else Listed(m, k, y)
  }

  lemma WithdrawnExact(s: State, x: Item)
    requires Sound(s) && x in s.alive
    ensures Withdrawn(s, x) == s.(buckets := Withdrawn(s, x).buckets)
    ensures Unlists(s.buckets, Withdrawn(s, x).buckets, x)
  {
    WithdrawnKeeps(s, x);
    if x in s.stamps {
      StopExact(s, x, s.stamps[x]);
    }
    forall k ensures Listed(Withdrawn(s, x).buckets, k, x) == 0 {
      NotListed(Withdrawn(s, x), k, x);
    }
  }

  /** In n the item is listed once, under t, and every other item as in m. */
  ghost predicate ListedOnceAt(m: Buckets, n: Buckets, x: Item, t: int) {
    forall k, y :: Listed(n, k, y) == if y == x then if k == t then 1 else 0 else Listed(m, k, y)
  }

  /** A start or restart leaves the item listed once, under its new time, and every other item where it was. */
  lemma StartExact(s: State, x: Item, duration: int)
    requires Sound(s) && Possible(s, Start(x, duration))
    ensures var r, t := Started(s, x, duration), s.now + duration;
            && r.stamps == s.stamps[x := t] && r.alive == s.alive && r.now == s.now
            && ListedOnceAt(s.buckets, r.buckets, x, t)
  {
    WithdrawnExact(s, x);
    EntryMade(s, Withdrawn(s, x), x, s.now + duration, duration, Started(s, x, duration));
  }

  lemma EntryMade(s: State, w: State, x: Item, t: int, duration: int, r: State)
    requires w == s.(buckets := w.buckets) && Unlists(s.buckets, w.buckets, x)
    requires r == Entered(Armed(w, t, duration), x, t)
    ensures && r.stamps == s.stamps[x := t] && r.alive == s.alive && r.now == s.now
            && ListedOnceAt(s.buckets, r.buckets, x, t)
  {
    ArmedBuckets(w, t, duration);
    EnteredOnce(s.buckets, Armed(w, t, duration), x, t);
  }

  lemma ArmedBuckets(s: State, t: int, duration: int)
    ensures var a := Armed(s, t, duration);
            a == s.(timers := a.timers, eventId := a.eventId, nextId := a.nextId)
  {
  }

  lemma EnteredOnce(m: Buckets, s: State, x: Item, t: int)
    requires Unlists(m, s.buckets, x)
    ensures ListedOnceAt(m, Entered(s, x, t).buckets, x, t)
  {
    var n := Entered(s, x, t).buckets;
    forall k, y ensures Listed(n, k, y) == if y == x then if k == t then 1 else 0 else Listed(m, k, y) {
      assert Listed(s.buckets, k, y) == if y == x then 0 else Listed(m, k, y);
      assert Bucket(n, k) == if k == t then Bucket(s.buckets, t) + [x] else Bucket(s.buckets, k);
    }
  }

  // ---- What leaves an item where it is ----

  /** The item is alive, carries stamp t and is listed there. */
  ghost predicate Tracked(s: State, x: Item, t: int) {
    x in s.alive && x in s.stamps && s.stamps[x] == t && Listed(s.buckets, t, x) > 0
  }

  lemma OthersKeep(s: State, a: Action, x: Item, t: int)
    requires Sound(s) && Possible(s, a) && a.x != x && Tracked(s, x, t)
    ensures Tracked(Act(s, a), x, t)
  {
    match a {
      case Start(y, duration) => StartExact(s, y, duration);
      case Stop(y) =>
        if y in s.stamps {
          StopExact(s, y, s.stamps[y]);
        }
      case _ =>
    }
  }

  ghost predicate Untouched(acts: seq<Action>, x: Item) { forall k :: 0 <= k < |acts| ==> acts[k].x != x }

  lemma {:induction false} ActAllKeep(s: State, acts: seq<Action>, x: Item, t: int)
    requires Sound(s) && AllPossible(s, acts) && Untouched(acts, x) && Tracked(s, x, t)
    ensures Tracked(ActAll(s, acts), x, t)
    decreases acts
  {
    if acts != [] {
      OthersKeep(s, acts[0], x, t);
      ActKeeps(s, acts[0]);
      ActAllKeep(Act(s, acts[0]), acts[1..], x, t);
    }
  }

  ghost predicate AllUntouched(scripts: seq<seq<Action>>, x: Item) {
    forall k :: 0 <= k < |scripts| ==> Untouched(scripts[k], x)
  }

  lemma {:induction false} ProcessedKeep(s: State, batch: seq<Item>, scripts: seq<seq<Action>>, x: Item, t: int)
    requires Sound(s) && NothingDue(s) && ScriptsPossible(s, batch, scripts) && AllUntouched(scripts, x)
    requires Tracked(s, x, t)
    ensures Tracked(Processed(s, batch, scripts), x, t)
    decreases batch
  {
    if batch != [] {
      if batch[0] in s.alive {
        ActAllKeep(s, scripts[0], x, t);
        ActAllKeeps(s, scripts[0]);
      }
      ProcessedKeep(ActAll(s, scripts[0]), batch[1..], scripts[1..], x, t);
    }
  }

  /** The event names the item, lets a callback act on it, or clears everything. */
  ghost predicate Disturbs(e: Event, x: Item) {
    match e
    case Outside(a) => a.x == x
    case Check(_, scripts) => !AllUntouched(scripts, x)
    case Clear => true
    case _ => false
  }

  /** The event is a check that has the item in its batch. */
  ghost predicate Collects(s: State, e: Event, x: Item) { e.Check? && x in Expired(s.buckets, s.now) }

  lemma EventKeeps(s: State, e: Event, x: Item, t: int)
    requires Inv(s) && Enabled(s, e) && Tracked(s, x, t) && !Disturbs(e, x) && !Collects(s, e, x)
    ensures Tracked(Next(s, e), x, t)
  {
    match e {
      case Outside(a) => OthersKeep(s, a, x, t);
      case Check(id, scripts) =>
        ExpiredExact(s.buckets, s.now, x);
        assert t in s.buckets && x in s.buckets[t];
        var b := BatchStart(s, id);
        BatchStartKeeps(s, id);
        ProcessedKeep(b, Expired(s.buckets, s.now), scripts, x, t);
      case _ =>
    }
  }

  /**
   Main result on tracking over runs. An item started at step i is listed under its stamp at every later
   step, until an event disturbs it or a check collects it.
   */
  lemma {:induction false} StaysTracked(states: seq<State>, events: seq<Event>, i: nat, j: nat, x: Item, duration: int)
    requires Run(states, events) && i < j <= |events| && events[i] == Outside(Start(x, duration))
    requires forall k :: i < k < j ==> !Disturbs(events[k], x) && !Collects(states[k], events[k], x)
    ensures Tracked(states[j], x, states[i].now + duration)
    decreases j - i
  {
    var k := j - 1;
    assert Enabled(states[k], events[k]) && states[k + 1] == Next(states[k], events[k]);
    RunKeeps(states, events, k);
    if k == i {
      StartExact(states[i], x, duration);
    } else {
      StaysTracked(states, events, i, k, x, duration);
      EventKeeps(states[k], events[k], x, states[i].now + duration);
    }
  }

  // ---- And so it is handed over in time ----

  lemma {:induction false} FirstCollected(states: seq<State>, events: seq<Event>, i: nat, j: nat, x: Item)
    returns (k: nat)
    requires |states| == |events| + 1 && i < j <= |events|
    requires exists k :: i < k < j && Collects(states[k], events[k], x)
    ensures i < k < j && Collects(states[k], events[k], x)
    ensures forall m :: i < m < k ==> !Collects(states[m], events[m], x)
    decreases j
  {
    k :| i < k < j && Collects(states[k], events[k], x);
    if exists m :: i < m < k && Collects(states[m], events[m], x) {
      k := FirstCollected(states, events, i, k, x);
    }
  }

  /**
   Main result on time. With punctual timers, an item that is started and then left alone has been
   collected by a check once the clock is past its time plus the minimal interval, never before its time;
   that check finds it under its stamp and hands it over.
   */
  lemma HandedOverInTime(states: seq<State>, events: seq<Event>, i: nat, j: nat, x: Item, duration: int)
    returns (k: nat)
    requires Run(states, events) && Punctual(states, events)
    requires i < j <= |events| && events[i] == Outside(Start(x, duration))
    requires forall k :: i < k < j ==> !Disturbs(events[k], x)
    requires states[j].now > states[i].now + duration + MIN_TASK_INTERVAL
    ensures i < k < j && events[k].Check? && Tracked(states[k], x, states[i].now + duration)
    ensures states[k].now >= states[i].now + duration
    ensures HandOver(x, true, states[i].now + duration) in
              HandOvers(BatchStart(states[k], events[k].id), Expired(states[k].buckets, states[k].now),
                        events[k].scripts)
  {
    var t := states[i].now + duration;
    if forall k :: i < k < j ==> !Collects(states[k], events[k], x) {
      StaysTracked(states, events, i, j, x, duration);
      NothingLeftLate(states, events, j, t);
      assert false;
    }
    k := FirstCollected(states, events, i, j, x);
    StaysTracked(states, events, i, k, x, duration);
    CollectedInTime(states, events, k, x, t);
    assert Enabled(states[k], events[k]);
    HandsOver(states[k], events[k].id, events[k].scripts, x, t);
  }

  lemma CollectedInTime(states: seq<State>, events: seq<Event>, k: nat, x: Item, t: int)
    requires Run(states, events) && k < |events| && Tracked(states[k], x, t) && Collects(states[k], events[k], x)
    ensures states[k].now >= t && Sound(states[k])
  {
    var s := states[k];
    RunKeeps(states, events, k);
    ExpiredExact(s.buckets, s.now, x);
    var u :| u in s.buckets && u <= s.now && x in s.buckets[u];
    assert BucketOk(s, u);
  }

  /** A live entry of the batch that no callback touches is handed over with its stamp. */
  lemma HandsOver(s: State, id: EventId, scripts: seq<seq<Action>>, x: Item, t: int)
    requires Sound(s) && x in Expired(s.buckets, s.now) && AllUntouched(scripts, x)
    requires ScriptsPossible(BatchStart(s, id), Expired(s.buckets, s.now), scripts)
    requires x in s.alive && x in s.stamps && s.stamps[x] == t
    ensures HandOver(x, true, t) in HandOvers(BatchStart(s, id), Expired(s.buckets, s.now), scripts)
  {
    BatchStartKeeps(s, id);
    HandsOverFrom(BatchStart(s, id), Expired(s.buckets, s.now), scripts, x, t);
  }

  lemma {:induction false} HandsOverFrom(s: State, batch: seq<Item>, scripts: seq<seq<Action>>, x: Item, t: int)
    requires Sound(s) && NothingDue(s) && ScriptsPossible(s, batch, scripts) && AllUntouched(scripts, x)
    requires x in batch && x in s.alive && x in s.stamps && s.stamps[x] == t
    ensures HandOver(x, true, t) in HandOvers(s, batch, scripts)
    decreases batch
  {
    if batch[0] != x {
      if batch[0] in s.alive {
        StampStays(s, scripts[0], x);
        ActAllKeeps(s, scripts[0]);
      }
      HandsOverFrom(ActAll(s, scripts[0]), batch[1..], scripts[1..], x, t);
    }
  }

  lemma OtherStampStays(s: State, a: Action, x: Item)
    requires Possible(s, a) && a.x != x && x in s.alive && x in s.stamps
    ensures x in Act(s, a).alive && x in Act(s, a).stamps && Act(s, a).stamps[x] == s.stamps[x]
  {
  }

  lemma {:induction false} StampStays(s: State, acts: seq<Action>, x: Item)
    requires AllPossible(s, acts) && Untouched(acts, x) && x in s.alive && x in s.stamps
    ensures x in ActAll(s, acts).alive && x in ActAll(s, acts).stamps && ActAll(s, acts).stamps[x] == s.stamps[x]
    decreases acts
  {
    if acts != [] {
      OtherStampStays(s, acts[0], x);
      StampStays(Act(s, acts[0]), acts[1..], x);
    }
  }

  /** The log gains exactly one entry for each batch entry that is alive when its turn comes. */
  lemma {:induction false} HandOversExact(s: State, batch: seq<Item>, scripts: seq<seq<Action>>, i: nat)
    requires i < |batch| == |scripts|
    ensures var at := ActAll(s, Flatten(scripts[..i]));
            HandOvers(s, batch[..i + 1], scripts[..i + 1]) == HandOvers(s, batch[..i], scripts[..i]) +
              if batch[i] in at.alive then [HandOverOf(at, batch[i])] else []
    decreases i
  {
    assert batch[..i + 1][0] == batch[0] && scripts[..i + 1][0] == scripts[0];
    if i == 0 {
      assert Flatten(scripts[..0]) == [] && scripts[..1][1..] == [] && batch[..1][1..] == [];
    } else {
      assert batch[..i + 1][1..] == batch[1..][..i] && scripts[..i + 1][1..] == scripts[1..][..i];
      assert batch[..i][1..] == batch[1..][..i - 1] && scripts[..i][1..] == scripts[1..][..i - 1];
      HandOversExact(ActAll(s, scripts[0]), batch[1..], scripts[1..], i - 1);
      ActAllConcat(s, scripts[0], Flatten(scripts[1..][..i - 1]));
    }
  }
}
