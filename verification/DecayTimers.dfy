/** The one remembered timer of the decay manager (src/decay.cpp): when it is set, for when, and what it replaces. */
module DecayTimers {
  import opened Basics
  import opened DecayModel

  /** A new timer for `due` is remembered; the one remembered before is cancelled, unless its check is posted. */
  ghost predicate Rearmed(s: State, t: State, due: int, cancels: bool) {
    && t.eventId == s.nextId && t.nextId == s.nextId + 1
    && (forall id :: id in t.timers <==>
          id == s.nextId || (id in s.timers && !(cancels && id == s.eventId && !s.timers[id].posted)))
    && t.timers[s.nextId] == Timer(due, false)
    && forall id :: id in s.timers && id in t.timers && id != s.nextId ==> t.timers[id] == s.timers[id]
  }

  ghost predicate SameTimers(s: State, t: State) {
    t.eventId == s.eventId && t.nextId == s.nextId && t.timers == s.timers
  }

  /**
   A start sets a timer exactly if its item would be the first to decay, for its time and at least 50 ms
   ahead; the timer of a map that had run empty is left running, any other is cancelled.
   */
  lemma StartSetsTimer(s: State, x: Item, duration: int)
    requires Sound(s) && Possible(s, Start(x, duration))
    ensures var w, r, t := Withdrawn(s, x), Started(s, x, duration), s.now + duration;
            if forall k :: k in w.buckets ==> t < k then
              Rearmed(s, r, s.now + Max(50, duration), w.buckets != map[])
            else SameTimers(s, r)
  {
    WithdrawnKeeps(s, x);
    var w := Withdrawn(s, x);
    ArmedTimers(w, s.now + duration, duration);
    assert SameTimers(s, w);
  }

  lemma ArmedTimers(w: State, t: int, duration: int)
    requires Sound(w) && t == w.now + duration
    ensures if forall k :: k in w.buckets ==> t < k then
              Rearmed(w, Armed(w, t, duration), w.now + Max(50, duration), w.buckets != map[])
            else SameTimers(w, Armed(w, t, duration))
  {
    if w.buckets != map[] {
      assert IsLeast(Least(w.buckets.Keys), w.buckets.Keys);
    }
  }

  /** A check ends with a timer for the next item to decay, at least 50 ms ahead, if there is one. */
  lemma CheckSetsTimer(s: State)
    requires Sound(s) && NothingDue(s)
    ensures var r := Rescheduled(s);
            && r.buckets == s.buckets
            && (s.buckets == map[] ==> r == s)
            && (s.buckets != map[] ==>
                  exists k :: IsLeast(k, s.buckets.Keys) && Rearmed(s, r, Max(k, s.now + 50), s.eventId != 0))
  {
    if s.buckets != map[] {
      var k := Least(s.buckets.Keys);
      assert BucketOk(s, k) && k >= s.now;
      assert ToInt32(k - s.now) == k - s.now;
      assert Clamp(k - s.now) == Max(k - s.now, 50);
      assert Rearmed(s, Rescheduled(s), Max(k, s.now + 50), s.eventId != 0);
    }
  }

  /** A check uses up its own timer, and takes the buckets that are due as a whole. */
  lemma CheckTakesDue(s: State, id: EventId)
    ensures var b := BatchStart(s, id);
            && b == s.(timers := b.timers, buckets := b.buckets) && b.timers == s.timers - {id}
            && forall t :: Bucket(b.buckets, t) == if t > s.now then Bucket(s.buckets, t) else []
  {
  }

  /** Clearing cancels the remembered timer, forgets it, and empties the map. */
  lemma ClearExact(s: State)
    requires Sound(s)
    ensures var r := Cleared(s);
            && r.buckets == map[] && r.eventId == 0 && r.nextId == s.nextId && r.stamps == s.stamps
            && (forall id :: id in r.timers <==> id in s.timers && !(id == s.eventId && !s.timers[id].posted))
            && forall id :: id in r.timers ==> r.timers[id] == s.timers[id]
  {
  }

  /** A live item is in the batch of a check at most once. */
  lemma CollectedOnce(s: State, x: Item)
    requires Sound(s) && x in s.alive && x in Expired(s.buckets, s.now)
    ensures multiset(Expired(s.buckets, s.now))[x] == 1
  {
    ExpiredExact(s.buckets, s.now, x);
    var t :| t in s.buckets && t <= s.now && x in s.buckets[t];
    forall k | k in s.buckets ensures NoDuplicates(s.buckets[k]) && (x in s.buckets[k] ==> k == t) {
      assert BucketOk(s, k) && BucketOk(s, t);
    }
    CountInBatch(s.buckets, s.now, x, t);
  }

  lemma {:induction false} CountInBatch(m: Buckets, now: int, x: Item, t: int)
    requires forall k :: k in m ==> NoDuplicates(m[k]) && (x in m[k] ==> k == t)
    ensures multiset(Expired(m, now))[x] == if t in m && t <= now && x in m[t] then 1 else 0
    decreases |m|
  {
    if m != map[] && Least(m.Keys) <= now {
      var k := Least(m.Keys);
      var rest := m - {k};
      assert |rest.Keys| < |m.Keys| by { assert rest.Keys == m.Keys - {k}; }
      CountInBatch(rest, now, x, t);
      if x in m[k] {
        CountOnce(m[k], x);
      }
    }
  }
}
