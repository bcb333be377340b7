/**
 Decaying items (src/decay.cpp): buckets of items by expiry time and one remembered timer.

 Items are identities; a weak reference is alive while its item is in `alive`. A timer is `posted`
 once its delay is over and the check waits in the dispatcher, where cancelling no longer reaches it.
 */
module DecayModel {
  import opened Basics

  const MIN_TASK_INTERVAL := 50
  const INT32_MAX := 0x7FFF_FFFF

  type Item = nat
  type EventId = nat
  type Buckets = map<int, seq<Item>>

  datatype Timer = Timer(due: int, posted: bool)

  datatype State = State(
    now: int, buckets: Buckets, eventId: EventId,
    stamps: map<Item, int>, alive: set<Item>,
    timers: map<EventId, Timer>, nextId: EventId)

  // ---- The earliest key ----

  ghost predicate IsLeast(k: int, keys: set<int>) {
    k in keys && forall j :: j in keys ==> k <= j
  }

  lemma {:induction false} LeastExists(keys: set<int>)
    requires keys != {}
    ensures exists k :: IsLeast(k, keys)
  {
    assert (forall j: int :: j !in keys) ==> keys == {};
    var k :| k in keys;
    if j :| j in keys && j != k {
      var rest := keys - {k};
      assert j in rest && keys == rest + {k};
      LeastExists(rest);
      var m :| IsLeast(m, rest);
      assert IsLeast(if k < m then k else m, keys);
    } else {
      assert IsLeast(k, keys);
    }
  }

  ghost function Least(keys: set<int>): (k: int)
    requires keys != {}
    ensures IsLeast(k, keys)
  {
    LeastExists(keys);
    var k :| IsLeast(k, keys);
    k
  }

  // ---- Scheduler ----

  function Clamp(duration: int): (r: int) { if duration < MIN_TASK_INTERVAL then MIN_TASK_INTERVAL else duration }

  /** A 64-bit difference cut to a signed 32-bit word. */
  function ToInt32(x: int): (r: int) {
    var w := x % 0x1_0000_0000;
    if w > INT32_MAX then w - 0x1_0000_0000 else w
  }

  /** A posted check can no longer be cancelled. */
  function StopEvent(s: State, id: EventId): (r: State) {
    if id in s.timers && !s.timers[id].posted then s.(timers := s.timers - {id}) else s
  }

  function AddEvent(s: State, delay: int): (r: State) {
    s.(timers := s.timers[s.nextId := Timer(s.now + delay, false)], eventId := s.nextId, nextId := s.nextId + 1)
  }

  // ---- Buckets ----

  function IndexIn(b: seq<Item>, x: Item): (i: nat)
    requires x in b
    ensures i < |b| && b[i] == x && x !in b[..i]
  {
    if b[0] == x then 0 else
      var i := 1 + IndexIn(b[1..], x);
      assert b[..i] == [b[0]] + b[1..][..i - 1];
      i
  }

  /** The found entry swapped with the last one, which is dropped. */
  function SwapRemove(b: seq<Item>, x: Item): (r: seq<Item>)
    requires x in b
  {
    b[IndexIn(b, x) := b[|b| - 1]][..|b| - 1]
  }

  lemma SwapRemoveFacts(b: seq<Item>, x: Item)
    requires x in b && NoDuplicates(b)
    ensures NoDuplicates(SwapRemove(b, x))
    ensures forall y :: y in SwapRemove(b, x) <==> y in b && y != x
  {
    var i := IndexIn(b, x);
    var r := SwapRemove(b, x);
    forall y | y in b && y != x ensures y in r {
      var j :| 0 <= j < |b| && b[j] == y;
      assert r[if j == |b| - 1 then i else j] == y;
    }
  }

  function Bucket(m: Buckets, t: int): (b: seq<Item>) { if t in m then m[t] else [] }

  // ---- Operations ----

  function Stopped(s: State, x: Item, t: int): (r: State) {
    if x !in s.alive || t !in s.buckets || x !in s.buckets[t] then s
    else if |s.buckets[t]| == 1 then s.(buckets := s.buckets - {t})
    else s.(buckets := s.buckets[t := SwapRemove(s.buckets[t], x)])
  }

  /** Taken out of the bucket its stamp names, if it has a stamp. */
  function Withdrawn(s: State, x: Item): (r: State) {
    if x in s.stamps then Stopped(s, x, s.stamps[x]) else s
  }

  /** A timer for the new entry if it becomes the earliest; a timer of an empty map is left running. */
  ghost function Armed(s: State, t: int, duration: int): (r: State) {
    if s.buckets == map[] then AddEvent(s, Clamp(duration))
    else if t < Least(s.buckets.Keys) then AddEvent(StopEvent(s, s.eventId), Clamp(duration))
    else s
  }

  function Entered(s: State, x: Item, t: int): (r: State) {
    s.(stamps := s.stamps[x := t], buckets := s.buckets[t := Bucket(s.buckets, t) + [x]])
  }

  ghost function Started(s: State, x: Item, duration: int): (r: State) {
    var t := s.now + duration;
    Entered(Armed(Withdrawn(s, x), t, duration), x, t)
  }

  /** Game::stopDecay: stop, then forget the stamp. */
  function GameStopped(s: State, x: Item): (r: State) {
    if x in s.stamps then Stopped(s, x, s.stamps[x]).(stamps := s.stamps - {x}) else s
  }

  /** Everything that can happen to items between or inside checks. */
  datatype Action = Start(x: Item, duration: int) | Stop(x: Item) | Birth(x: Item) | Death(x: Item)

  ghost predicate Possible(s: State, a: Action) {
    match a
    case Start(x, duration) => x in s.alive && 0 <= duration <= INT32_MAX
    case Birth(x) => x !in s.alive && forall t :: t in s.buckets ==> x !in s.buckets[t]
    case _ => true
  }

  ghost function Act(s: State, a: Action): (r: State) {
    match a
    case Start(x, duration) => Started(s, x, duration)
    case Stop(x) => GameStopped(s, x)
    case Birth(x) => s.(alive := s.alive + {x})
    case Death(x) => s.(alive := s.alive - {x}, stamps := s.stamps - {x})
  }

  ghost predicate AllPossible(s: State, acts: seq<Action>)
    decreases acts
  {
    acts == [] || (Possible(s, acts[0]) && AllPossible(Act(s, acts[0]), acts[1..]))
  }

  ghost function ActAll(s: State, acts: seq<Action>): (r: State)
    decreases acts
  {
    if acts == [] then s else ActAll(Act(s, acts[0]), acts[1..])
  }

  /** The entries of all buckets due, earliest bucket first. */
  ghost function Expired(m: Buckets, now: int): (batch: seq<Item>)
    decreases |m|
  {
    if m == map[] || Least(m.Keys) > now then []
    else m[Least(m.Keys)] + Expired(m - {Least(m.Keys)}, now)
  }

  function Remaining(m: Buckets, now: int): (r: Buckets) {
    map t | t in m && t > now :: m[t]
  }

  /** One hand-over: the item and the stamp it carries at that moment. */
  datatype HandOver = HandOver(x: Item, stamped: bool, stamp: int)

  function HandOverOf(s: State, x: Item): (h: HandOver) {
    if x in s.stamps then HandOver(x, true, s.stamps[x]) else HandOver(x, false, 0)
  }

  /** What the callbacks of the batch do: scripts[i] runs while batch[i] is handed over. */
  ghost predicate ScriptsPossible(s: State, batch: seq<Item>, scripts: seq<seq<Action>>)
    decreases batch
  {
    && |scripts| == |batch|
    && (batch != [] ==>
          if batch[0] in s.alive then
            AllPossible(s, scripts[0]) && ScriptsPossible(ActAll(s, scripts[0]), batch[1..], scripts[1..])
          else scripts[0] == [] && ScriptsPossible(s, batch[1..], scripts[1..]))
  }

  ghost function Processed(s: State, batch: seq<Item>, scripts: seq<seq<Action>>): (r: State)
    requires |scripts| == |batch|
    decreases batch
  {
    if batch == [] then s else Processed(ActAll(s, scripts[0]), batch[1..], scripts[1..])
  }

  ghost function HandOvers(s: State, batch: seq<Item>, scripts: seq<seq<Action>>): (log: seq<HandOver>)
    requires |scripts| == |batch|
    decreases batch
  {
    if batch == [] then []
    else
      (if batch[0] in s.alive then [HandOverOf(s, batch[0])] else []) +
      HandOvers(ActAll(s, scripts[0]), batch[1..], scripts[1..])
  }

  ghost function Rescheduled(s: State): (r: State) {
    if s.buckets == map[] then s
    else AddEvent(if s.eventId != 0 then StopEvent(s, s.eventId) else s, Clamp(ToInt32(Least(s.buckets.Keys) - s.now)))
  }

  /** The state in which the batch of a check starts to be handed over. */
  function BatchStart(s: State, id: EventId): (r: State) {
    s.(timers := s.timers - {id}, buckets := Remaining(s.buckets, s.now))
  }

  ghost function Checked(s: State, id: EventId, scripts: seq<seq<Action>>): (r: State)
    requires |scripts| == |Expired(s.buckets, s.now)|
  {
    Rescheduled(Processed(BatchStart(s, id), Expired(s.buckets, s.now), scripts))
  }

  function Cleared(s: State): (r: State) {
    (if s.eventId != 0 then StopEvent(s, s.eventId).(eventId := 0) else s).(buckets := map[])
  }

  // ---- Invariant ----

  ghost predicate BucketOk(s: State, t: int)
    requires t in s.buckets
  {
    && s.buckets[t] != [] && NoDuplicates(s.buckets[t])
    && t <= s.now + INT32_MAX
    && forall x :: x in s.buckets[t] && x in s.alive ==> x in s.stamps && s.stamps[x] == t
  }

  /** Every bucket is sound and event numbers are never reused. */
  ghost predicate Sound(s: State) {
    && (forall t {:trigger BucketOk(s, t)} {:trigger s.buckets[t]} :: t in s.buckets ==> BucketOk(s, t))
    && (forall id :: id in s.timers ==> 0 < id < s.nextId)
    && s.eventId < s.nextId && 0 < s.nextId
    && s.stamps.Keys <= s.alive
  }

  /** The remembered timer is running or posted and wakes in time for every bucket. */
  ghost predicate Waking(s: State) {
    s.buckets != map[] ==>
      s.eventId in s.timers && forall t :: t in s.buckets ==> s.timers[s.eventId].due <= t + MIN_TASK_INTERVAL
  }

  ghost predicate Inv(s: State) { Sound(s) && Waking(s) }

  lemma StoppedKeeps(s: State, x: Item, t: int)
    requires Sound(s)
    ensures Sound(Stopped(s, x, t))
    ensures forall k :: k in Stopped(s, x, t).buckets ==> k in s.buckets
    ensures x in s.alive && x in s.stamps && s.stamps[x] == t ==>
              forall k :: k in Stopped(s, x, t).buckets ==> x !in Stopped(s, x, t).buckets[k]
  {
    if t in s.buckets {
      assert BucketOk(s, t);
      if x in s.buckets[t] {
        SwapRemoveFacts(s.buckets[t], x);
      }
    }
    var r := Stopped(s, x, t);
    forall k | k in r.buckets ensures BucketOk(r, k) {
      assert BucketOk(s, k);
    }
    if x in s.alive && x in s.stamps && s.stamps[x] == t {
      forall k | k in r.buckets ensures x !in r.buckets[k] {
        assert BucketOk(s, k);
      }
    }
  }

  ghost predicate Absent(m: Buckets, x: Item) { forall k :: k in m ==> x !in m[k] }

  /** A live item whose stamp was taken back is in no bucket. */
  lemma WithdrawnKeeps(s: State, x: Item)
    requires Sound(s) && x in s.alive
    ensures Sound(Withdrawn(s, x)) && Withdrawn(s, x).now == s.now && Withdrawn(s, x).alive == s.alive
    ensures Waking(s) ==> Waking(Withdrawn(s, x))
    ensures Absent(Withdrawn(s, x).buckets, x)
  {
    if x in s.stamps {
      StoppedKeeps(s, x, s.stamps[x]);
    } else {
      forall k | k in s.buckets ensures x !in s.buckets[k] {
        assert BucketOk(s, k);
      }
    }
  }

  lemma ArmedKeeps(s: State, t: int, duration: int)
    requires Sound(s) && t == s.now + duration && 0 <= duration
    ensures Sound(Armed(s, t, duration)) && Armed(s, t, duration).buckets == s.buckets
    ensures Waking(s) ==> Waking(Armed(s, t, duration))
    ensures Waking(s) ==>
              var a := Armed(s, t, duration);
              a.eventId in a.timers && a.timers[a.eventId].due <= t + MIN_TASK_INTERVAL
  {
    var a := Armed(s, t, duration);
    forall k | k in a.buckets ensures BucketOk(a, k) {
      assert BucketOk(s, k);
    }
  }

  lemma StartedKeeps(s: State, x: Item, duration: int)
    requires Sound(s) && Possible(s, Start(x, duration))
    ensures Sound(Started(s, x, duration))
    ensures Waking(s) ==> Waking(Started(s, x, duration))
  {
    WithdrawnKeeps(s, x);
    ArmedThenEntered(Withdrawn(s, x), x, s.now + duration, duration, Started(s, x, duration));
  }

  lemma ArmedThenEntered(w: State, x: Item, t: int, duration: int, r: State)
    requires Sound(w) && x in w.alive && t == w.now + duration && 0 <= duration <= INT32_MAX && Absent(w.buckets, x)
    requires r == Entered(Armed(w, t, duration), x, t)
    ensures Sound(r) && (Waking(w) ==> Waking(r))
  {
    ArmedKeeps(w, t, duration);
    EnteredKeeps(Armed(w, t, duration), x, t);
  }

  /** Entering a live item that is in no bucket, before the timer's horizon. */
  lemma EnteredKeeps(a: State, x: Item, t: int)
    requires Sound(a) && x in a.alive && t <= a.now + INT32_MAX && Absent(a.buckets, x)
    ensures Sound(Entered(a, x, t))
    ensures Waking(a) && a.eventId in a.timers && a.timers[a.eventId].due <= t + MIN_TASK_INTERVAL ==>
            Waking(Entered(a, x, t))
  {
    var r := Entered(a, x, t);
    forall k | k in r.buckets ensures BucketOk(r, k) {
      if k in a.buckets {
        assert BucketOk(a, k);
      }
      assert x !in Bucket(a.buckets, k);
    }
  }

  lemma ActKeeps(s: State, a: Action)
    requires Sound(s) && Possible(s, a)
    ensures Sound(Act(s, a))
    ensures Waking(s) ==> Waking(Act(s, a))
  {
    match a {
      case Start(x, duration) => StartedKeeps(s, x, duration);
      case Stop(x) =>
        if x in s.stamps {
          StoppedKeeps(s, x, s.stamps[x]);
          var r := Act(s, a);
          forall k | k in r.buckets ensures BucketOk(r, k) {
            assert BucketOk(Stopped(s, x, s.stamps[x]), k);
          }
        }
      case Birth(x) =>
        var r := Act(s, a);
        forall k | k in r.buckets ensures BucketOk(r, k) {
          assert BucketOk(s, k);
        }
      case Death(x) =>
        var r := Act(s, a);
        forall k | k in r.buckets ensures BucketOk(r, k) {
          assert BucketOk(s, k);
        }
    }
  }

  /** No key lies in the past. */
  ghost predicate NothingDue(s: State) { forall t :: t in s.buckets ==> t >= s.now }

  lemma ActNothingDue(s: State, a: Action)
    requires Sound(s) && Possible(s, a) && NothingDue(s)
    ensures NothingDue(Act(s, a)) && Act(s, a).now == s.now
  {
  }

  lemma {:induction false} ActAllKeeps(s: State, acts: seq<Action>)
    requires Sound(s) && AllPossible(s, acts) && NothingDue(s)
    ensures Sound(ActAll(s, acts)) && NothingDue(ActAll(s, acts)) && ActAll(s, acts).now == s.now
    decreases acts
  {
    if acts != [] {
      ActKeeps(s, acts[0]);
      ActNothingDue(s, acts[0]);
      ActAllKeeps(Act(s, acts[0]), acts[1..]);
    }
  }

  lemma {:induction false} ProcessedKeeps(s: State, batch: seq<Item>, scripts: seq<seq<Action>>)
    requires Sound(s) && NothingDue(s) && ScriptsPossible(s, batch, scripts)
    ensures Sound(Processed(s, batch, scripts)) && NothingDue(Processed(s, batch, scripts))
    ensures Processed(s, batch, scripts).now == s.now
    decreases batch
  {
    if batch != [] {
      if batch[0] in s.alive {
        ActAllKeeps(s, scripts[0]);
      }
      ProcessedKeeps(ActAll(s, scripts[0]), batch[1..], scripts[1..]);
    }
  }

  /** Cutting the delay to 32 bits loses nothing, and the new timer is in time. */
  lemma RescheduledKeeps(s: State)
    requires Sound(s) && NothingDue(s)
    ensures Inv(Rescheduled(s))
  {
    if s.buckets != map[] {
      var k := Least(s.buckets.Keys);
      assert BucketOk(s, k);
      assert ToInt32(k - s.now) == k - s.now;
      var r := Rescheduled(s);
      forall t | t in r.buckets ensures BucketOk(r, t) {
        assert BucketOk(s, t);
      }
    }
  }

  lemma BatchStartKeeps(s: State, id: EventId)
    requires Sound(s)
    ensures Sound(BatchStart(s, id)) && NothingDue(BatchStart(s, id))
  {
    var r := BatchStart(s, id);
    forall t | t in r.buckets ensures BucketOk(r, t) {
      assert BucketOk(s, t);
    }
  }

  lemma CheckedKeeps(s: State, id: EventId, scripts: seq<seq<Action>>)
    requires Sound(s) && ScriptsPossible(BatchStart(s, id), Expired(s.buckets, s.now), scripts)
    ensures Inv(Checked(s, id, scripts))
  {
    BatchStartKeeps(s, id);
    ProcessedKeeps(BatchStart(s, id), Expired(s.buckets, s.now), scripts);
    RescheduledKeeps(Processed(BatchStart(s, id), Expired(s.buckets, s.now), scripts));
  }

  // ---- Runs ----

  datatype Event =
    | Tick(to: int)
    | Post(id: EventId)
    | Outside(a: Action)
    | Check(id: EventId, scripts: seq<seq<Action>>)
    | Clear

  ghost predicate Enabled(s: State, e: Event) {
    match e
    case Tick(to) => s.now <= to
    case Post(id) => id in s.timers && !s.timers[id].posted && s.timers[id].due <= s.now
    case Outside(a) => Possible(s, a)
    case Check(id, scripts) =>
      id in s.timers && s.timers[id].posted && ScriptsPossible(BatchStart(s, id), Expired(s.buckets, s.now), scripts)
    case Clear => true
  }

  ghost function Next(s: State, e: Event): (r: State)
    requires Enabled(s, e)
  {
    match e
    case Tick(to) => s.(now := to)
    case Post(id) => s.(timers := s.timers[id := s.timers[id].(posted := true)])
    case Outside(a) => Act(s, a)
    case Check(id, scripts) => Checked(s, id, scripts)
    case Clear => Cleared(s)
  }

  lemma NextKeeps(s: State, e: Event)
    requires Inv(s) && Enabled(s, e)
    ensures Inv(Next(s, e))
  {
    match e {
      case Outside(a) => ActKeeps(s, a);
      case Check(id, scripts) => CheckedKeeps(s, id, scripts);
      case Clear =>
      case _ => BookkeepingKeeps(s, e);
    }
  }

  lemma BookkeepingKeeps(s: State, e: Event)
    requires Inv(s) && Enabled(s, e) && (e.Tick? || e.Post?)
    ensures Inv(Next(s, e))
  {
    var r := Next(s, e);
    forall t | t in r.buckets ensures BucketOk(r, t) {
      assert BucketOk(s, t);
    }
  }

  const INITIAL := State(0, map[], 0, map[], {}, map[], 1)

  ghost predicate Run(states: seq<State>, events: seq<Event>) {
    && |states| == |events| + 1 && states[0] == INITIAL
    && forall k :: 0 <= k < |events| ==> Enabled(states[k], events[k]) && states[k + 1] == Next(states[k], events[k])
  }

  lemma {:induction false} RunKeeps(states: seq<State>, events: seq<Event>, k: nat)
    requires Run(states, events) && k <= |events|
    ensures Inv(states[k])
  {
    if k > 0 {
      RunKeeps(states, events, k - 1);
      NextKeeps(states[k - 1], events[k - 1]);
      assert states[k - 1 + 1] == Next(states[k - 1], events[k - 1]);
    }
  }

  /**
   Main result on tracking: in every reachable state a live item found in a bucket is found in one
   bucket only, once, under its own stamp, and a wake-up is on its way that is due no later than
   the stamp plus the scheduler's minimal interval.
   */
  lemma TrackedItem(states: seq<State>, events: seq<Event>, k: nat, t: int, x: Item)
    requires Run(states, events) && k <= |events|
    requires t in states[k].buckets && x in states[k].buckets[t] && x in states[k].alive
    ensures var s := states[k];
            && x in s.stamps && s.stamps[x] == t
            && (forall u :: u in s.buckets && x in s.buckets[u] ==> u == t)
            && multiset(s.buckets[t])[x] == 1
            && s.eventId in s.timers && s.timers[s.eventId].due <= t + MIN_TASK_INTERVAL
  {
    RunKeeps(states, events, k);
    var s := states[k];
    assert BucketOk(s, t);
    forall u | u in s.buckets && x in s.buckets[u] ensures u == t {
      assert BucketOk(s, u);
    }
    CountOnce(s.buckets[t], x);
  }

  lemma {:induction false} CountOnce(b: seq<Item>, x: Item)
    requires NoDuplicates(b) && x in b
    ensures multiset(b)[x] == 1
  {
    var last := b[|b| - 1];
    var front := b[..|b| - 1];
    assert b == front + [last];
    if x in front {
      CountOnce(front, x);
    }
  }

  // ---- Hand-over: complete, and early exactly when restarted inside the batch ----

  /** The batch holds exactly the entries due. */
  lemma {:induction false} ExpiredExact(m: Buckets, now: int, x: Item)
    ensures x in Expired(m, now) <==> exists t :: t in m && t <= now && x in m[t]
    decreases |m|
  {
    if m != map[] && Least(m.Keys) <= now {
      var k := Least(m.Keys);
      var rest := m - {k};
      assert |rest.Keys| < |m.Keys| by { assert rest.Keys == m.Keys - {k}; }
      ExpiredExact(rest, now, x);
      if x in m[k] {
        assert k in m && k <= now;
      }
      if t :| t in rest && t <= now && x in rest[t] {
        assert t in m && t <= now && x in m[t];
      }
      if t :| t in m && t <= now && x in m[t] {
        assert t == k || (t in rest && x in rest[t]);
      }
    }
  }

  /** The last thing the callbacks did to x's stamp was to start it with time left. */
  ghost predicate Restarted(acts: seq<Action>, x: Item) {
    acts != [] &&
    match acts[|acts| - 1]
    case Start(y, duration) => if y == x then duration > 0 else Restarted(acts[..|acts| - 1], x)
    case Stop(y) => y != x && Restarted(acts[..|acts| - 1], x)
    case Birth(y) => y != x && Restarted(acts[..|acts| - 1], x)
    case Death(y) => y != x && Restarted(acts[..|acts| - 1], x)
  }

  /** x carries a stamp in the future. */
  ghost predicate Early(s: State, x: Item) { x in s.stamps && s.stamps[x] > s.now }

  lemma {:induction false} ActAllAppend(s: State, acts: seq<Action>, a: Action)
    ensures ActAll(s, acts + [a]) == Act(ActAll(s, acts), a)
    ensures AllPossible(s, acts + [a]) <==> AllPossible(s, acts) && Possible(ActAll(s, acts), a)
    decreases acts
  {
    if acts == [] {
      assert [a][1..] == [];
      assert ActAll(Act(s, a), []) == Act(s, a);
      assert acts + [a] == [a];
    } else {
      assert (acts + [a])[1..] == acts[1..] + [a];
      ActAllAppend(Act(s, acts[0]), acts[1..], a);
    }
  }

  /** One action changes the stamp of the item it names, and no other. */
  lemma ActStamp(s: State, a: Action, x: Item)
    requires Sound(s) && Possible(s, a)
    ensures Act(s, a).now == s.now
    ensures Early(Act(s, a), x) <==>
            if a.x != x then Early(s, x) else a.Start? && a.duration > 0
  {
  }

  lemma {:induction false} EarlyIffRestarted(s: State, acts: seq<Action>, x: Item)
    requires Sound(s) && NothingDue(s) && AllPossible(s, acts) && !Early(s, x)
    ensures Early(ActAll(s, acts), x) <==> Restarted(acts, x)
    decreases acts
  {
    if acts != [] {
      var front, a := acts[..|acts| - 1], acts[|acts| - 1];
      assert acts == front + [a];
      ActAllAppend(s, front, a);
      EarlyIffRestarted(s, front, x);
      ActAllKeeps(s, front);
      ActStamp(ActAll(s, front), a, x);
    }
  }

  ghost function Flatten(scripts: seq<seq<Action>>): (acts: seq<Action>) {
    if scripts == [] then [] else scripts[0] + Flatten(scripts[1..])
  }

  lemma {:induction false} ActAllConcat(s: State, a: seq<Action>, b: seq<Action>)
    ensures ActAll(s, a + b) == ActAll(ActAll(s, a), b)
    ensures AllPossible(s, a) && AllPossible(ActAll(s, a), b) ==> AllPossible(s, a + b)
    decreases a
  {
    if a == [] {
      assert a + b == b;
    } else {
      assert (a + b)[1..] == a[1..] + b;
      ActAllConcat(Act(s, a[0]), a[1..], b);
    }
  }

  /** The state in which the i-th entry of the batch is handed over. */
  lemma {:induction false} StateAt(s: State, batch: seq<Item>, scripts: seq<seq<Action>>, i: nat)
    requires ScriptsPossible(s, batch, scripts) && i <= |batch|
    ensures AllPossible(s, Flatten(scripts[..i]))
    ensures ScriptsPossible(ActAll(s, Flatten(scripts[..i])), batch[i..], scripts[i..])
    decreases i
  {
    if i == 0 {
      assert batch[0..] == batch && scripts[0..] == scripts && scripts[..0] == [];
    } else {
      var s1 := ActAll(s, scripts[0]);
      StateAt(s1, batch[1..], scripts[1..], i - 1);
      assert scripts[..i][1..] == scripts[1..][..i - 1];
      assert batch[1..][i - 1..] == batch[i..] && scripts[1..][i - 1..] == scripts[i..];
      ActAllConcat(s, scripts[0], Flatten(scripts[1..][..i - 1]));
    }
  }

  /**
   Main result on hand-over. In a check from a sound state, the i-th batch entry, if still alive, is
   handed over before its time exactly when callbacks of earlier entries restarted it with time
   left; without such a restart nothing is handed over early.
   */
  lemma HandOverEarlyIff(s: State, id: EventId, scripts: seq<seq<Action>>, i: nat)
    requires Sound(s)
    requires var batch := Expired(s.buckets, s.now);
             ScriptsPossible(BatchStart(s, id), batch, scripts) && i < |batch|
    ensures var x := Expired(s.buckets, s.now)[i];
            var at := ActAll(BatchStart(s, id), Flatten(scripts[..i]));
            x in s.alive ==> (Early(at, x) <==> Restarted(Flatten(scripts[..i]), x))
  {
    var b := BatchStart(s, id);
    var batch := Expired(s.buckets, s.now);
    var x := batch[i];
    BatchStartKeeps(s, id);
    StateAt(b, batch, scripts, i);
    ExpiredExact(s.buckets, s.now, x);
    var t :| t in s.buckets && t <= s.now && x in s.buckets[t];
    assert BucketOk(s, t);
    if x in s.alive {
      EarlyIffRestarted(b, Flatten(scripts[..i]), x);
    }
  }

  // ---- A run with an early hand-over ----

  /** Two items started for 50 ms, when their timer runs. */
  const BOTH_DUE := State(50, map[50 := [1, 2]], 1, map[1 := 50, 2 := 50], {1, 2}, map[1 := Timer(50, true)], 2)

  /** The callback of item 1 gives item 2 another minute. */
  const RESTART: seq<seq<Action>> := [[Start(2, 60000)], []]

  lemma FirstStart(s: State)
    requires s == State(0, map[], 0, map[], {1, 2}, map[], 1)
    ensures Act(s, Start(1, 50)) == State(0, map[50 := [1]], 1, map[1 := 50], {1, 2}, map[1 := Timer(50, false)], 2)
  {
    assert Bucket(s.buckets, 50) + [1] == [1];
  }

  lemma SecondStart(s: State)
    requires s == State(0, map[50 := [1]], 1, map[1 := 50], {1, 2}, map[1 := Timer(50, false)], 2)
    ensures Act(s, Start(2, 50)) ==
            State(0, map[50 := [1, 2]], 1, map[1 := 50, 2 := 50], {1, 2}, map[1 := Timer(50, false)], 2)
  {
    assert s.buckets.Keys == {50};
    LeastExists(s.buckets.Keys);
    assert Least(s.buckets.Keys) == 50;
    assert [1] + [2] == [1, 2];
  }

  lemma RestartPossible()
    ensures Expired(BOTH_DUE.buckets, 50) == [1, 2]
    ensures Enabled(BOTH_DUE, Check(1, RESTART))
    ensures Early(ActAll(BatchStart(BOTH_DUE, 1), Flatten(RESTART[..1])), 2)
  {
    var s := BOTH_DUE;
    assert s.buckets.Keys == {50};
    LeastExists(s.buckets.Keys);
    assert Least(s.buckets.Keys) == 50 && s.buckets - {50} == map[];
    assert Expired(map[], 50) == [];
    var b := BatchStart(s, 1);
    var s1 := Act(b, Start(2, 60000));
    assert RESTART[0][1..] == [] && ActAll(b, RESTART[0]) == s1 && AllPossible(b, RESTART[0]);
    assert [1, 2][1..] == [2] && RESTART[1..] == [[]] && [2][1..] == [] && ActAll(s1, []) == s1;
    assert ScriptsPossible(s1, [], []);
    assert ScriptsPossible(s1, [2], [[]]);
    assert ScriptsPossible(b, [1, 2], RESTART);
    assert RESTART[..1] == [[Start(2, 60000)]] && RESTART[..1][1..] == [] && Flatten([]) == [];
    assert Flatten(RESTART[..1]) == [Start(2, 60000)];
  }

  /**
   A run in which a callback restarts an item that waits in the same batch: the item is handed over
   at once, although its stamp is a minute away.
   */
  lemma EarlyHandOverHappens()
    ensures exists states: seq<State>, events: seq<Event> ::
              && Run(states, events) && |events| == 7 && events[6] == Check(1, RESTART)
              && Expired(states[6].buckets, states[6].now) == [1, 2]
              && Early(ActAll(BatchStart(states[6], 1), Flatten(RESTART[..1])), 2)
  {
    RestartPossible();
    var events := [Outside(Birth(1)), Outside(Birth(2)), Outside(Start(1, 50)), Outside(Start(2, 50)), Tick(50),
        Post(1), Check(1, RESTART)];
    var states := BeforeCheck() + [Next(BOTH_DUE, Check(1, RESTART))];
    forall k | 0 <= k < |events| ensures Enabled(states[k], events[k]) && states[k + 1] == Next(states[k], events[k]) {
      if k < 6 {
        BeforeCheckSteps(events[k], k);
      }
    }
    assert Run(states, events) && states[6] == BOTH_DUE;
  }

  ghost function BeforeCheck(): (states: seq<State>) {
    var timer := map[1 := Timer(50, false)];
    [INITIAL,
     State(0, map[], 0, map[], {1}, map[], 1),
     State(0, map[], 0, map[], {1, 2}, map[], 1),
     State(0, map[50 := [1]], 1, map[1 := 50], {1, 2}, timer, 2),
     State(0, map[50 := [1, 2]], 1, map[1 := 50, 2 := 50], {1, 2}, timer, 2),
     State(50, map[50 := [1, 2]], 1, map[1 := 50, 2 := 50], {1, 2}, timer, 2),
     BOTH_DUE]
  }

  lemma BeforeCheckSteps(e: Event, k: nat)
    requires k < 6
    requires e == [Outside(Birth(1)), Outside(Birth(2)), Outside(Start(1, 50)), Outside(Start(2, 50)), Tick(50),
             Post(1)][k]
    ensures Enabled(BeforeCheck()[k], e) && BeforeCheck()[k + 1] == Next(BeforeCheck()[k], e)
  {
    var s := BeforeCheck()[k];
    if k == 2 {
      FirstStart(s);
    } else if k == 3 {
      SecondStart(s);
    } else if k == 5 {
      assert s.timers[1 := s.timers[1].(posted := true)] == BOTH_DUE.timers;
    }
  }

  // ---- How late anything can be ----

  ghost predicate TimersAhead(s: State) { forall id :: id in s.timers ==> s.now <= s.timers[id].due }

  lemma ActAhead(s: State, a: Action)
    requires TimersAhead(s) && Possible(s, a)
    ensures TimersAhead(Act(s, a)) && Act(s, a).now == s.now
  {
    if a.Start? {
      var w := Withdrawn(s, a.x);
      assert w.timers == s.timers && w.now == s.now;
    }
  }

  lemma {:induction false} ActAllAhead(s: State, acts: seq<Action>)
    requires TimersAhead(s) && AllPossible(s, acts)
    ensures TimersAhead(ActAll(s, acts))
    decreases acts
  {
    if acts != [] {
      ActAhead(s, acts[0]);
      ActAllAhead(Act(s, acts[0]), acts[1..]);
    }
  }

  lemma {:induction false} ProcessedAhead(s: State, batch: seq<Item>, scripts: seq<seq<Action>>)
    requires TimersAhead(s) && ScriptsPossible(s, batch, scripts)
    ensures TimersAhead(Processed(s, batch, scripts))
    decreases batch
  {
    if batch != [] {
      if batch[0] in s.alive {
        ActAllAhead(s, scripts[0]);
      }
      ProcessedAhead(ActAll(s, scripts[0]), batch[1..], scripts[1..]);
    }
  }

  /** The clock only moves up to the earliest due time: timers are posted and run before it passes. */
  ghost predicate Punctual(states: seq<State>, events: seq<Event>)
    requires Run(states, events)
  {
    forall k, id :: 0 <= k < |events| && events[k].Tick? && id in states[k].timers ==>
        events[k].to <= states[k].timers[id].due
  }

  lemma NextAhead(s: State, e: Event)
    requires Enabled(s, e) && TimersAhead(s)
    requires e.Tick? ==> forall id :: id in s.timers ==> e.to <= s.timers[id].due
    ensures TimersAhead(Next(s, e))
  {
    match e {
      case Outside(a) => ActAhead(s, a);
      case Check(id, scripts) => ProcessedAhead(BatchStart(s, id), Expired(s.buckets, s.now), scripts);
      case _ =>
    }
  }

  lemma {:induction false} RunAhead(states: seq<State>, events: seq<Event>, k: nat)
    requires Run(states, events) && Punctual(states, events) && k <= |events|
    ensures TimersAhead(states[k])
  {
    if k > 0 {
      RunAhead(states, events, k - 1);
      NextAhead(states[k - 1], events[k - 1]);
      assert states[k - 1 + 1] == Next(states[k - 1], events[k - 1]);
    }
  }

  /** With punctual timers nothing stays tracked for more than the scheduler's minimal interval after its time. */
  lemma NothingLeftLate(states: seq<State>, events: seq<Event>, k: nat, t: int)
    requires Run(states, events) && Punctual(states, events) && k <= |events| && t in states[k].buckets
    ensures states[k].now - MIN_TASK_INTERVAL <= t
  {
    RunKeeps(states, events, k);
    RunAhead(states, events, k);
  }
}
