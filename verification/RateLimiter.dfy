/**
 The connection rate limiter (src/connection_rate_limiter.cpp): a table of addresses and an index
 of their expiry times, tied together by stored iterators.

 The index is a sequence ordered by key; equal keys keep their order of insertion. An iterator is the
 number of the node it points to. Times are milliseconds and unbounded; counters are 32-bit words.
 */
module RateLimiter {
  import opened Basics

  const CLEANUP_INTERVAL := 60_000
  const ENTRY_LIFETIME := 300_000
  const ATTEMPT_WINDOW := 5_000
  const CLEANUP_BATCH_SIZE := 256
  const CLEANUP_DIVISOR := 8
  const MAX_ENTRIES := 65_536

  type Ip = nat
  type NodeId = nat

  datatype Node = Node(key: nat, ip: Ip, id: NodeId)
  datatype Entry = Entry(lastAttempt: nat, blockUntil: nat, count: nat, totalBlocks: nat, expiry: Option<NodeId>)
  datatype State = State(entries: map<Ip, Entry>, index: seq<Node>, lastCleanup: nat, nextId: NodeId)
  datatype Verdict = Verdict(allowed: bool, blockStarted: bool, blockDuration: nat, totalBlocks: nat)

  const ALLOWED := Verdict(true, false, 0, 0)
  const INITIAL := State(map[], [], 0, 0)

  /** Blocks get longer with their number, and never exceed the lifetime of an entry. */
  function BlockDuration(totalBlocks: nat): (d: nat)
    ensures 3_000 <= d <= ENTRY_LIFETIME
  {
    if totalBlocks >= 10 then 300_000
    else if totalBlocks >= 5 then 60_000
    else if totalBlocks >= 3 then 15_000
    else 3_000
  }

  lemma BlocksEscalate(a: nat, b: nat)
    requires a <= b
    ensures BlockDuration(a) <= BlockDuration(b)
  {
  }

  // ---- The ordered index ----

  function Without(index: seq<Node>, id: NodeId): (r: seq<Node>) {
    if index == [] then []
    else if index[0].id == id then index[1..]
    else [index[0]] + Without(index[1..], id)
  }

  /** multimap::emplace: after every node with a key not above the new one. */
  function Placed(index: seq<Node>, n: Node): (r: seq<Node>) {
    if index == [] || index[|index| - 1].key <= n.key then index + [n]
    else Placed(index[..|index| - 1], n) + [index[|index| - 1]]
  }

  ghost predicate Sorted(index: seq<Node>) { forall i, j :: 0 <= i < j < |index| ==> index[i].key <= index[j].key }

  ghost predicate Distinct(index: seq<Node>) { forall i, j :: 0 <= i < j < |index| ==> index[i].id != index[j].id }

  lemma {:induction false} WithoutFacts(index: seq<Node>, id: NodeId)
    requires Distinct(index) && Sorted(index)
    ensures Distinct(Without(index, id)) && Sorted(Without(index, id))
    ensures forall n :: n in Without(index, id) <==> n in index && n.id != id
  {
    if index != [] {
      var rest := index[1..];
      WithoutFacts(rest, id);
      assert index == [index[0]] + rest;
      assert forall n :: n in rest ==> n.id != index[0].id && n.key >= index[0].key;
      if index[0].id != id {
        PrependKeeps(index[0], Without(rest, id));
      }
    }
  }

  lemma PrependKeeps(n: Node, index: seq<Node>)
    requires Distinct(index) && Sorted(index) && forall m :: m in index ==> m.id != n.id && m.key >= n.key
    ensures Distinct([n] + index) && Sorted([n] + index)
  {
    assert forall i :: 0 <= i < |index| ==> index[i] in index;
  }

  // ---- Operations ----

  function Refreshed(s: State, ip: Ip): (r: State)
    requires ip in s.entries
  {
    var e := s.entries[ip];
    var index := if e.expiry.Some? then Without(s.index, e.expiry.value) else s.index;
    var key := Max(e.blockUntil, e.lastAttempt + ENTRY_LIFETIME + 1);
    s.(index := Placed(index, Node(key, ip, s.nextId)),
       entries := s.entries[ip := e.(expiry := Some(s.nextId))],
       nextId := s.nextId + 1)
  }

  function OldestErased(s: State): (r: State)
    requires s.index != []
  {
    var n := s.index[0];
    s.(index := s.index[1..],
       entries := if n.ip in s.entries && s.entries[n.ip].expiry == Some(n.id) then s.entries - {n.ip} else s.entries)
  }

  /** The periodic sweep: at most `batch` entries from the front, none before its time. */
  function Swept(s: State, now: nat, batch: nat): (r: State)
    decreases batch
  {
    if batch == 0 || s.index == [] || s.index[0].key > now then s
    else Swept(OldestErased(s), now, batch - 1)
  }

  /** The hard ceiling. */
  function Evicted(s: State): (r: State)
    decreases |s.index|
  {
    if |s.entries| <= MAX_ENTRIES || s.index == [] then s else Evicted(OldestErased(s))
  }

  predicate SweepDue(lastCleanup: nat, now: nat) {
    lastCleanup == 0 || (now - lastCleanup) % LONG_WORD >= CLEANUP_INTERVAL
  }

  function SweptIfDue(s: State, now: nat): (r: State) {
    if SweepDue(s.lastCleanup, now) then
      Swept(s.(lastCleanup := now), now, Max(CLEANUP_BATCH_SIZE, |s.entries| / CLEANUP_DIVISOR))
    else s
  }

  function Cleaned(s: State, now: nat): (r: State) { Evicted(SweptIfDue(s, now)) }

  /** A known address that is not blocked tries again. */
  function Attempted(e: Entry, now: nat, allowed: nat, minimumInterval: nat): (r: (Entry, Verdict))
  {
    var elapsed := (now - e.lastAttempt) % LONG_WORD;
    var f := e.(lastAttempt := now, blockUntil := 0);
    if elapsed <= ATTEMPT_WINDOW then
      var count := (e.count + 1) % WORD;
      if count > allowed then
        if elapsed <= minimumInterval then
          var blocks := (e.totalBlocks + 1) % WORD;
          var d := BlockDuration(blocks);
          (f.(count := 0, totalBlocks := blocks, blockUntil := now + d), Verdict(false, true, d, blocks))
        else (f.(count := 0), ALLOWED)
      else (f.(count := count), ALLOWED)
    else
      (f.(count := 1, totalBlocks := if elapsed > CLEANUP_INTERVAL && e.totalBlocks > 0 then e.totalBlocks - 1
          else e.totalBlocks),
       ALLOWED)
  }

  function Admitted(s: State, ip: Ip, now: nat, allowed: nat, minimumInterval: nat): (r: (State, Verdict)) {
    if ip !in s.entries then
      (Refreshed(s.(entries := s.entries[ip := Entry(now, 0, 1, 0, None)]), ip), ALLOWED)
    else
      var e := s.entries[ip];
      if e.blockUntil > now then (s, Verdict(false, false, 0, e.totalBlocks))
      else
        var (f, verdict) := Attempted(e, now, allowed, minimumInterval);
        (Refreshed(s.(entries := s.entries[ip := f]), ip), verdict)
  }

  // ---- Invariant ----

  ghost predicate NodeOk(s: State, n: Node) {
    && n.ip in s.entries && s.entries[n.ip].expiry == Some(n.id) && n.id < s.nextId
    && n.key == s.entries[n.ip].lastAttempt + ENTRY_LIFETIME + 1
  }

  ghost predicate EntryOk(s: State, ip: Ip, now: nat) {
    && ip in s.entries
    && var e := s.entries[ip];
    && e.lastAttempt <= now && e.blockUntil <= e.lastAttempt + ENTRY_LIFETIME
    && e.expiry.Some? && Node(e.lastAttempt + ENTRY_LIFETIME + 1, ip, e.expiry.value) in s.index
  }

  /** Entries and index nodes correspond one to one through the stored iterators. */
  ghost predicate Inv(s: State, now: nat) {
    && Sorted(s.index) && Distinct(s.index)
    && (forall n {:trigger NodeOk(s, n)} {:trigger n in s.index} :: n in s.index ==> NodeOk(s, n))
    && (forall ip {:trigger EntryOk(s, ip, now)} :: ip in s.entries ==> EntryOk(s, ip, now))
    && s.lastCleanup <= now
  }

  lemma Later(s: State, now: nat, later: nat)
    requires Inv(s, now) && now <= later
    ensures Inv(s, later)
  {
    forall ip | ip in s.entries ensures EntryOk(s, ip, later) {
      assert EntryOk(s, ip, now);
    }
  }

  /** No later node names the address of the front one. */
  lemma FrontOnce(s: State, now: nat, n: Node)
    requires Inv(s, now) && s.index != [] && n in s.index[1..]
    ensures n.ip != s.index[0].ip
  {
    var k :| 0 <= k < |s.index[1..]| && s.index[1..][k] == n;
    assert s.index[k + 1].id != s.index[0].id;
    assert NodeOk(s, s.index[k + 1]) && NodeOk(s, s.index[0]);
  }

  lemma Step0(s: State)
    requires s.index != []
    ensures s.index == [s.index[0]] + s.index[1..]
  {
  }

  /** Dropping the front drops exactly one address: the one whose last attempt is oldest. */
  lemma EraseKeeps(s: State, now: nat)
    requires Inv(s, now) && s.index != []
    ensures Inv(OldestErased(s), now)
    ensures s.index[0].ip in s.entries && OldestErased(s).entries == s.entries - {s.index[0].ip}
    ensures forall ip :: ip in s.entries ==> s.entries[s.index[0].ip].lastAttempt <= s.entries[ip].lastAttempt
  {
    var front := s.index[0];
    assert front in s.index && NodeOk(s, front);
    var r := OldestErased(s);
    Step0(s);
    forall n | n in r.index ensures NodeOk(r, n) {
      assert n in s.index && NodeOk(s, n);
      FrontOnce(s, now, n);
    }
    forall ip | ip in r.entries ensures EntryOk(r, ip, now) {
      assert EntryOk(s, ip, now);
    }
    forall ip | ip in s.entries ensures s.entries[front.ip].lastAttempt <= s.entries[ip].lastAttempt {
      assert EntryOk(s, ip, now);
      var n := Node(s.entries[ip].lastAttempt + ENTRY_LIFETIME + 1, ip, s.entries[ip].expiry.value);
      var k :| 0 <= k < |s.index| && s.index[k] == n;
      assert s.index[0].key <= s.index[k].key;
    }
  }

  /** The sweep keeps the invariant and removes no entry within its lifetime, nor one whose block is still active. */
  lemma {:induction false} SweptKeeps(s: State, now: nat, batch: nat)
    requires Inv(s, now)
    ensures Inv(Swept(s, now, batch), now)
    ensures forall ip :: ip in Swept(s, now, batch).entries ==>
            ip in s.entries && Swept(s, now, batch).entries[ip] == s.entries[ip]
    ensures forall ip :: ip in s.entries && ip !in Swept(s, now, batch).entries ==>
              s.entries[ip].blockUntil < now && s.entries[ip].lastAttempt + ENTRY_LIFETIME < now
    decreases batch
  {
    if batch != 0 && s.index != [] && s.index[0].key <= now {
      assert NodeOk(s, s.index[0]) && EntryOk(s, s.index[0].ip, now);
      EraseKeeps(s, now);
      SweptKeeps(OldestErased(s), now, batch - 1);
    }
  }

  /** As many index nodes as entries. */
  lemma {:induction false} IndexCounts(s: State, now: nat)
    requires Inv(s, now)
    ensures |s.index| == |s.entries|
    decreases |s.index|
  {
    if s.index == [] {
      assert forall ip :: ip in s.entries ==> EntryOk(s, ip, now);
      assert s.entries == map[];
    } else {
      EraseKeeps(s, now);
      var r := OldestErased(s);
      IndexCounts(r, now);
      assert s.entries.Keys == r.entries.Keys + {s.index[0].ip};
      assert |r.entries.Keys| == |r.entries| && |s.entries.Keys| == |s.entries|;
    }
  }

  ghost predicate InFirst(s: State, k: int, ip: Ip) { exists i :: 0 <= i < k && i < |s.index| && s.index[i].ip == ip }

  /**
   The ceiling evicts exactly the surplus, from the front of the index: an address goes if and only
   if it is among the |entries| - 65536 whose last counted attempt is oldest, blocked or not.
   */
  lemma {:induction false} EvictedExactly(s: State, now: nat)
    requires Inv(s, now)
    ensures Inv(Evicted(s), now)
    ensures |Evicted(s).entries| == if |s.entries| <= MAX_ENTRIES then |s.entries| else MAX_ENTRIES
    ensures forall ip :: ip in Evicted(s).entries ==> ip in s.entries && Evicted(s).entries[ip] == s.entries[ip]
    ensures forall ip :: ip in s.entries ==> (ip !in Evicted(s).entries <==> InFirst(s, |s.entries| - MAX_ENTRIES, ip))
    decreases |s.index|
  {
    IndexCounts(s, now);
    if |s.entries| > MAX_ENTRIES {
      EraseKeeps(s, now);
      var r := OldestErased(s);
      IndexCounts(r, now);
      EvictedExactly(r, now);
      var k := |s.entries| - MAX_ENTRIES;
      forall ip | ip in s.entries ensures ip !in Evicted(s).entries <==> InFirst(s, k, ip) {
        FirstShifts(s, r, now, k, ip);
      }
    }
  }

  lemma FirstShifts(s: State, r: State, now: nat, k: int, ip: Ip)
    requires Inv(s, now) && s.index != [] && r == OldestErased(s) && k > 0
    ensures InFirst(s, k, ip) <==> ip == s.index[0].ip || InFirst(r, k - 1, ip)
  {
    if InFirst(s, k, ip) {
      var i :| 0 <= i < k && i < |s.index| && s.index[i].ip == ip;
      assert i > 0 ==> r.index[i - 1].ip == ip;
    }
    if InFirst(r, k - 1, ip) {
      var i :| 0 <= i < k - 1 && i < |r.index| && r.index[i].ip == ip;
      assert s.index[i + 1].ip == ip;
    }
  }

  /**
   The sweep takes nodes off the front as long as they are expired, up to the batch, and with each of
   them its address.
   */
  lemma {:induction false} SweptExactly(s: State, now: nat, batch: nat) returns (n: nat)
    requires Inv(s, now)
    ensures n <= batch && n <= |s.index| && (n == batch || n == |s.index| || s.index[n].key > now)
    ensures forall i :: 0 <= i < n ==> s.index[i].key <= now
    ensures Swept(s, now, batch).index == s.index[n..]
    ensures forall ip :: ip in s.entries ==> (ip !in Swept(s, now, batch).entries <==> InFirst(s, n, ip))
    decreases batch
  {
    if batch == 0 || s.index == [] || s.index[0].key > now {
      n := 0;
    } else {
      EraseKeeps(s, now);
      var r := OldestErased(s);
      var m := SweptExactly(r, now, batch - 1);
      n := m + 1;
      assert forall i :: 0 < i < n ==> s.index[i] == r.index[i - 1];
      forall ip | ip in s.entries ensures ip !in Swept(s, now, batch).entries <==> InFirst(s, n, ip) {
        FirstShifts(s, r, now, n, ip);
        SweptKeeps(r, now, batch - 1);
      }
    }
  }

  /**
   The first call, and then the first one a minute after the last sweep, sweeps: an expired entry is left
   only if 256 of them, and an eighth of all entries, went.
   */
  lemma SweepOnTime(s: State, now: nat)
    requires Inv(s, now) && now < LONG_WORD
    ensures var t := SweptIfDue(s, now);
            if s.lastCleanup == 0 || now - s.lastCleanup >= 60_000 then
              t.lastCleanup == now && exists n: nat ::
                && n <= |s.index| && t.index == s.index[n..]
                && (n < |s.index| && s.index[n].key <= now ==> n >= 256 && n >= |s.entries| / 8)
            else t == s
  {
    assert (now - s.lastCleanup) % LONG_WORD == now - s.lastCleanup;
    if SweepDue(s.lastCleanup, now) {
      NotedKeeps(s, now);
      var n := SweptExactly(s.(lastCleanup := now), now, Max(CLEANUP_BATCH_SIZE, |s.entries| / CLEANUP_DIVISOR));
      SweptNotes(s.(lastCleanup := now), now, Max(CLEANUP_BATCH_SIZE, |s.entries| / CLEANUP_DIVISOR));
    }
  }

  lemma {:induction false} SweptNotes(s: State, now: nat, batch: nat)
    ensures Swept(s, now, batch).lastCleanup == s.lastCleanup
    decreases batch
  {
    if batch != 0 && s.index != [] && s.index[0].key <= now {
      SweptNotes(OldestErased(s), now, batch - 1);
    }
  }

  lemma CleanedKeeps(s: State, now: nat)
    requires Inv(s, now)
    ensures Inv(Cleaned(s, now), now)
    ensures |Cleaned(s, now).entries| <= MAX_ENTRIES
    ensures forall ip :: ip in Cleaned(s, now).entries ==>
            ip in s.entries && Cleaned(s, now).entries[ip] == s.entries[ip]
  {
    SweptIfDueKeeps(s, now);
    EvictedExactly(SweptIfDue(s, now), now);
  }

  lemma SweptIfDueKeeps(s: State, now: nat)
    requires Inv(s, now)
    ensures Inv(SweptIfDue(s, now), now)
    ensures forall ip :: ip in SweptIfDue(s, now).entries ==>
            ip in s.entries && SweptIfDue(s, now).entries[ip] == s.entries[ip]
    ensures forall ip :: ip in s.entries && ip !in SweptIfDue(s, now).entries ==>
              s.entries[ip].blockUntil < now && s.entries[ip].lastAttempt + ENTRY_LIFETIME < now
  {
    if SweepDue(s.lastCleanup, now) {
      NotedKeeps(s, now);
      SweepKeeps(s.(lastCleanup := now), now, Max(CLEANUP_BATCH_SIZE, |s.entries| / CLEANUP_DIVISOR),
          SweptIfDue(s, now));
    }
  }

  lemma SweepKeeps(s: State, now: nat, batch: nat, r: State)
    requires Inv(s, now) && r == Swept(s, now, batch)
    ensures Inv(r, now)
    ensures forall ip :: ip in r.entries ==> ip in s.entries && r.entries[ip] == s.entries[ip]
    ensures forall ip :: ip in s.entries && ip !in r.entries ==>
              s.entries[ip].blockUntil < now && s.entries[ip].lastAttempt + ENTRY_LIFETIME < now
  {
    SweptKeeps(s, now, batch);
  }

  lemma NotedKeeps(s: State, now: nat)
    requires Inv(s, now)
    ensures Inv(s.(lastCleanup := now), now)
  {
    var t := s.(lastCleanup := now);
    forall n | n in t.index ensures NodeOk(t, n) {
      assert NodeOk(s, n);
    }
    forall ip | ip in t.entries ensures EntryOk(t, ip, now) {
      assert EntryOk(s, ip, now);
    }
  }

  /** The index without the node of an address, if it has one. */
  function Dropped(s: State, ip: Ip): (index: seq<Node>) {
    if ip in s.entries && s.entries[ip].expiry.Some? then Without(s.index, s.entries[ip].expiry.value) else s.index
  }

  lemma DroppedFacts(s: State, ip: Ip, now: nat)
    requires Inv(s, now)
    ensures Sorted(Dropped(s, ip)) && Distinct(Dropped(s, ip))
    ensures forall n :: n in Dropped(s, ip) ==>
              n in s.index && n.ip != ip && n.key <= now + ENTRY_LIFETIME + 1 && n.id < s.nextId
  {
    if ip in s.entries {
      assert EntryOk(s, ip, now);
      WithoutFacts(s.index, s.entries[ip].expiry.value);
    }
    forall n | n in Dropped(s, ip)
        ensures n in s.index && n.ip != ip && n.key <= now + ENTRY_LIFETIME + 1 && n.id < s.nextId {
      assert NodeOk(s, n);
      assert EntryOk(s, n.ip, now);
    }
  }

  /** Writing an entry attempted now, then refreshing it, puts its node last. */
  lemma RefreshKeeps(s: State, ip: Ip, e: Entry, now: nat)
    requires Inv(s, now)
    requires e.lastAttempt == now && e.blockUntil <= now + ENTRY_LIFETIME
    requires e.expiry == if ip in s.entries then s.entries[ip].expiry else None
    ensures Inv(Refreshed(s.(entries := s.entries[ip := e]), ip), now)
  {
    var r := Refreshed(s.(entries := s.entries[ip := e]), ip);
    var index := Dropped(s, ip);
    var node := Node(now + ENTRY_LIFETIME + 1, ip, s.nextId);
    DroppedFacts(s, ip, now);
    LastPlaced(index, node);
    assert r.index == index + [node];
    AppendKeeps(index, node);
    assert r.entries == s.entries[ip := e.(expiry := Some(s.nextId))];
    ReplacedKeeps(s, r, ip, now, node);
  }

  /** Nodes and entries of the other addresses are untouched by a refresh. */
  lemma ReplacedKeeps(s: State, r: State, ip: Ip, now: nat, node: Node)
    requires Inv(s, now) && r.index == Dropped(s, ip) + [node] && Sorted(r.index) && Distinct(r.index)
    requires r.lastCleanup == s.lastCleanup && r.nextId == s.nextId + 1 &&
             node == Node(now + ENTRY_LIFETIME + 1, ip, s.nextId)
    requires ip in r.entries && r.entries == s.entries[ip := r.entries[ip]] && r.entries[ip].expiry == Some(s.nextId)
    requires r.entries[ip].lastAttempt == now && r.entries[ip].blockUntil <= now + ENTRY_LIFETIME
    ensures Inv(r, now)
  {
    var index := Dropped(s, ip);
    DroppedFacts(s, ip, now);
    forall n | n in r.index ensures NodeOk(r, n) {
      if n != node {
        assert n in index && NodeOk(s, n);
      }
    }
    forall a | a in r.entries ensures EntryOk(r, a, now) {
      if a != ip {
        assert EntryOk(s, a, now);
        OtherNodeStays(s, ip, a, now);
      } else {
        assert r.index[|index|] == node;
      }
    }
  }

  lemma AppendKeeps(index: seq<Node>, n: Node)
    requires Sorted(index) && Distinct(index) && forall m :: m in index ==> m.key <= n.key && m.id < n.id
    ensures Sorted(index + [n]) && Distinct(index + [n])
  {
    assert forall i :: 0 <= i < |index| ==> index[i] in index;
  }

  lemma OtherNodeStays(s: State, ip: Ip, a: Ip, now: nat)
    requires Inv(s, now) && a in s.entries && a != ip && EntryOk(s, a, now)
    ensures Node(s.entries[a].lastAttempt + ENTRY_LIFETIME + 1, a, s.entries[a].expiry.value) in Dropped(s, ip)
  {
    if ip in s.entries {
      assert EntryOk(s, ip, now);
      var id := s.entries[ip].expiry.value;
      var m := Node(s.entries[ip].lastAttempt + ENTRY_LIFETIME + 1, ip, id);
      var n := Node(s.entries[a].lastAttempt + ENTRY_LIFETIME + 1, a, s.entries[a].expiry.value);
      WithoutFacts(s.index, id);
      var i :| 0 <= i < |s.index| && s.index[i] == m;
      var j :| 0 <= j < |s.index| && s.index[j] == n;
      assert i != j;
    }
  }

  lemma LastPlaced(index: seq<Node>, n: Node)
    requires forall m :: m in index ==> m.key <= n.key
    ensures Placed(index, n) == index + [n]
  {
    if index != [] {
      assert index[|index| - 1] in index;
    }
  }

  // ---- One call ----

  datatype Call = Call(ip: Ip, now: nat, allowed: nat, minimumInterval: nat)

  function Checked(s: State, c: Call): (r: (State, Verdict)) {
    Admitted(Cleaned(s, c.now), c.ip, c.now, c.allowed, c.minimumInterval)
  }

  /** The correspondence survives every call, and at most 65,537 addresses are tracked afterwards. */
  lemma CheckKeeps(s: State, c: Call)
    requires Inv(s, c.now)
    ensures Inv(Checked(s, c).0, c.now)
    ensures |Checked(s, c).0.entries| <= 65_537
  {
    CleanedKeeps(s, c.now);
    var t := Cleaned(s, c.now);
    if c.ip !in t.entries {
      RefreshKeeps(t, c.ip, Entry(c.now, 0, 1, 0, None), c.now);
      assert Checked(s, c).0.entries.Keys == t.entries.Keys + {c.ip};
    } else {
      assert EntryOk(t, c.ip, c.now);
      if t.entries[c.ip].blockUntil <= c.now {
        var f := Attempted(t.entries[c.ip], c.now, c.allowed, c.minimumInterval).0;
        RefreshKeeps(t, c.ip, f, c.now);
        assert Checked(s, c).0.entries.Keys == t.entries.Keys;
      }
    }
  }

  // ---- When a block starts ----

  /** Three seconds for the first two blocks, then 15, a minute from the fifth, five minutes from the tenth. */
  ghost predicate Lasts(blocks: nat, d: nat) {
    && (blocks <= 2 ==> d == 3_000) && (3 <= blocks <= 4 ==> d == 15_000)
    && (5 <= blocks <= 9 ==> d == 60_000) && (10 <= blocks ==> d == 300_000)
  }

  /**
   A known address that is not blocked calls: e and f are its entries before and after. A block starts
   exactly if the call comes within the window and the minimal interval, and is one too many.
   */
  ghost predicate Counts(e: Entry, c: Call, f: Entry, v: Verdict) {
    var elapsed, count := c.now - e.lastAttempt, (e.count + 1) % WORD;
    && (v.blockStarted <==> elapsed <= 5_000 && elapsed <= c.minimumInterval && count > c.allowed)
    && v.allowed == !v.blockStarted && f.lastAttempt == c.now
    && (elapsed <= 5_000 ==> f.count == if count > c.allowed then 0 else count)
    && (elapsed > 5_000 ==> f.count == 1)
    && (v.blockStarted ==>
          && f.totalBlocks == v.totalBlocks == (e.totalBlocks + 1) % WORD
          && Lasts(v.totalBlocks, v.blockDuration) && f.blockUntil == c.now + v.blockDuration)
    && (!v.blockStarted ==>
          && v == Verdict(true, false, 0, 0) && f.blockUntil == 0
          && f.totalBlocks == e.totalBlocks - if elapsed > 60_000 && e.totalBlocks > 0 then 1 else 0)
  }

  lemma AttemptCounts(e: Entry, c: Call)
    requires e.lastAttempt <= c.now < LONG_WORD
    ensures var (f, v) := Attempted(e, c.now, c.allowed, c.minimumInterval); Counts(e, c, f, v)
  {
    assert (c.now - e.lastAttempt) % LONG_WORD == c.now - e.lastAttempt;
  }

  /** What a call does behind the cleanup, which left t: r and v are its state and answer. */
  ghost predicate Answers(t: State, c: Call, r: State, v: Verdict) {
    && c.ip in r.entries && r.entries - {c.ip} == t.entries - {c.ip}
    && (c.ip !in t.entries ==>
          && v == Verdict(true, false, 0, 0)
          && r.entries[c.ip] == Entry(c.now, 0, 1, 0, r.entries[c.ip].expiry))
    && (c.ip in t.entries && t.entries[c.ip].blockUntil > c.now ==>
          r == t && v == Verdict(false, false, 0, t.entries[c.ip].totalBlocks))
    && (c.ip in t.entries && t.entries[c.ip].blockUntil <= c.now ==> Counts(t.entries[c.ip], c, r.entries[c.ip], v))
  }

  /** Main result on one call. */
  lemma CheckAnswers(s: State, c: Call)
    requires Inv(s, c.now) && c.now < LONG_WORD
    ensures var (r, v) := Checked(s, c); Answers(Cleaned(s, c.now), c, r, v)
  {
    CleanedKeeps(s, c.now);
    var t := Cleaned(s, c.now);
    if c.ip in t.entries {
      assert EntryOk(t, c.ip, c.now);
      AttemptCounts(t.entries[c.ip], c);
    }
  }

  // ---- Runs ----

  /** The calls of a run, with a clock that never goes back. */
  ghost predicate Run(states: seq<State>, calls: seq<Call>) {
    && |states| == |calls| + 1 && states[0] == INITIAL
    && (forall k :: 0 <= k < |calls| - 1 ==> calls[k].now <= calls[k + 1].now)
    && forall k :: 0 <= k < |calls| ==> states[k + 1] == Checked(states[k], calls[k]).0
  }

  lemma {:induction false} RunKeeps(states: seq<State>, calls: seq<Call>, k: nat)
    requires Run(states, calls) && k < |calls|
    ensures Inv(states[k], calls[k].now) && Inv(states[k + 1], calls[k].now)
    ensures |states[k + 1].entries| <= MAX_ENTRIES + 1
  {
    if k > 0 {
      RunKeeps(states, calls, k - 1);
      Waits(states, calls, k - 1);
    }
    assert k == 0 ==> Inv(INITIAL, calls[0].now);
    Steps(states, calls, k);
  }

  lemma Waits(states: seq<State>, calls: seq<Call>, k: nat)
    requires Run(states, calls) && k + 1 < |calls| && Inv(states[k + 1], calls[k].now)
    ensures Inv(states[k + 1], calls[k + 1].now)
  {
    Later(states[k + 1], calls[k].now, calls[k + 1].now);
  }

  lemma Steps(states: seq<State>, calls: seq<Call>, k: nat)
    requires Run(states, calls) && k < |calls| && Inv(states[k], calls[k].now)
    ensures Inv(states[k + 1], calls[k].now) && |states[k + 1].entries| <= MAX_ENTRIES + 1
  {
    CheckKeeps(states[k], calls[k]);
  }

  /** The index lists the addresses in the order of their last counted attempts. */
  lemma IndexOrder(s: State, now: nat, i: nat, j: nat)
    requires Inv(s, now) && i < j < |s.index|
    ensures s.index[i].ip in s.entries && s.index[j].ip in s.entries && s.index[i].ip != s.index[j].ip
    ensures s.entries[s.index[i].ip].lastAttempt <= s.entries[s.index[j].ip].lastAttempt
  {
    assert NodeOk(s, s.index[i]) && NodeOk(s, s.index[j]);
  }

  /** The ceiling takes the address out at the start of a call. */
  ghost predicate CeilingTakes(s: State, now: nat, ip: Ip) {
    ip in SweptIfDue(s, now).entries && ip !in Cleaned(s, now).entries
  }

  /** The address is among the surplus whose last attempt is oldest, once the sweep is over. */
  ghost predicate OverCeiling(s: State, now: nat, ip: Ip) {
    var t := SweptIfDue(s, now);
    InFirst(t, |t.entries| - MAX_ENTRIES, ip)
  }

  lemma CeilingIff(s: State, now: nat, ip: Ip)
    requires Inv(s, now)
    ensures CeilingTakes(s, now, ip) <==> OverCeiling(s, now, ip)
  {
    var t := SweptIfDue(s, now);
    SweptIfDueKeeps(s, now);
    EvictedExactly(t, now);
    if OverCeiling(s, now, ip) {
      var i :| 0 <= i < |t.entries| - MAX_ENTRIES && i < |t.index| && t.index[i].ip == ip;
      assert NodeOk(t, t.index[i]);
    }
  }

  /** A call under an active block is let in exactly if the ceiling takes the entry first. */
  lemma BlockedCallIff(s: State, c: Call)
    requires Inv(s, c.now) && c.ip in s.entries && s.entries[c.ip].blockUntil > c.now
    ensures Checked(s, c).1.allowed <==> OverCeiling(s, c.now, c.ip)
    ensures !Checked(s, c).1.blockStarted
  {
    SweptIfDueKeeps(s, c.now);
    CleanedKeeps(s, c.now);
    CeilingIff(s, c.now, c.ip);
  }

  /** Calls of others leave an active block as it is, or its entry is taken by the ceiling. */
  lemma BlockStays(s: State, c: Call, ip: Ip)
    requires Inv(s, c.now) && ip in s.entries && s.entries[ip].blockUntil > c.now
    ensures !OverCeiling(s, c.now, ip) ==>
              ip in Checked(s, c).0.entries && Checked(s, c).0.entries[ip].blockUntil == s.entries[ip].blockUntil
    ensures OverCeiling(s, c.now, ip) && c.ip != ip ==> ip !in Checked(s, c).0.entries
    ensures c.ip == ip ==>
              !Checked(s, c).1.blockStarted && (Checked(s, c).1.allowed <==> OverCeiling(s, c.now, ip))
  {
    SweptIfDueKeeps(s, c.now);
    CleanedKeeps(s, c.now);
    CeilingIff(s, c.now, ip);
    if c.ip == ip {
      BlockedCallIff(s, c);
    }
  }

  /** An address without an entry stays without one until it calls, and is then let in. */
  lemma AbsentStays(s: State, c: Call, ip: Ip)
    requires Inv(s, c.now) && ip !in s.entries
    ensures c.ip != ip ==> ip !in Checked(s, c).0.entries
    ensures c.ip == ip ==> Checked(s, c).1.allowed
  {
    CleanedKeeps(s, c.now);
  }

  ghost predicate NotTaken(states: seq<State>, calls: seq<Call>, ip: Ip, i: nat, j: nat)
    requires Run(states, calls) && j <= |calls|
  {
    forall k :: i < k < j ==> !OverCeiling(states[k], calls[k].now, ip)
  }

  /** A block in force after call i is in force, unchanged, at call j. */
  lemma {:induction false} BlockKept(states: seq<State>, calls: seq<Call>, ip: Ip, until: nat, i: nat, j: nat)
    requires Run(states, calls) && i < j < |calls| && calls[j].now < until
    requires ip in states[i + 1].entries && states[i + 1].entries[ip].blockUntil == until
    requires NotTaken(states, calls, ip, i, j)
    ensures ip in states[j].entries && states[j].entries[ip].blockUntil == until
    decreases j - i
  {
    if j > i + 1 {
      var k := j - 1;
      assert calls[k].now <= calls[k + 1].now;
      BlockKept(states, calls, ip, until, i, k);
      RunKeeps(states, calls, k);
      BlockStays(states[k], calls[k], ip);
    }
  }

  lemma {:induction false} ClockRises(states: seq<State>, calls: seq<Call>, i: nat, j: nat)
    requires Run(states, calls) && i <= j < |calls|
    ensures calls[i].now <= calls[j].now
    decreases j - i
  {
    if i < j {
      ClockRises(states, calls, i, j - 1);
      assert calls[j - 1].now <= calls[j - 1 + 1].now;
    }
  }

  /** Call i starts a block for its address that is still running at call j. */
  ghost predicate BlockedFrom(states: seq<State>, calls: seq<Call>, i: nat, j: nat)
    requires Run(states, calls) && i < j < |calls|
  {
    && Checked(states[i], calls[i]).1.blockStarted
    && calls[j].now < calls[i].now + Checked(states[i], calls[i]).1.blockDuration
  }

  /** While the ceiling has not taken the entry, a call of the address is let in exactly if it does so now. */
  lemma BlockHolds(states: seq<State>, calls: seq<Call>, i: nat, j: nat)
    requires Run(states, calls) && i < j < |calls| && BlockedFrom(states, calls, i, j) && calls[j].ip == calls[i].ip
    requires NotTaken(states, calls, calls[i].ip, i, j)
    ensures !Checked(states[j], calls[j]).1.blockStarted
    ensures Checked(states[j], calls[j]).1.allowed <==> OverCeiling(states[j], calls[j].now, calls[i].ip)
  {
    RunKeeps(states, calls, i);
    RunKeeps(states, calls, j);
    BlockStarts(states[i], calls[i]);
    BlockKept(states, calls, calls[i].ip, calls[i].now + Checked(states[i], calls[i]).1.blockDuration, i, j);
    BlockStays(states[j], calls[j], calls[i].ip);
  }

  /** Call m is one of the address, and is let in. */
  ghost predicate LetIn(states: seq<State>, calls: seq<Call>, ip: Ip, m: nat)
    requires Run(states, calls) && m < |calls|
  {
    calls[m].ip == ip && Checked(states[m], calls[m]).1.allowed
  }

  /** Once the entry was taken at call k, the next call of the address is let in. */
  lemma {:induction false} TakenLetsIn(states: seq<State>, calls: seq<Call>, ip: Ip, k: nat, j: nat) returns (m: nat)
    requires Run(states, calls) && k <= j < |calls| && calls[j].ip == ip
    requires ip !in states[k].entries
    ensures k <= m <= j && LetIn(states, calls, ip, m)
    decreases j - k
  {
    RunKeeps(states, calls, k);
    AbsentStays(states[k], calls[k], ip);
    if calls[k].ip == ip {
      m := k;
    } else {
      m := TakenLetsIn(states, calls, ip, k + 1, j);
    }
  }

  /** The first k in (i, j] at which the ceiling takes the address. */
  lemma {:induction false} FirstTaken(states: seq<State>, calls: seq<Call>, ip: Ip, i: nat, j: nat) returns (k: nat)
    requires Run(states, calls) && i < j < |calls| && !NotTaken(states, calls, ip, i, j + 1)
    ensures i < k <= j && NotTaken(states, calls, ip, i, k) && OverCeiling(states[k], calls[k].now, ip)
    decreases j - i
  {
    if NotTaken(states, calls, ip, i, j) {
      k := j;
    } else {
      k := FirstTaken(states, calls, ip, i, j - 1);
    }
  }

  /**
   Main result on blocks. From the call i that starts a block to a call j of the same address before the
   end of the block, some call of the address is let in if and only if at some call k after i, up to j,
   the address is among the surplus over the ceiling; otherwise each of them is refused.
   */
  lemma BlockBrokenIff(states: seq<State>, calls: seq<Call>, i: nat, j: nat)
    requires Run(states, calls) && i < j < |calls| && BlockedFrom(states, calls, i, j) && calls[j].ip == calls[i].ip
    ensures (exists m :: i < m <= j && LetIn(states, calls, calls[i].ip, m)) <==>
            (exists k :: i < k <= j && OverCeiling(states[k], calls[k].now, calls[i].ip))
  {
    var ip := calls[i].ip;
    if NotTaken(states, calls, ip, i, j + 1) {
      forall m | i < m <= j ensures !LetIn(states, calls, ip, m) {
        ClockRises(states, calls, m, j);
        if calls[m].ip == ip {
          BlockHolds(states, calls, i, m);
        }
      }
    } else {
      var k := FirstTaken(states, calls, ip, i, j);
      TakenOnce(states, calls, i, j, k);
    }
  }

  lemma TakenOnce(states: seq<State>, calls: seq<Call>, i: nat, j: nat, k: nat)
    requires Run(states, calls) && i < k <= j < |calls| && BlockedFrom(states, calls, i, j) &&
             calls[j].ip == calls[i].ip
    requires NotTaken(states, calls, calls[i].ip, i, k) && OverCeiling(states[k], calls[k].now, calls[i].ip)
    ensures exists m :: i < m <= j && LetIn(states, calls, calls[i].ip, m)
  {
    var ip := calls[i].ip;
    ClockRises(states, calls, k, j);
    RunKeeps(states, calls, i);
    RunKeeps(states, calls, k);
    BlockStarts(states[i], calls[i]);
    BlockKept(states, calls, ip, calls[i].now + Checked(states[i], calls[i]).1.blockDuration, i, k);
    BlockStays(states[k], calls[k], ip);
    if calls[k].ip == ip {
      assert LetIn(states, calls, ip, k);
    } else {
      var m := TakenLetsIn(states, calls, ip, k + 1, j);
      assert LetIn(states, calls, ip, m);
    }
  }

  lemma BlockStarts(s: State, c: Call)
    requires Inv(s, c.now) && Checked(s, c).1.blockStarted
    ensures c.ip in Checked(s, c).0.entries
    ensures Checked(s, c).0.entries[c.ip].blockUntil == c.now + Checked(s, c).1.blockDuration
    ensures 3_000 <= Checked(s, c).1.blockDuration <= ENTRY_LIFETIME
  {
  }

  // ---- The ceiling does take blocked addresses ----

  /** Within one millisecond: address 0 tries twice, 65,536 others once each, then address 0 again. */
  function CrowdCall(ip: Ip): (c: Call) { Call(ip, 1, 1, 1000) }

  function CrowdEntry(ip: Ip): (e: Entry) {
    if ip == 0 then Entry(1, 3001, 0, 1, Some(1)) else Entry(1, 0, 1, 0, Some(ip + 1))
  }

  function CrowdNode(ip: Ip): (n: Node) { Node(ENTRY_LIFETIME + 2, ip, ip + 1) }

  /** After address 0 was blocked for three seconds and k others came. */
  function Crowd(k: nat): (s: State) {
    State(map ip: nat | 0 <= ip <= k :: CrowdEntry(ip), seq(k + 1, (i: nat) => CrowdNode(i)), 1, k + 2)
  }

  /** After the first attempt. */
  const SEEN := State(map[0 := Entry(1, 0, 1, 0, Some(0))], [Node(ENTRY_LIFETIME + 2, 0, 0)], 1, 1)

  lemma FirstSeen()
    ensures Checked(INITIAL, CrowdCall(0)) == (SEEN, ALLOWED)
  {
    var t := INITIAL.(lastCleanup := 1);
    assert SweptIfDue(INITIAL, 1) == Swept(t, 1, CLEANUP_BATCH_SIZE) == t;
    assert Cleaned(INITIAL, 1) == t;
    var u := t.(entries := t.entries[0 := Entry(1, 0, 1, 0, None)]);
    assert Admitted(t, 0, 1, 1, 1000) == (Refreshed(u, 0), ALLOWED);
    assert Placed([], Node(ENTRY_LIFETIME + 2, 0, 0)) == [Node(ENTRY_LIFETIME + 2, 0, 0)];
    assert Refreshed(u, 0).index == SEEN.index && Refreshed(u, 0).entries == SEEN.entries;
  }

  lemma ThenBlocked()
    ensures Checked(SEEN, CrowdCall(0)) == (Crowd(0), Verdict(false, true, 3000, 1))
  {
    assert Cleaned(SEEN, 1) == SEEN;
    var f := Entry(1, 3001, 0, 1, Some(0));
    assert Attempted(SEEN.entries[0], 1, 1, 1000) == (f, Verdict(false, true, 3000, 1));
    var u := SEEN.(entries := SEEN.entries[0 := f]);
    assert Admitted(SEEN, 0, 1, 1, 1000) == (Refreshed(u, 0), Verdict(false, true, 3000, 1));
    assert Without(SEEN.index, 0) == [];
    assert Placed([], CrowdNode(0)) == [CrowdNode(0)];
    assert Crowd(0).index == [CrowdNode(0)];
    assert Refreshed(u, 0).entries == Crowd(0).entries;
  }

  lemma {:induction false} CrowdSize(k: nat)
    ensures |Crowd(k).entries| == k + 1
  {
    if k == 0 {
      assert Crowd(0).entries == map[0 := CrowdEntry(0)];
    } else {
      CrowdSize(k - 1);
      assert Crowd(k).entries == Crowd(k - 1).entries[k := CrowdEntry(k)];
    }
  }

  lemma OneMore(k: nat, s: State, c: Call, r: State)
    requires k < MAX_ENTRIES && s == Crowd(k) && c == CrowdCall(k + 1) && r == Crowd(k + 1)
    ensures r == Checked(s, c).0
  {
    CrowdSize(k);
    assert Cleaned(s, 1) == s;
    var e := Entry(1, 0, 1, 0, None);
    var t := s.(entries := s.entries[k + 1 := e]);
    LastPlaced(s.index, CrowdNode(k + 1));
    assert Crowd(k + 1).index == s.index + [CrowdNode(k + 1)];
    assert Refreshed(t, k + 1).entries == Crowd(k + 1).entries;
  }

  lemma FrontGone()
    ensures var s := Crowd(MAX_ENTRIES);
            CeilingTakes(s, 1, 0) && s.entries[0].blockUntil > 1 && Checked(s, CrowdCall(0)).1 == ALLOWED
  {
    var s := Crowd(MAX_ENTRIES);
    CrowdSize(MAX_ENTRIES);
    assert SweptIfDue(s, 1) == s;
    var t := OldestErased(s);
    assert s.index[0] == CrowdNode(0) && s.entries[0] == CrowdEntry(0);
    assert t.entries == s.entries - {0};
    assert (s.entries - {0}).Keys == s.entries.Keys - {0};
    assert |t.entries| == |t.entries.Keys| == |s.entries.Keys| - 1 == MAX_ENTRIES;
    assert Evicted(s) == Evicted(t) == t;
  }

  /** Call k of the run, and the state it finds. */
  ghost function CrowdCallAt(k: nat): (c: Call) { CrowdCall(if 2 <= k < MAX_ENTRIES + 2 then k - 1 else 0) }

  ghost function CrowdAt(k: nat): (s: State) {
    if k == 0 then INITIAL else if k == 1 then SEEN
    else if k <= MAX_ENTRIES + 2 then Crowd(k - 2)
    else Checked(Crowd(MAX_ENTRIES), CrowdCall(0)).0
  }

  ghost function CrowdCalls(): (calls: seq<Call>) { seq(MAX_ENTRIES + 3, (k: nat) => CrowdCallAt(k)) }

  ghost function CrowdStates(): (states: seq<State>) { seq(MAX_ENTRIES + 4, (k: nat) => CrowdAt(k)) }

  lemma CrowdStep(k: nat)
    requires k < MAX_ENTRIES + 3
    ensures CrowdAt(k + 1) == Checked(CrowdAt(k), CrowdCallAt(k)).0
  {
    if k == 0 {
      FirstSeen();
    } else if k == 1 {
      ThenBlocked();
    } else if k < MAX_ENTRIES + 2 {
      CrowdGrows(k);
    }
  }

  lemma CrowdGrows(k: nat)
    requires 2 <= k < MAX_ENTRIES + 2
    ensures CrowdAt(k + 1) == Checked(CrowdAt(k), CrowdCallAt(k)).0
  {
    OneMore(k - 2, CrowdAt(k), CrowdCallAt(k), CrowdAt(k + 1));
  }

  lemma CrowdRun()
    ensures Run(CrowdStates(), CrowdCalls())
  {
    forall k: nat | k < MAX_ENTRIES + 3
        ensures CrowdAt(k + 1) == Checked(CrowdAt(k), CrowdCallAt(k)).0 && CrowdCallAt(k).now == 1 {
      CrowdStep(k);
    }
    StepsAreRun(CrowdStates(), CrowdCalls());
  }

  lemma StepsAreRun(states: seq<State>, calls: seq<Call>)
    requires |states| == |calls| + 1 && states[0] == INITIAL && forall k :: 0 <= k < |calls| ==> calls[k].now == 1
    requires forall k :: 0 <= k < |calls| ==> states[k + 1] == Checked(states[k], calls[k]).0
    ensures Run(states, calls)
  {
  }

  /**
   A run in which enough other addresses flush an active block: address 0 is blocked for three seconds
   by its second attempt, and after 65,536 other addresses in the same millisecond it is let in again.
   */
  lemma CeilingTakesBlocked()
    ensures var states, calls, n := CrowdStates(), CrowdCalls(), MAX_ENTRIES + 2;
            && Run(states, calls) && |calls| == n + 1
            && calls[1].ip == 0 && Checked(states[1], calls[1]).1 == Verdict(false, true, 3000, 1)
            && 0 in states[n].entries && states[n].entries[0].blockUntil > calls[n].now
            && CeilingTakes(states[n], calls[n].now, 0)
            && calls[n].ip == 0 && calls[n].now == calls[1].now && Checked(states[n], calls[n]).1.allowed
  {
    CrowdRun();
    ThenBlocked();
    FrontGone();
  }

  // ---- The object ----

  class ConnectionRateLimiter {
    var entries: map<Ip, Entry>
    var expiryIndex: seq<Node>
    var lastCleanup: nat
    var nextId: NodeId

    ghost function View(): (s: State)
      reads this
    {
      State(entries, expiryIndex, lastCleanup, nextId)
    }

    constructor ()
      ensures View() == INITIAL && Inv(View(), 0)
    {
      entries, expiryIndex, lastCleanup, nextId := map[], [], 0, 0;
    }

    /** Moves the node of an address to the place of its new expiry. */
    method RefreshExpiry(ip: Ip)
      requires ip in entries
      modifies this
      ensures View() == Refreshed(old(View()), ip)
    {
      var entry := entries[ip];
      if entry.expiry.Some? {
        expiryIndex := Without(expiryIndex, entry.expiry.value);
      }
      var expiresAt := Max(entry.blockUntil, entry.lastAttempt + ENTRY_LIFETIME + 1);
      expiryIndex := Placed(expiryIndex, Node(expiresAt, ip, nextId));
      entries := entries[ip := entry.(expiry := Some(nextId))];
      nextId := nextId + 1;
    }

    method EraseOldestEntry()
      requires expiryIndex != []
      modifies this
      ensures View() == OldestErased(old(View()))
    {
      var front := expiryIndex[0];
      if front.ip in entries && entries[front.ip].expiry == Some(front.id) {
        entries := entries - {front.ip};
      }
      expiryIndex := expiryIndex[1..];
    }

    method Cleanup(currentTime: nat)
      modifies this
      ensures View() == Cleaned(old(View()), currentTime)
    {
      SweepIfDue(currentTime);
      Evict();
    }

    method SweepIfDue(currentTime: nat)
      modifies this
      ensures View() == SweptIfDue(old(View()), currentTime)
    {
      if SweepDue(lastCleanup, currentTime) {
        lastCleanup := currentTime;
        Sweep(currentTime, Max(CLEANUP_BATCH_SIZE, |entries| / CLEANUP_DIVISOR));
      }
    }

    /** The first loop of cleanup. */
    method Sweep(currentTime: nat, batch: nat)
      modifies this
      ensures View() == Swept(old(View()), currentTime, batch)
    {
      var processed := 0;
      while processed < batch && expiryIndex != []
        invariant processed <= batch
        invariant Swept(View(), currentTime, batch - processed) == Swept(old(View()), currentTime, batch)
      {
        if expiryIndex[0].key > currentTime {
          break;
        }
        EraseOldestEntry();
        processed := processed + 1;
      }
    }

    /** The second loop of cleanup. */
    method Evict()
      modifies this
      ensures View() == Evicted(old(View()))
    {
      while |entries| > MAX_ENTRIES && expiryIndex != []
        invariant Evicted(View()) == Evicted(old(View()))
        decreases |expiryIndex|
      {
        EraseOldestEntry();
      }
    }

    method Check(ip: Ip, currentTime: nat, allowedConnections: nat, minimumInterval: nat) returns (verdict: Verdict)
      modifies this
      ensures (View(), verdict) == Checked(old(View()), Call(ip, currentTime, allowedConnections, minimumInterval))
      ensures old(Inv(View(), currentTime)) ==> Inv(View(), currentTime) && |entries| <= MAX_ENTRIES + 1
      ensures old(Inv(View(), currentTime)) && currentTime < LONG_WORD ==>
                Answers(Cleaned(old(View()), currentTime),
                        Call(ip, currentTime, allowedConnections, minimumInterval), View(), verdict)
    {
      if Inv(View(), currentTime) {
        if currentTime < LONG_WORD {
          CheckAnswers(View(), Call(ip, currentTime, allowedConnections, minimumInterval));
        }
        CheckKeeps(View(), Call(ip, currentTime, allowedConnections, minimumInterval));
      }
      Cleanup(currentTime);
      if ip !in entries {
        entries := entries[ip := Entry(currentTime, 0, 1, 0, None)];
        RefreshExpiry(ip);
        return ALLOWED;
      }
      var entry := entries[ip];
      if entry.blockUntil > currentTime {
        return Verdict(false, false, 0, entry.totalBlocks);
      }
      verdict := Attempt(ip, currentTime, allowedConnections, minimumInterval);
    }

    method Attempt(ip: Ip, currentTime: nat, allowedConnections: nat, minimumInterval: nat) returns (verdict: Verdict)
      requires ip in entries
      modifies this
      ensures verdict == Attempted(old(entries)[ip], currentTime, allowedConnections, minimumInterval).1
      ensures View() == Refreshed(old(View()).(entries := old(entries)[ip :=
                          Attempted(old(entries)[ip], currentTime, allowedConnections, minimumInterval).0]), ip)
    {
      var entry := entries[ip];
      var timeDifference := (currentTime - entry.lastAttempt) % LONG_WORD;
      entry := entry.(lastAttempt := currentTime, blockUntil := 0);
      verdict := ALLOWED;
      if timeDifference <= ATTEMPT_WINDOW {
        entry := entry.(count := (entry.count + 1) % WORD);
        if entry.count > allowedConnections {
          entry := entry.(count := 0);
          if timeDifference <= minimumInterval {
            entry := entry.(totalBlocks := (entry.totalBlocks + 1) % WORD);
            var blockDuration := BlockDuration(entry.totalBlocks);
            entry := entry.(blockUntil := currentTime + blockDuration);
            verdict := Verdict(false, true, blockDuration, entry.totalBlocks);
          }
        }
      } else {
        entry := entry.(count := 1);
        if timeDifference > CLEANUP_INTERVAL && entry.totalBlocks > 0 {
          entry := entry.(totalBlocks := entry.totalBlocks - 1);
        }
      }
      entries := entries[ip := entry];
      RefreshExpiry(ip);
    }
  }
}
