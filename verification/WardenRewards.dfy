/**
 First-kill rewards of Echo Wardens (src/echo_raid.cpp): one claim row per player and race, charm
 points granted with the row, and a queue of rewards whose transaction failed.
 */
module WardenRewards {
  import opened Basics
  import opened Transactions

  const RETRY_INITIAL_MS: nat := 1_000
  const RETRY_MAX_MS: nat := 60_000
  const MAX_RETRY_SHIFT: nat := 6

  type Player = p: int | 0 <= p <= UINT32_MAX
  type Race = r: int | 0 <= r < 65536

  datatype Pair = Pair(player: Player, race: Race)
  datatype Grant = Grant(pair: Pair, points: nat)

  /**
   `grants` is the history of the charm-point updates that took effect; `inserted` is the vector the
   callback fills, which only counts when the transaction is committed.
   */
  datatype Ledger = Ledger(claims: set<Pair>, points: map<Player, nat>, grants: seq<Grant>, inserted: seq<bool>)

  // ---- Statements ----

  /** INSERT IGNORE INTO player_echo_warden_rewards. */
  function Claimed(d: Ledger, pair: Pair): (r: Ledger) {
    d.(claims := d.claims + {pair}, inserted := d.inserted + [pair !in d.claims])
  }


  /** UPDATE players SET charmpoints = LEAST(4294967295, charmpoints + points). */
  function Granted(d: Ledger, pair: Pair, points: nat): (r: Ledger) {
    d.(points := (if pair.player in d.points then
                    d.points[pair.player := Min(UINT32_MAX, d.points[pair.player] + points)]
                  else d.points),
       grants := d.grants + [Grant(pair, points)])
  }

  /** The loop body over one recipient: statements 2i and 2i + 1. */
  function OneReward(pair: Pair, points: nat, s: Session<Ledger>, o: nat -> Outcome,
      i: nat): (r: (Session<Ledger>, bool)) {
    var isNew := pair !in Current(s).claims;
    var s1 := Write(s, o(2 * i), Claimed(Current(s), pair));
    if !o(2 * i).Ok? then (s1, false)
    else if !isNew then (s1, true)
    else (Write(s1, o(2 * i + 1), Granted(Current(s1), pair, points)), o(2 * i + 1).Ok?)
  }

  function Rewards(players: seq<Player>, race: Race, points: nat, s: Session<Ledger>, o: nat -> Outcome,
      i: nat): (r: (Session<Ledger>, bool))
    requires i <= |players|
    decreases |players| - i
  {
    if i == |players| then (s, true)
    else
      var (s1, ok) := OneReward(Pair(players[i], race), points, s, o, i);
      if !ok then (s1, false) else Rewards(players, race, points, s1, o, i + 1)
  }

  /** One transaction for a list of players: a whole death, or a single retry. */
  function Persist(d: Ledger, players: seq<Player>, race: Race, points: nat,
      attempts: nat -> Attempt): (r: (Ledger, bool)) {
    InTransaction(d.(inserted := []), (s, o) => Rewards(players, race, points, s, o, 0), attempts)
  }

  // ---- What a committed transaction has done ----

  /** The effect of all recipients from i on. */
  function Effect(d: Ledger, players: seq<Player>, race: Race, points: nat, i: nat): (r: Ledger)
    requires i <= |players|
    decreases |players| - i
  {
    if i == |players| then d
    else
      var pair := Pair(players[i], race);
      var c := Claimed(d, pair);
      Effect(if pair in d.claims then c else Granted(c, pair, points), players, race, points, i + 1)
  }

  lemma {:induction false} RewardsExact(players: seq<Player>, race: Race, points: nat, s: Session<Ledger>,
      o: nat -> Outcome, i: nat)
    requires i <= |players| && s.open.Some?
    ensures var (r, ok) := Rewards(players, race, points, s, o, i);
            && r.committed == s.committed
            && (ok ==> Current(r) == Effect(Current(s), players, race, points, i))
            && ((forall n: nat :: o(n).Ok?) ==> ok)
    decreases |players| - i
  {
    if i < |players| {
      var (s1, ok) := OneReward(Pair(players[i], race), points, s, o, i);
      if ok {
        RewardsExact(players, race, points, s1, o, i + 1);
      }
    }
  }

  /** All or nothing for the whole list, whatever fails or is retried. */
  lemma PersistExact(d: Ledger, players: seq<Player>, race: Race, points: nat, attempts: nat -> Attempt)
    ensures var (r, ok) := Persist(d, players, race, points, attempts);
            && (!ok ==> r == d.(inserted := []))
            && (ok ==> r == Effect(d.(inserted := []), players, race, points, 0))
  {
    var db := d.(inserted := []);
    var callback := (s, o) => Rewards(players, race, points, s, o, 0);
    forall k {:trigger attempts(k)} | 1 <= k <= TRANSACTION_MAX_ATTEMPTS
      ensures callback(Began(db), attempts(k).outcomes).0.committed == db
    {
      RewardsExact(players, race, points, Began(db), attempts(k).outcomes, 0);
    }
    AllOrNothing(db, callback, attempts, 1);
    var (r, ok) := Persist(d, players, race, points, attempts);
    if ok {
      var k :| AppliedBy(db, callback, attempts, r, k);
      RewardsExact(players, race, points, Began(db), attempts(k).outcomes, 0);
    }
  }

  lemma PersistSucceeds(d: Ledger, players: seq<Player>, race: Race, points: nat, attempts: nat -> Attempt)
    requires attempts(1).begin && attempts(1).commit.Ok? && forall i: nat :: attempts(1).outcomes(i).Ok?
    ensures Persist(d, players, race, points, attempts).1
  {
    RewardsExact(players, race, points, Began(d.(inserted := [])), attempts(1).outcomes, 0);
  }

  /** The grants the list leads to: one for every player without a claim, in order. */
  function NewGrants(claims: set<Pair>, players: seq<Player>, race: Race, points: nat): (g: seq<Grant>)
    decreases players
  {
    if players == [] then []
    else
      (if Pair(players[0], race) in claims then [] else [Grant(Pair(players[0], race), points)]) +
      NewGrants(claims + {Pair(players[0], race)}, players[1..], race, points)
  }

  function PairsOf(players: seq<Player>, race: Race): (s: set<Pair>) { set p | p in players :: Pair(p, race) }

  lemma {:induction false} EffectExact(d: Ledger, players: seq<Player>, race: Race, points: nat, i: nat)
    requires i <= |players|
    ensures var e := Effect(d, players, race, points, i);
            && e.claims == d.claims + PairsOf(players[i..], race)
            && e.grants == d.grants + NewGrants(d.claims, players[i..], race, points)
    decreases |players| - i
  {
    if i < |players| {
      var pair := Pair(players[i], race);
      var c := Claimed(d, pair);
      var n := if pair in d.claims then c else Granted(c, pair, points);
      EffectExact(n, players, race, points, i + 1);
      assert players[i..][1..] == players[i + 1..] && players[i..][0] == players[i];
      PairsOfCons(players, race, i);
    }
  }

  lemma PairsOfCons(players: seq<Player>, race: Race, i: nat)
    requires i < |players|
    ensures PairsOf(players[i..], race) == {Pair(players[i], race)} + PairsOf(players[i + 1..], race)
  {
    assert players[i..] == [players[i]] + players[i + 1..];
  }

  /** The vector of insertions only grows, by one entry for each player. */
  lemma {:induction false} InsertedGrows(d: Ledger, players: seq<Player>, race: Race, points: nat, i: nat)
    requires i <= |players|
    ensures var e := Effect(d, players, race, points, i);
            |e.inserted| == |d.inserted| + |players| - i && d.inserted <= e.inserted
    decreases |players| - i
  {
    if i < |players| {
      var pair := Pair(players[i], race);
      var c := Claimed(d, pair);
      InsertedGrows(if pair in d.claims then c else Granted(c, pair, points), players, race, points, i + 1);
    }
  }

  /** Each listed player without a claim gets the points, up to the cap, and nobody else's points change. */
  lemma {:induction false} PointsExact(d: Ledger, players: seq<Player>, race: Race, points: nat, i: nat, p: Player)
    requires i <= |players| && NoDuplicates(players) && p in d.points
    ensures p in Effect(d, players, race, points, i).points
    ensures Effect(d, players, race, points, i).points[p] ==
            if p in players[i..] && Pair(p, race) !in d.claims then Min(UINT32_MAX, d.points[p] + points)
                else d.points[p]
    decreases |players| - i
  {
    if i < |players| {
      var pair := Pair(players[i], race);
      var c := Claimed(d, pair);
      PointsExact(if pair in d.claims then c else Granted(c, pair, points), players, race, points, i + 1, p);
      assert players[i..] == [players[i]] + players[i + 1..];
      assert players[i] !in players[i + 1..];
    }
  }

  /** With distinct players, entry i of the vector says whether player i had no claim before. */
  lemma {:induction false} InsertedExact(d: Ledger, players: seq<Player>, race: Race, points: nat, i: nat, k: nat)
    requires i <= k < |players| && NoDuplicates(players)
    ensures |Effect(d, players, race, points, i).inserted| == |d.inserted| + |players| - i
    ensures Effect(d, players, race, points, i).inserted[|d.inserted| + k - i] == (Pair(players[k], race) !in d.claims)
    decreases |players| - i
  {
    var pair := Pair(players[i], race);
    var c := Claimed(d, pair);
    var n := if pair in d.claims then c else Granted(c, pair, points);
    InsertedGrows(n, players, race, points, i + 1);
    if k > i {
      InsertedExact(n, players, race, points, i + 1, k);
    } else {
      assert n.inserted[|d.inserted|] == (pair !in d.claims);
    }
  }

  lemma {:induction false} NewGrantsFacts(claims: set<Pair>, players: seq<Player>, race: Race, points: nat)
    ensures var g := NewGrants(claims, players, race, points);
            && (forall x :: x in g ==> x.pair !in claims && x.pair in PairsOf(players, race))
            && (forall p :: p in players && Pair(p, race) !in claims ==> Grant(Pair(p, race), points) in g)
            && OnceEach(g)
    decreases players
  {
    if players != [] {
      var pair := Pair(players[0], race);
      NewGrantsFacts(claims + {pair}, players[1..], race, points);
      assert players == [players[0]] + players[1..];
    }
  }

  /** No pair is granted twice. */
  ghost predicate OnceEach(g: seq<Grant>) { forall i, j :: 0 <= i < j < |g| ==> g[i].pair != g[j].pair }

  // ---- The queue of failed rewards ----

  type Key = nat

  /** (guid << 16) | raceId. */
  function KeyOf(pair: Pair): (k: Key) { pair.player * 65536 + pair.race }

  /** Distinct pairs never share a key, and a key fits 64 bits. */
  lemma KeysDistinct(a: Pair, b: Pair)
    ensures KeyOf(a) == KeyOf(b) <==> a == b
    ensures KeyOf(a) < 0x1_0000_0000_0000
  {
    assert KeyOf(a) % 65536 == a.race && KeyOf(b) % 65536 == b.race;
  }

  datatype Reward = Reward(pair: Pair, points: nat, nextAttemptAt: nat, attempts: nat)

  function Power(n: nat): (p: nat) { if n == 0 then 1 else 2 * Power(n - 1) }

  /** Doubles with every failure and stops at one minute. */
  function RetryDelay(attempts: nat): (d: nat) { Min(RETRY_INITIAL_MS * Power(attempts), RETRY_MAX_MS) }

  datatype World = World(
    ledger: Ledger,
    memory: seq<Grant>,           // points added to players online
    pending: map<Key, Reward>,
    recipients: set<Pair>)        // everyone who took part in a Warden's death

  function Queued(w: World, players: seq<Player>, race: Race, points: nat, now: nat): (r: World)
    decreases players
  {
    if players == [] then w
    else
      var pair := Pair(players[0], race);
      var p := if KeyOf(pair) in w.pending then w.pending
          else w.pending[KeyOf(pair) := Reward(pair, points, now + RETRY_INITIAL_MS, 0)];
      Queued(w.(pending := p), players[1..], race, points, now)
  }

  /** The first occurrence of every player. */
  function Unique(players: seq<Player>, seen: set<Player>): (r: seq<Player>) {
    if players == [] then []
    else if players[0] in seen then Unique(players[1..], seen)
    else [players[0]] + Unique(players[1..], seen + {players[0]})
  }

  lemma {:induction false} UniqueFacts(players: seq<Player>, seen: set<Player>)
    ensures NoDuplicates(Unique(players, seen))
    ensures forall p :: p in Unique(players, seen) <==> p in players && p !in seen
  {
    if players != [] {
      UniqueFacts(players[1..], seen);
      UniqueFacts(players[1..], seen + {players[0]});
      assert players == [players[0]] + players[1..];
    }
  }

  datatype Event =
    | Death(players: seq<Player>, race: Race, points: nat, attempts: nat -> Attempt, now: nat)
    | Retry(key: Key, attempts: nat -> Attempt, now: nat, online: bool)

  /** grantWardenRewards, and one turn of the loop of retryPendingWardenRewards. */
  function Next(w: World, e: Event): (r: World) {
    match e
    case Death(players, race, points, attempts, now) =>
      var unique := Unique(players, {});
      var (d, ok) := Persist(w.ledger, unique, race, points, attempts);
      var v := w.(ledger := d, recipients := w.recipients + PairsOf(unique, race));
      if !ok then Queued(v, unique, race, points, now)
      else v.(memory := w.memory + MemoryGrants(d.inserted, unique, race, points))
    case Retry(key, attempts, now, online) =>
      if key !in w.pending || now < w.pending[key].nextAttemptAt then w
      else
        var reward := w.pending[key];
        var (d, ok) := Persist(w.ledger, [reward.pair.player], reward.pair.race, reward.points, attempts);
        if !ok then
          var n := Min(reward.attempts + 1, MAX_RETRY_SHIFT);
          w.(ledger := d, pending := w.pending[key := reward.(attempts := n, nextAttemptAt := now + RetryDelay(n))])
        else
          w.(ledger := d, pending := w.pending - {key},
             memory := w.memory + if online
                 then MemoryGrants(d.inserted, [reward.pair.player], reward.pair.race, reward.points) else [])
  }

  /** The players whose entry in the vector is set. */
  function MemoryGrants(inserted: seq<bool>, players: seq<Player>, race: Race, points: nat): (g: seq<Grant>) {
    if players == [] || inserted == [] then []
    else
      (if inserted[0] then [Grant(Pair(players[0], race), points)] else [])
      + MemoryGrants(inserted[1..], players[1..], race, points)
  }

  /** The vector selects exactly the grants the transaction made. */
  lemma {:induction false} MemoryExact(inserted: seq<bool>, claims: set<Pair>, players: seq<Player>, race: Race,
      points: nat)
    requires NoDuplicates(players) && |inserted| == |players|
    requires forall k :: 0 <= k < |players| ==> inserted[k] == (Pair(players[k], race) !in claims)
    ensures MemoryGrants(inserted, players, race, points) == NewGrants(claims, players, race, points)
  {
    if players != [] {
      var rest := players[1..];
      forall k | 0 <= k < |rest| ensures inserted[1..][k] ==
          (Pair(rest[k], race) !in claims + {Pair(players[0], race)}) {
        assert rest[k] == players[k + 1];
      }
      MemoryExact(inserted[1..], claims + {Pair(players[0], race)}, rest, race, points);
    }
  }

  lemma CommittedExact(d: Ledger, players: seq<Player>, race: Race, points: nat, attempts: nat -> Attempt)
    requires NoDuplicates(players) && Persist(d, players, race, points, attempts).1
    ensures var r := Persist(d, players, race, points, attempts).0;
            && r.claims == d.claims + PairsOf(players, race)
            && r.grants == d.grants + NewGrants(d.claims, players, race, points)
            && MemoryGrants(r.inserted, players, race, points) == NewGrants(d.claims, players, race, points)
  {
    var db := d.(inserted := []);
    PersistExact(d, players, race, points, attempts);
    EffectExact(db, players, race, points, 0);
    InsertedGrows(db, players, race, points, 0);
    assert players[0..] == players;
    var r := Effect(db, players, race, points, 0);
    forall k | 0 <= k < |players| ensures r.inserted[k] == (Pair(players[k], race) !in d.claims) {
      InsertedExact(db, players, race, points, 0, k);
    }
    MemoryExact(r.inserted, d.claims, players, race, points);
  }

  // ---- Invariant over runs ----

  ghost function GrantedPairs(g: seq<Grant>): (s: set<Pair>) { set x | x in g :: x.pair }

  ghost predicate Inv(w: World, initial: set<Pair>) {
    && OnceEach(w.ledger.grants)
    && w.ledger.claims == initial + GrantedPairs(w.ledger.grants)
    && GrantedPairs(w.ledger.grants) !! initial
    && OnceEach(w.memory) && (forall x :: x in w.memory ==> x in w.ledger.grants)
    && (forall k :: k in w.pending ==> k == KeyOf(w.pending[k].pair) && w.pending[k].pair in w.recipients)
    && (forall p :: p in w.recipients ==> p in w.ledger.claims || KeyOf(p) in w.pending)
  }

  lemma OnceEachConcat(a: seq<Grant>, b: seq<Grant>, claims: set<Pair>)
    requires OnceEach(a) && OnceEach(b)
    requires (forall x :: x in a ==> x.pair in claims) && (forall x :: x in b ==> x.pair !in claims)
    ensures OnceEach(a + b)
  {
    var c := a + b;
    forall i, j | 0 <= i < j < |c| ensures c[i].pair != c[j].pair {
      if i < |a| && |a| <= j {
        assert a[i] in a && b[j - |a|] in b;
      }
    }
  }

  lemma {:induction false} QueuedFacts(w: World, players: seq<Player>, race: Race, points: nat, now: nat)
    requires forall k :: k in w.pending ==> k == KeyOf(w.pending[k].pair)
    ensures var q := Queued(w, players, race, points, now);
            && q == w.(pending := q.pending)
            && (forall k :: k in w.pending ==> k in q.pending && q.pending[k] == w.pending[k])
            && (forall p :: p in players ==> KeyOf(Pair(p, race)) in q.pending)
            && (forall k :: k in q.pending ==>
                k == KeyOf(q.pending[k].pair) && (k in w.pending || q.pending[k].pair in PairsOf(players, race)))
    decreases players
  {
    if players != [] {
      var pair := Pair(players[0], race);
      var p := if KeyOf(pair) in w.pending then w.pending
          else w.pending[KeyOf(pair) := Reward(pair, points, now + RETRY_INITIAL_MS, 0)];
      QueuedFacts(w.(pending := p), players[1..], race, points, now);
      assert players == [players[0]] + players[1..];
    }
  }

  /** A committed list of players extends the history by grants no claim existed for. */
  lemma GrantsExtend(w: World, initial: set<Pair>, players: seq<Player>, race: Race, points: nat, extra: seq<Grant>)
    requires Inv(w, initial)
    requires extra == NewGrants(w.ledger.claims, players, race, points)
    ensures var g := w.ledger.grants + extra;
            && OnceEach(g) && GrantedPairs(g) !! initial
            && w.ledger.claims + PairsOf(players, race) == initial + GrantedPairs(g)
            && OnceEach(w.memory + extra) && (forall x :: x in w.memory + extra ==> x in g)
  {
    var g := w.ledger.grants + extra;
    NewGrantsFacts(w.ledger.claims, players, race, points);
    assert forall x :: x in w.ledger.grants ==> x.pair in GrantedPairs(w.ledger.grants);
    OnceEachConcat(w.ledger.grants, extra, w.ledger.claims);
    OnceEachConcat(w.memory, extra, w.ledger.claims);
    forall p | p in PairsOf(players, race) ensures p in initial + GrantedPairs(g) {
      if p !in w.ledger.claims {
        assert Grant(p, points) in extra && Grant(p, points) in g;
      }
    }
    forall p ensures p in w.ledger.claims + PairsOf(players, race) <==> p in initial + GrantedPairs(g) {
      if p in GrantedPairs(g) {
        var x :| x in g && x.pair == p;
        assert x in w.ledger.grants || x in extra;
      }
      if p in GrantedPairs(w.ledger.grants) {
        var x :| x in w.ledger.grants && x.pair == p;
        assert x in g;
      }
    }
    forall p | p in GrantedPairs(g) ensures p !in initial {
      var x :| x in g && x.pair == p;
      assert x in w.ledger.grants || x in extra;
    }
  }

  lemma DeathKeeps(w: World, initial: set<Pair>, e: Event)
    requires Inv(w, initial) && e.Death?
    ensures Inv(Next(w, e), initial)
  {
    var unique := Unique(e.players, {});
    UniqueFacts(e.players, {});
    var (d, ok) := Persist(w.ledger, unique, e.race, e.points, e.attempts);
    PersistExact(w.ledger, unique, e.race, e.points, e.attempts);
    var v := w.(ledger := d, recipients := w.recipients + PairsOf(unique, e.race));
    if ok {
      CommittedExact(w.ledger, unique, e.race, e.points, e.attempts);
      GrantsExtend(w, initial, unique, e.race, e.points, NewGrants(w.ledger.claims, unique, e.race, e.points));
    } else {
      QueuedFacts(v, unique, e.race, e.points, e.now);
    }
  }

  lemma RetryKeeps(w: World, initial: set<Pair>, e: Event)
    requires Inv(w, initial) && e.Retry?
    ensures Inv(Next(w, e), initial)
  {
    if e.key in w.pending && e.now >= w.pending[e.key].nextAttemptAt {
      var reward := w.pending[e.key];
      var players := [reward.pair.player];
      var (d, ok) := Persist(w.ledger, players, reward.pair.race, reward.points, e.attempts);
      PersistExact(w.ledger, players, reward.pair.race, reward.points, e.attempts);
      if ok {
        CommittedExact(w.ledger, players, reward.pair.race, reward.points, e.attempts);
        GrantsExtend(w, initial, players, reward.pair.race, reward.points,
                     NewGrants(w.ledger.claims, players, reward.pair.race, reward.points));
        assert reward.pair.player in players && reward.pair in PairsOf(players, reward.pair.race);
        var v := Next(w, e);
        forall p | p in v.recipients ensures p in v.ledger.claims || KeyOf(p) in v.pending {
          KeysDistinct(p, reward.pair);
        }
      }
    }
  }

  /**
   A death whose batch goes through adds to the players in memory exactly what it grants in the database; one
   whose batch fails adds nothing, and queues every recipient that is not queued yet, due in a second.
   */
  lemma DeathExact(w: World, initial: set<Pair>, e: Event)
    requires Inv(w, initial) && e.Death?
    ensures var r := Next(w, e);
            && r.recipients == w.recipients + PairsOf(e.players, e.race)
            && (exists extra :: r.ledger.grants == w.ledger.grants + extra && r.memory == w.memory + extra)
            && (r.pending == w.pending ||
                  (&& r.ledger == w.ledger.(inserted := []) && r.memory == w.memory
                   && (forall k :: k in w.pending ==> k in r.pending && r.pending[k] == w.pending[k])
                   && (forall p :: p in PairsOf(e.players, e.race) ==> KeyOf(p) in r.pending)
                   && (forall k :: k in r.pending && k !in w.pending ==>
                         r.pending[k] == Reward(r.pending[k].pair, e.points, e.now + 1_000, 0))))
  {
    var unique := Unique(e.players, {});
    UniqueFacts(e.players, {});
    assert PairsOf(unique, e.race) == PairsOf(e.players, e.race);
    var (d, ok) := Persist(w.ledger, unique, e.race, e.points, e.attempts);
    PersistExact(w.ledger, unique, e.race, e.points, e.attempts);
    var v := w.(ledger := d, recipients := w.recipients + PairsOf(unique, e.race));
    if ok {
      CommittedExact(w.ledger, unique, e.race, e.points, e.attempts);
    } else {
      QueuedFacts(v, unique, e.race, e.points, e.now);
      QueuedFresh(v, unique, e.race, e.points, e.now);
      assert w.ledger.grants == w.ledger.grants + [] && w.memory == w.memory + [];
    }
  }

  lemma {:induction false} QueuedFresh(w: World, players: seq<Player>, race: Race, points: nat, now: nat)
    ensures var q := Queued(w, players, race, points, now);
            forall k :: k in q.pending && k !in w.pending ==>
              q.pending[k] == Reward(q.pending[k].pair, points, now + 1_000, 0)
    decreases players
  {
    if players != [] {
      var pair := Pair(players[0], race);
      var p := if KeyOf(pair) in w.pending then w.pending
          else w.pending[KeyOf(pair) := Reward(pair, points, now + RETRY_INITIAL_MS, 0)];
      QueuedKeeps(w.(pending := p), players[1..], race, points, now);
      QueuedFresh(w.(pending := p), players[1..], race, points, now);
    }
  }

  lemma {:induction false} QueuedKeeps(w: World, players: seq<Player>, race: Race, points: nat, now: nat)
    ensures var q := Queued(w, players, race, points, now);
            forall k :: k in w.pending ==> k in q.pending && q.pending[k] == w.pending[k]
    decreases players
  {
    if players != [] {
      var pair := Pair(players[0], race);
      var p := if KeyOf(pair) in w.pending then w.pending
          else w.pending[KeyOf(pair) := Reward(pair, points, now + RETRY_INITIAL_MS, 0)];
      QueuedKeeps(w.(pending := p), players[1..], race, points, now);
    }
  }

  ghost predicate Run(worlds: seq<World>, events: seq<Event>) {
    && |worlds| == |events| + 1
    && worlds[0].ledger.grants == [] && worlds[0].memory == [] && worlds[0].pending == map[] &&
        worlds[0].recipients == {}
    && forall k :: 0 <= k < |events| ==> worlds[k + 1] == Next(worlds[k], events[k])
  }

  /**
   Main result. Over any run of Warden deaths, failed batches and retries: charm points are granted at
   most once per player and race, exactly to the pairs whose claim row was inserted during the run;
   points added in memory are among them, each once; and whoever took part either has the claim or
   is waiting for a retry.
   */
  lemma {:induction false} RunKeeps(worlds: seq<World>, events: seq<Event>, k: nat)
    requires Run(worlds, events) && k <= |events|
    ensures Inv(worlds[k], worlds[0].ledger.claims)
  {
    if k == 0 {
      assert GrantedPairs([]) == {};
    } else {
      RunKeeps(worlds, events, k - 1);
      assert worlds[k - 1 + 1] == Next(worlds[k - 1], events[k - 1]);
      if events[k - 1].Death? {
        DeathKeeps(worlds[k - 1], worlds[0].ledger.claims, events[k - 1]);
      } else {
        RetryKeeps(worlds[k - 1], worlds[0].ledger.claims, events[k - 1]);
      }
    }
  }

  /** A retry that meets no failure takes the reward off the queue and leaves its pair claimed. */
  lemma RetrySucceeds(w: World, initial: set<Pair>, e: Event)
    requires Inv(w, initial) && e.Retry? && e.key in w.pending && e.now >= w.pending[e.key].nextAttemptAt
    requires e.attempts(1).begin && e.attempts(1).commit.Ok? && forall i: nat :: e.attempts(1).outcomes(i).Ok?
    ensures e.key !in Next(w, e).pending && w.pending[e.key].pair in Next(w, e).ledger.claims
  {
    var reward := w.pending[e.key];
    PersistSucceeds(w.ledger, [reward.pair.player], reward.pair.race, reward.points, e.attempts);
    CommittedExact(w.ledger, [reward.pair.player], reward.pair.race, reward.points, e.attempts);
    assert reward.pair.player in [reward.pair.player];
  }

  /** The waits after the first six failures; it stays at a minute. */
  lemma RetryTimes()
    ensures RetryDelay(1) == 2_000 && RetryDelay(2) == 4_000 && RetryDelay(3) == 8_000
    ensures RetryDelay(4) == 16_000 && RetryDelay(5) == 32_000 && RetryDelay(6) == 60_000
  {
    assert Power(3) == 8 && Power(6) == 8 * Power(3);
  }

  /**
   A due retry that fails only waits longer, counting up to six; one that goes through leaves the queue and
   adds to a player online what it grants, which is nothing if the claim was there already.
   */
  lemma RetryExact(w: World, initial: set<Pair>, e: Event)
    requires Inv(w, initial) && e.Retry? && e.key in w.pending && e.now >= w.pending[e.key].nextAttemptAt
    ensures var r, b := Next(w, e), w.pending[e.key];
            var n := Min(b.attempts + 1, 6);
            && (e.key in r.pending ==>
                  && r.ledger == w.ledger.(inserted := []) && r.memory == w.memory
                  && r.pending == w.pending[e.key := b.(attempts := n, nextAttemptAt := e.now + RetryDelay(n))])
            && (e.key !in r.pending ==>
                  var extra := if b.pair in w.ledger.claims then [] else [Grant(b.pair, b.points)];
                  && r.pending == w.pending - {e.key}
                  && r.ledger.grants == w.ledger.grants + extra
                  && r.memory == w.memory + if e.online then extra else [])
  {
    var b := w.pending[e.key];
    var players := [b.pair.player];
    PersistExact(w.ledger, players, b.pair.race, b.points, e.attempts);
    if Persist(w.ledger, players, b.pair.race, b.points, e.attempts).1 {
      CommittedExact(w.ledger, players, b.pair.race, b.points, e.attempts);
      assert players[1..] == [];
      assert NewGrants(w.ledger.claims + {b.pair}, [], b.pair.race, b.points) == [];
    }
  }

  /** Between failures the wait grows and never exceeds one minute. */
  lemma BackOff(n: nat)
    requires 1 <= n <= MAX_RETRY_SHIFT
    ensures RetryDelay(n - 1) <= RetryDelay(n) <= RETRY_MAX_MS
    ensures RetryDelay(MAX_RETRY_SHIFT) == RETRY_MAX_MS
  {
    assert Power(3) == 8 && Power(6) == 8 * Power(3);
  }

  // ---- The loop over the queue ----

  predicate DueAt(reward: Reward, now: nat) { now >= reward.nextAttemptAt }

  /** What one try leaves of a due reward: it is claimed and gone, or it waits longer. */
  ghost predicate TriedOnce(before: Reward, key: Key, r: World, now: nat) {
    if key in r.pending then
      var n := Min(before.attempts + 1, MAX_RETRY_SHIFT);
      r.pending[key] == before.(attempts := n, nextAttemptAt := now + RetryDelay(n))
    else before.pair in r.ledger.claims
  }

  /** One turn of the loop: a reward that is not due is left alone, a due one is tried. */
  lemma TurnEffect(w: World, initial: set<Pair>, e: Event)
    requires Inv(w, initial) && e.Retry? && e.key in w.pending
    ensures var r := Next(w, e);
            && Inv(r, initial) && r.recipients == w.recipients
            && w.ledger.grants <= r.ledger.grants && w.ledger.claims <= r.ledger.claims
            && (forall k :: k != e.key ==>
                (k in r.pending <==> k in w.pending) && (k in w.pending ==> r.pending[k] == w.pending[k]))
            && (if DueAt(w.pending[e.key], e.now) then TriedOnce(w.pending[e.key], e.key, r, e.now) else r == w)
  {
    RetryKeeps(w, initial, e);
    var reward := w.pending[e.key];
    var players := [reward.pair.player];
    PersistExact(w.ledger, players, reward.pair.race, reward.points, e.attempts);
    if Persist(w.ledger, players, reward.pair.race, reward.points, e.attempts).1 {
      CommittedExact(w.ledger, players, reward.pair.race, reward.points, e.attempts);
      assert reward.pair.player in players;
    }
  }

  /** What the loop has done for one key. */
  ghost predicate Visited(w: World, r: World, k: Key, now: nat)
    requires k in w.pending
  {
    if DueAt(w.pending[k], now) then TriedOnce(w.pending[k], k, r, now)
    else k in r.pending && r.pending[k] == w.pending[k]
  }

  /** A key is not visited again, so the verdict on it stays. */
  lemma VisitedStays(w: World, initial: set<Pair>, r: World, e: Event, k: Key, now: nat)
    requires k in w.pending && Visited(w, r, k, now)
    requires Inv(r, initial) && e.Retry? && e.key in r.pending && k != e.key
    ensures Visited(w, Next(r, e), k, now)
  {
    TurnEffect(r, initial, e);
  }

  lemma Split(order: seq<Key>, i: nat)
    requires i < |order| && NoDuplicates(order)
    ensures forall k :: k in order[..i + 1] <==> k in order[..i] || k == order[i]
    ensures order[i] !in order[..i] && order[i] in order[i..] && forall k :: k in order[i + 1..] ==>
            k in order[i..] && k != order[i]
    ensures forall k :: k in order ==> k in order[..i] || k in order[i..]
  {
    assert order[..i + 1] == order[..i] + [order[i]] && order == order[..i] + order[i..];
    assert order[i..] == [order[i]] + order[i + 1..];
  }

  /**
   retryPendingWardenRewards, in whatever order the map lists its keys: each due reward is tried exactly
   once, and is claimed and gone or waits longer; the others are left alone.
   */
  method RetryPending(w: World, initial: set<Pair>, order: seq<Key>, outcomes: nat -> nat -> Attempt,
      online: nat -> bool, now: nat)
    returns (r: World)
    requires Inv(w, initial)
    requires NoDuplicates(order) && forall k :: k in order <==> k in w.pending
    ensures Inv(r, initial) && r.recipients == w.recipients
    ensures w.ledger.grants <= r.ledger.grants && w.ledger.claims <= r.ledger.claims
    ensures forall k :: k in w.pending ==> Visited(w, r, k, now)
    ensures forall k :: k in r.pending ==> k in w.pending
  {
    r := w;
    var i := 0;
    assert order[..0] == [] && order[0..] == order;
    while i < |order|
      invariant 0 <= i <= |order| && Inv(r, initial)
      invariant w.ledger.grants <= r.ledger.grants && w.ledger.claims <= r.ledger.claims
      invariant r.recipients == w.recipients
      invariant forall k :: k in order[..i] ==> k in w.pending && Visited(w, r, k, now)
      invariant forall k :: k in order[i..] ==> k in w.pending && k in r.pending && r.pending[k] == w.pending[k]
      invariant forall k :: k in r.pending ==> k in w.pending
    {
      Split(order, i);
      var e := Retry(order[i], outcomes(i), now, online(i));
      TurnEffect(r, initial, e);
      forall k | k in order[..i] ensures Visited(w, Next(r, e), k, now) {
        VisitedStays(w, initial, r, e, k, now);
      }
      r := Next(r, e);
      i := i + 1;
    }
    assert order[..i] == order;
  }
}
