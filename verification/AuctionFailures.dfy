/**
 What failing checks do to createAuction (src/character_bazaar.cpp): when a call is not all or
 nothing, and when an account gets a second active auction.

 A check that is chosen as deadlock victim ends the transaction, the answer reads as "no rows", and
 the body goes on: its statements then take effect one by one, for good.
 */
module AuctionFailures {
  import opened Basics
  import opened Transactions
  import opened AccountCoins
  import opened CharacterBazaar

  // ---- One attempt ----

  /** The body gets past the account lock and the two checks. */
  ghost predicate Passes(m: Market, f: Offer, o: nat -> Outcome) {
    o(0).Ok? && f.account in m.bank.coins && LooksFree(m, f, o)
  }

  /** The fee can be paid, and its statement, if there is one, goes through. */
  predicate Pays(m: Market, f: Offer, o: nat -> Outcome) { CanPay(m, f) && (f.fee == 0 || o(3).Ok?) }

  function Paid(m: Market, f: Offer): (r: Market) {
    m.(bank := if f.fee == 0 then m.bank else Debited(m.bank, f.account, f.fee))
  }

  /** The statements of the body ended on an error that asks for a retry, judged by the last one that was sent. */
  ghost predicate StopsLocked(m: Market, f: Offer, o: nat -> Outcome) {
    if !o(0).Ok? then AsksRetry(o(0))
    else if !Passes(m, f, o) then false
    else if f.account == 0 || (f.fee != 0 && f.fee > MAX_COINS) then AsksRetry(o(2))
    else if f.fee != 0 && !o(3).Ok? then AsksRetry(o(3))
    else if f.fee != 0 && !CanDebit(m.bank, f.account, f.fee) then false
    else if !o(4).Ok? then AsksRetry(o(4))
    else m.nextId != 0 && AsksRetry(o(5))
  }

  /** What the statements from the insertion on leave when each takes effect at once. */
  function Stored(m: Market, f: Offer, o: nat -> Outcome): (r: Market)
    requires CanPay(m, f)
  {
    if !o(4).Ok? then Paid(m, f)
    else if m.nextId == 0 || !o(5).Ok? then Inserted(Paid(m, f), f)
    else Listed(m, f)
  }

  /** The body answers true. */
  ghost predicate Answers(m: Market, f: Offer, o: nat -> Outcome) {
    Passes(m, f, o) && Pays(m, f, o) && o(4).Ok? && m.nextId != 0 && o(5).Ok?
  }

  /** The rows committed when the body is over, before commit or rollback. */
  ghost function Left(m: Market, f: Offer, o: nat -> Outcome): (r: Market) {
    if Passes(m, f, o) && !NoVictim(o) && Pays(m, f, o) then Stored(m, f, o) else m
  }

  lemma BodyExact(m: Market, f: Offer, o: nat -> Outcome)
    ensures var (s, ok) := CreateBody(f, Began(m), o);
            && s.committed == Left(m, f, o) && ok == Answers(m, f, o)
            && (ok ==> Current(s) == Listed(m, f))
            && (!ok ==> (s.errno.LockError? <==> StopsLocked(m, f, o)))
  {
    if Passes(m, f, o) {
      var s2 := Read(Read(Read(Began(m), o(0)), o(1)), o(2));
      assert s2.committed == m && (s2.open == if NoVictim(o) then Some(m) else None);
      assert s2.errno.LockError? <==> AsksRetry(o(2));
      ListingExact(m, f, s2, o);
      ListingStops(m, f, s2, o);
    }
  }

  lemma ListingExact(m: Market, f: Offer, s: Session<Market>, o: nat -> Outcome)
    requires s.committed == m && (s.open.Some? ==> s.open == Some(m)) && f.account in m.bank.coins
    ensures var (r, ok) := ListBody(f, s, o);
            && r.committed == (if s.open.None? && Pays(m, f, o) then Stored(m, f, o) else m)
            && ok == (Pays(m, f, o) && o(4).Ok? && m.nextId != 0 && o(5).Ok?)
            && (ok ==> Current(r) == Listed(m, f))
  {
    var (s3, paid) := DebitIn(s, f.account, f.fee, o(3));
    FeeExact(m, f, s, o(3));
    if paid {
      assert Current(s3) == Paid(m, f);
    }
  }

  /** The last error of the listing. */
  lemma ListingStops(m: Market, f: Offer, s: Session<Market>, o: nat -> Outcome)
    requires s.committed == m && (s.open.Some? ==> s.open == Some(m)) && Passes(m, f, o)
    requires s.errno.LockError? <==> AsksRetry(o(2))
    ensures !ListBody(f, s, o).1 ==> (ListBody(f, s, o).0.errno.LockError? <==> StopsLocked(m, f, o))
  {
    FeeExact(m, f, s, o(3));
  }

  lemma FeeExact(m: Market, f: Offer, s: Session<Market>, o: Outcome)
    requires s.committed == m && (s.open.Some? ==> s.open == Some(m)) && f.account in m.bank.coins
    ensures var (r, paid) := DebitIn(s, f.account, f.fee, o);
            && paid == (CanPay(m, f) && (f.fee == 0 || o.Ok?))
            && (paid ==> Current(r) == Paid(m, f) && r.open.Some? == s.open.Some?)
            && r.committed == (if s.open.None? && paid then Paid(m, f) else m)
  {
  }

  /**
   Exact condition, one attempt: the body has written for good, outside any transaction, if and only
   if it passed the checks although one of them was a deadlock victim, and its first statement that
   changes a row went through.
   */
  ghost predicate Escapes(m: Market, f: Offer, o: nat -> Outcome) {
    && Passes(m, f, o) && (o(1).Victim? || o(2).Victim?) && f.account != 0
    && if f.fee == 0 then o(4).Ok? else f.fee <= MAX_COINS && o(3).Ok? && CanDebit(m.bank, f.account, f.fee)
  }

  lemma EscapesIff(m: Market, f: Offer, o: nat -> Outcome)
    ensures CreateBody(f, Began(m), o).0.committed != m <==> Escapes(m, f, o)
  {
    BodyExact(m, f, o);
    if Escapes(m, f, o) {
      Further(m, f, o);
    }
  }

  function CoinsOf(m: Market, a: Account): (n: nat) { if a in m.bank.coins then m.bank.coins[a] else 0 }

  lemma Further(m: Market, f: Offer, o: nat -> Outcome)
    requires CanPay(m, f) && (f.fee == 0 ==> o(4).Ok?)
    ensures Stored(m, f, o).nextId == m.nextId + (if o(4).Ok? then 1 else 0)
    ensures CoinsOf(Stored(m, f, o), f.account) == CoinsOf(m, f.account) - f.fee
    ensures Stored(m, f, o) != m
  {
  }

  /** The rows one attempt leaves. */
  ghost function RowsAfter(m: Market, f: Offer, a: Attempt): (r: Market) {
    if !a.begin then m
    else if Answers(m, f, a.outcomes) && a.commit.Ok? then Listed(m, f)
    else Left(m, f, a.outcomes)
  }

  /** It fails in a way that is retried. */
  ghost predicate Retried(m: Market, f: Offer, a: Attempt) {
    a.begin && if Answers(m, f, a.outcomes) then AsksRetry(a.commit) else StopsLocked(m, f, a.outcomes)
  }

  lemma AttemptRows(m: Market, f: Offer, a: Attempt)
    ensures var (r, v) := Tried(m, Creator(f), a);
            && r == RowsAfter(m, f, a) && (v.Again? <==> Retried(m, f, a))
            && (v.Committed? <==> a.begin && Answers(m, f, a.outcomes) && a.commit.Ok?)
  {
    BodyExact(m, f, a.outcomes);
  }

  // ---- A whole call: all or nothing ----

  /** The call applied the whole creation and answered true, or changed nothing and answered false. */
  ghost predicate Whole(m: Market, f: Offer, result: (Market, bool)) {
    if result.1 then CanPay(m, f) && result.0 == Listed(m, f) else result.0 == m
  }

  /** The attempt writes for good and yet does not carry the creation through. */
  ghost predicate Tears(m: Market, f: Offer, a: Attempt) {
    a.begin && Escapes(m, f, a.outcomes) && !(Answers(m, f, a.outcomes) && a.commit.Ok?)
  }

  /** Attempt k is reached and tears. */
  ghost predicate TornAt(m: Market, f: Offer, attempts: nat -> Attempt, from: nat, k: nat) {
    && from <= k <= TRANSACTION_MAX_ATTEMPTS && Tears(m, f, attempts(k))
    && forall j :: from <= j < k ==> Retried(m, f, attempts(j))
  }

  ghost function Creation(f: Offer): (trial: Trial<Market>) { Trials(Creator(f)) }

  /** Numbers grow and the seller's coins shrink; success takes another number and another fee. */
  ghost predicate Onward(m: Market, f: Offer, r: Market, ok: bool) {
    && r.nextId >= m.nextId + (if ok then 1 else 0)
    && CoinsOf(r, f.account) <= CoinsOf(m, f.account) - (if ok then f.fee else 0)
  }

  lemma AttemptOnward(m: Market, f: Offer, a: Attempt)
    ensures Onward(m, f, Tried(m, Creator(f), a).0, Tried(m, Creator(f), a).1.Committed?)
  {
    AttemptRows(m, f, a);
  }

  lemma {:induction false} NeverBack(m: Market, f: Offer, trial: Trial<Market>, attempts: nat -> Attempt, attempt: nat)
    requires 1 <= attempt <= TRANSACTION_MAX_ATTEMPTS
    requires forall d, a {:trigger trial(d, a)} :: Onward(d, f, trial(d, a).0, trial(d, a).1.Committed?)
    ensures Onward(m, f, Chain(m, trial, attempts, attempt).0, Chain(m, trial, attempts, attempt).1)
    decreases TRANSACTION_MAX_ATTEMPTS - attempt
  {
    var (r, v) := trial(m, attempts(attempt));
    assert Onward(m, f, r, v.Committed?);
    if v.Again? && attempt < TRANSACTION_MAX_ATTEMPTS {
      NeverBack(r, f, trial, attempts, attempt + 1);
    }
  }

  /** The rows r are ahead of m by a number or by a fee that is not zero. */
  ghost predicate Ahead(m: Market, f: Offer, r: Market) {
    && CoinsOf(r, f.account) == CoinsOf(m, f.account) - f.fee
    && (r.nextId == m.nextId + 1 || (r.nextId == m.nextId && f.fee > 0))
  }

  /** An attempt either carries the creation through, leaves nothing, or tears. */
  ghost predicate Outcomes(m: Market, f: Offer, torn: bool, retried: bool, r: Market, v: Verdict) {
    && (v.Again? <==> retried)
    && if v.Committed? then !torn && CanPay(m, f) && r == Listed(m, f) else if torn then Ahead(m, f, r) else r == m
  }

  lemma AttemptOutcomes(m: Market, f: Offer, a: Attempt)
    ensures Outcomes(m, f, Tears(m, f, a), Retried(m, f, a), Tried(m, Creator(f), a).0, Tried(m, Creator(f), a).1)
  {
    AttemptRows(m, f, a);
    EscapesIff(m, f, a.outcomes);
    BodyExact(m, f, a.outcomes);
    if Tears(m, f, a) {
      Further(m, f, a.outcomes);
    }
  }

  lemma AheadNotWhole(m: Market, f: Offer, r: Market, e: Market, ok: bool)
    requires Ahead(m, f, r) && Onward(r, f, e, ok)
    ensures !Whole(m, f, (e, ok))
  {
    if ok && CanPay(m, f) {
      var d := Listed(m, f);
      assert d.nextId == m.nextId + 1 && CoinsOf(d, f.account) == CoinsOf(m, f.account) - f.fee;
    }
  }

  lemma TornNotWhole(m: Market, f: Offer, trial: Trial<Market>, attempts: nat -> Attempt, attempt: nat)
    requires 1 <= attempt <= TRANSACTION_MAX_ATTEMPTS
    requires Outcomes(m, f, true, Retried(m, f, attempts(attempt)), trial(m, attempts(attempt)).0,
             trial(m, attempts(attempt)).1)
    requires forall d, a {:trigger trial(d, a)} :: Onward(d, f, trial(d, a).0, trial(d, a).1.Committed?)
    ensures !Whole(m, f, Chain(m, trial, attempts, attempt))
  {
    var (r, v) := trial(m, attempts(attempt));
    if v.Again? && attempt < TRANSACTION_MAX_ATTEMPTS {
      NeverBack(r, f, trial, attempts, attempt + 1);
    }
    var (e, ok) := Chain(m, trial, attempts, attempt);
    AheadNotWhole(m, f, r, e, ok);
  }

  /** An attempt that does not tear and is retried passes the question on. */
  lemma TornLater(m: Market, f: Offer, attempts: nat -> Attempt, attempt: nat, next: nat)
    requires next == attempt + 1 <= TRANSACTION_MAX_ATTEMPTS
    requires !Tears(m, f, attempts(attempt)) && Retried(m, f, attempts(attempt))
    ensures (exists k :: TornAt(m, f, attempts, attempt, k)) <==> (exists k :: TornAt(m, f, attempts, next, k))
  {
    if k: nat :| TornAt(m, f, attempts, next, k) {
      assert TornAt(m, f, attempts, attempt, k);
    }
    if k: nat :| TornAt(m, f, attempts, attempt, k) {
      assert TornAt(m, f, attempts, next, k);
    }
  }

  lemma NotTorn(m: Market, f: Offer, attempts: nat -> Attempt, attempt: nat, k: nat)
    requires 1 <= attempt <= TRANSACTION_MAX_ATTEMPTS && !Tears(m, f, attempts(attempt))
    requires attempt < TRANSACTION_MAX_ATTEMPTS ==> !Retried(m, f, attempts(attempt))
    ensures !TornAt(m, f, attempts, attempt, k)
  {
  }

  lemma TornNow(m: Market, f: Offer, trial: Trial<Market>, attempts: nat -> Attempt, attempt: nat)
    requires 1 <= attempt <= TRANSACTION_MAX_ATTEMPTS && Tears(m, f, attempts(attempt))
    requires Outcomes(m, f, true, Retried(m, f, attempts(attempt)), trial(m, attempts(attempt)).0,
             trial(m, attempts(attempt)).1)
    requires forall d, a {:trigger trial(d, a)} :: Onward(d, f, trial(d, a).0, trial(d, a).1.Committed?)
    ensures !Whole(m, f, Chain(m, trial, attempts, attempt)) && exists k :: TornAt(m, f, attempts, attempt, k)
  {
    TornNotWhole(m, f, trial, attempts, attempt);
    assert TornAt(m, f, attempts, attempt, attempt);
  }

  lemma {:induction false} WholeIff(m: Market, f: Offer, trial: Trial<Market>, attempts: nat -> Attempt, attempt: nat)
    requires 1 <= attempt <= TRANSACTION_MAX_ATTEMPTS
    requires forall d, a {:trigger trial(d, a)} :: Onward(d, f, trial(d, a).0, trial(d, a).1.Committed?)
    requires forall a {:trigger trial(m, a)} ::
             Outcomes(m, f, Tears(m, f, a), Retried(m, f, a), trial(m, a).0, trial(m, a).1)
    ensures !Whole(m, f, Chain(m, trial, attempts, attempt)) <==> exists k :: TornAt(m, f, attempts, attempt, k)
    decreases TRANSACTION_MAX_ATTEMPTS - attempt
  {
    var (r, v) := trial(m, attempts(attempt));
    assert Outcomes(m, f, Tears(m, f, attempts(attempt)), Retried(m, f, attempts(attempt)), r, v);
    if Tears(m, f, attempts(attempt)) {
      assert Outcomes(m, f, true, Retried(m, f, attempts(attempt)), r, v);
      TornNow(m, f, trial, attempts, attempt);
    } else if v.Again? && attempt < TRANSACTION_MAX_ATTEMPTS {
      WholeIff(m, f, trial, attempts, attempt + 1);
      TornLater(m, f, attempts, attempt, attempt + 1);
    } else {
      forall k: nat ensures !TornAt(m, f, attempts, attempt, k) {
        NotTorn(m, f, attempts, attempt, k);
      }
    }
  }

  /**
   Main result. A creation is not all or nothing if and only if some attempt, reached through retries,
   writes for good after a deadlock on a check and is not carried through.
   */
  lemma CreateWholeIff(m: Market, f: Offer, attempts: nat -> Attempt)
    ensures !Whole(m, f, Create(m, f, attempts)) <==> exists k :: TornAt(m, f, attempts, 1, k)
  {
    var trial := Creation(f);
    forall d, a {:trigger trial(d, a)} ensures Onward(d, f, trial(d, a).0, trial(d, a).1.Committed?) {
      AttemptOnward(d, f, a);
    }
    forall a {:trigger trial(m, a)}
        ensures Outcomes(m, f, Tears(m, f, a), Retried(m, f, a), trial(m, a).0, trial(m, a).1) {
      AttemptOutcomes(m, f, a);
    }
    ExecutedIsChain(m, Creator(f), attempts, 1);
    WholeIff(m, f, trial, attempts, 1);
  }

  // ---- Two active auctions ----

  /** The attempt leaves a new auction, whatever it answers. */
  ghost predicate Inserts(m: Market, f: Offer, a: Attempt) {
    && a.begin && Passes(m, f, a.outcomes) && Pays(m, f, a.outcomes) && a.outcomes(4).Ok?
    && (!NoVictim(a.outcomes) || (a.outcomes(5).Ok? && a.commit.Ok?))
  }

  lemma AttemptInserts(m: Market, f: Offer, a: Attempt)
    requires FreshIds(m)
    ensures var r := Tried(m, Creator(f), a).0;
            if Inserts(m, f, a) then r.auctions == Inserted(m, f).auctions && r.nextId == m.nextId + 1
            else r.auctions == m.auctions && r.nextId == m.nextId
  {
    AttemptRows(m, f, a);
  }

  /** One attempt breaks the rule if and only if it leaves a new auction for an account that has one. */
  lemma AttemptBreaksIff(m: Market, f: Offer, a: Attempt)
    requires OneActive(m) && FreshIds(m)
    ensures !OneActive(Tried(m, Creator(f), a).0) <==> Inserts(m, f, a) && AccountBusy(m, f.account)
    ensures FreshIds(Tried(m, Creator(f), a).0)
  {
    AttemptInserts(m, f, a);
    if Inserts(m, f, a) {
      ListedOneActive(m, f, Tried(m, Creator(f), a).0);
    }
  }

  /** What matters of one attempt: the rows it leaves, whether it is retried, and whether it breaks the rule. */
  datatype Effect = Effect(rows: Market, retried: bool, breaks: bool)

  type Effects = (Market, Attempt) -> Effect

  ghost function EffectsOf(f: Offer): (effects: Effects) {
    (m, a) => Effect(RowsAfter(m, f, a), Retried(m, f, a), Inserts(m, f, a) && AccountBusy(m, f.account))
  }

  /** Some attempt, on the rows the earlier ones left, breaks the rule. */
  ghost predicate BreaksFrom(m: Market, effects: Effects, attempts: nat -> Attempt, attempt: nat)
    requires 1 <= attempt <= TRANSACTION_MAX_ATTEMPTS
    decreases TRANSACTION_MAX_ATTEMPTS - attempt
  {
    var e := effects(m, attempts(attempt));
    e.breaks || (e.retried && attempt < TRANSACTION_MAX_ATTEMPTS && BreaksFrom(e.rows, effects, attempts, attempt + 1))
  }

  ghost predicate Breaks(m: Market, f: Offer, attempts: nat -> Attempt) { BreaksFrom(m, EffectsOf(f), attempts, 1) }

  lemma BrokenStays(m: Market, d: Market)
    requires !OneActive(m) && Grows(m, d)
    ensures !OneActive(d)
  {
    var i, j :| i in m.auctions && j in m.auctions && m.auctions[i].status.Active? && m.auctions[j].status.Active?
                && m.auctions[i].seller == m.auctions[j].seller && i != j;
    assert d.auctions[i] == m.auctions[i] && d.auctions[j] == m.auctions[j];
  }

  /** An attempt leaves what its effect says, and breaks the rule exactly if it says so. */
  ghost predicate AsTold(m: Market, e: Effect, result: (Market, Verdict)) {
    && result.0 == e.rows && (result.1.Again? <==> e.retried)
    && (FreshIds(m) ==> Grows(m, e.rows) && (OneActive(m) ==> (!OneActive(e.rows) <==> e.breaks)))
  }

  lemma {:induction false} BreaksIff(m: Market, trial: Trial<Market>, effects: Effects, attempts: nat -> Attempt,
      attempt: nat)
    requires 1 <= attempt <= TRANSACTION_MAX_ATTEMPTS && OneActive(m) && FreshIds(m)
    requires forall d, a {:trigger trial(d, a)} :: AsTold(d, effects(d, a), trial(d, a))
    ensures !OneActive(Chain(m, trial, attempts, attempt).0) <==> BreaksFrom(m, effects, attempts, attempt)
    decreases TRANSACTION_MAX_ATTEMPTS - attempt
  {
    var (r, v) := trial(m, attempts(attempt));
    var e := effects(m, attempts(attempt));
    assert AsTold(m, e, (r, v));
    if v.Again? && attempt < TRANSACTION_MAX_ATTEMPTS {
      if OneActive(r) {
        BreaksIff(r, trial, effects, attempts, attempt + 1);
      } else {
        forall d, a {:trigger trial(d, a)} | FreshIds(d) ensures Grows(d, trial(d, a).0) {
          assert AsTold(d, effects(d, a), trial(d, a));
        }
        ChainGrows(r, trial, attempts, attempt + 1);
        BrokenStays(r, Chain(r, trial, attempts, attempt + 1).0);
      }
    }
  }

  lemma AttemptAsTold(m: Market, f: Offer, a: Attempt)
    ensures AsTold(m, EffectsOf(f)(m, a), Tried(m, Creator(f), a))
  {
    AttemptRows(m, f, a);
    if FreshIds(m) {
      TriedGrows(m, f, a);
      if OneActive(m) {
        AttemptBreaksIff(m, f, a);
      }
    }
  }

  /**
   Main result. A creation, whatever it answers, leaves an account with two active auctions if and
   only if one of its attempts leaves a new auction for an account that has an active one.
   */
  lemma CreateBreaksIff(m: Market, f: Offer, attempts: nat -> Attempt)
    requires OneActive(m) && FreshIds(m)
    ensures !OneActive(Create(m, f, attempts).0) <==> Breaks(m, f, attempts)
  {
    var trial, effects := Creation(f), EffectsOf(f);
    forall d, a {:trigger trial(d, a)} ensures AsTold(d, effects(d, a), trial(d, a)) {
      AttemptAsTold(d, f, a);
    }
    ExecutedIsChain(m, Creator(f), attempts, 1);
    BreaksIff(m, trial, effects, attempts, 1);
  }

  /** While both checks of every attempt succeed, none does. */
  lemma CheckedNeverBreaks(m: Market, f: Offer, attempts: nat -> Attempt)
    requires forall k {:trigger attempts(k)} :: 1 <= k <= TRANSACTION_MAX_ATTEMPTS ==>
               attempts(k).outcomes(1).Ok? && attempts(k).outcomes(2).Ok?
    ensures !Breaks(m, f, attempts)
  {
    CheckedFrom(m, f, attempts, 1);
  }

  lemma {:induction false} CheckedFrom(m: Market, f: Offer, attempts: nat -> Attempt, attempt: nat)
    requires 1 <= attempt <= TRANSACTION_MAX_ATTEMPTS
    requires forall k {:trigger attempts(k)} :: 1 <= k <= TRANSACTION_MAX_ATTEMPTS ==>
               attempts(k).outcomes(1).Ok? && attempts(k).outcomes(2).Ok?
    ensures !BreaksFrom(m, EffectsOf(f), attempts, attempt)
    decreases TRANSACTION_MAX_ATTEMPTS - attempt
  {
    var a := attempts(attempt);
    assert a.outcomes(2).Ok?;
    if attempt < TRANSACTION_MAX_ATTEMPTS {
      CheckedFrom(EffectsOf(f)(m, a).rows, f, attempts, attempt + 1);
    }
  }

  /** One step of a run makes an account's second active auction if and only if it is a creation that breaks. */
  lemma StepBreaksIff(m: Market, op: CharacterBazaar.Op)
    requires OneActive(m) && FreshIds(m)
    ensures !OneActive(CharacterBazaar.Apply(m, op)) <==> op.DoCreate? && Breaks(m, op.offer, op.attempts)
  {
    match op {
      case DoFinalize(i, now, attempts) => FinalizeExact(m, i, now, attempts);
      case DoCreate(f, attempts) => CreateBreaksIff(m, f, attempts);
      case DoBid(i, bidder, bid) =>
    }
  }

  /** As long as no creation breaks, no account ever has two active auctions. */
  lemma {:induction false} OneActiveAlways(states: seq<Market>, ops: seq<CharacterBazaar.Op>, k: nat)
    requires CharacterBazaar.Run(states, ops) && k <= |ops| && OneActive(states[0])
    requires forall i :: 0 <= i < |ops| && ops[i].DoCreate? ==> !Breaks(states[i], ops[i].offer, ops[i].attempts)
    ensures OneActive(states[k])
  {
    if k > 0 {
      OneActiveAlways(states, ops, k - 1);
      IdsStayFresh(states, ops, k - 1);
      StepBreaksIff(states[k - 1], ops[k - 1]);
      assert states[k - 1 + 1] == CharacterBazaar.Apply(states[k - 1], ops[k - 1]);
    }
  }

  // ---- Concrete calls ----

  const EXAMPLE := Market(map[1 := Auction(7, 5, 0, 0, 10, Active, 100, 0, 0)], map[7 := 5, 8 := 5],
                          Bank(map[5 := 1000], []), [], 2)
  const OFFER := Offer(8, 5, 50, 10, 200)

  /** Everything goes well but statement 2, the account check, and one more. */
  function Bad(check: Outcome, other: nat): (attempts: nat -> Attempt) {
    (k: nat) => Attempt(true, (i: nat) => if i == 2 then check else if i == other then Failed else Ok, Ok)
  }

  lemma ExampleFacts()
    ensures OneActive(EXAMPLE) && FreshIds(EXAMPLE) && AccountBusy(EXAMPLE, 5) && !PlayerBusy(EXAMPLE, 8)
  {
    assert 1 in EXAMPLE.auctions;
  }

  /** A lock timeout on the account check, everything else fine: two active auctions for account 5. */
  lemma SecondAuctionHappens()
    ensures OneActive(EXAMPLE)
    ensures Create(EXAMPLE, OFFER, Bad(TimedOut, 9)).1 && !OneActive(Create(EXAMPLE, OFFER, Bad(TimedOut, 9)).0)
  {
    ExampleFacts();
    AttemptRows(EXAMPLE, OFFER, Bad(TimedOut, 9)(1));
    CreateBreaksIff(EXAMPLE, OFFER, Bad(TimedOut, 9));
  }

  /** A deadlock on the account check and a failed insertion: the fee is gone although the call answers false. */
  lemma FeeLostHappens()
    ensures Create(EXAMPLE, OFFER, Bad(Victim, 4)) == (EXAMPLE.(bank := Debited(EXAMPLE.bank, 5, 50)), false)
    ensures Debited(EXAMPLE.bank, 5, 50).coins[5] == 950
  {
    ExampleFacts();
    var a := Bad(Victim, 4)(1);
    AttemptRows(EXAMPLE, OFFER, a);
    var s2 := Read(Read(Read(Began(EXAMPLE), a.outcomes(0)), a.outcomes(1)), a.outcomes(2));
    assert ListBody(OFFER, s2, a.outcomes).0.errno == OtherError;
  }

  /**
   A deadlock on the account check and a failed history row: the call answers false, yet the fee is
   gone and auction 2 is stored and active, beside the account's auction 1.
   */
  lemma AuctionLeftHappens()
    ensures var (d, ok) := Create(EXAMPLE, OFFER, Bad(Victim, 5));
            && !ok && d == Inserted(EXAMPLE.(bank := Debited(EXAMPLE.bank, 5, 50)), OFFER)
            && d.auctions[2].status.Active? && d.auctions[2].seller == 5 && !OneActive(d)
  {
    ExampleFacts();
    var a := Bad(Victim, 5)(1);
    AttemptRows(EXAMPLE, OFFER, a);
    var s2 := Read(Read(Read(Began(EXAMPLE), a.outcomes(0)), a.outcomes(1)), a.outcomes(2));
    assert ListBody(OFFER, s2, a.outcomes).0.errno == OtherError;
    CreateBreaksIff(EXAMPLE, OFFER, Bad(Victim, 5));
  }
}
