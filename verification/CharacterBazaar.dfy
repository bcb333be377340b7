/**
 Character auctions (src/character_bazaar.cpp) over retrying transactions.

 `storeQuery` answers nothing both for "no row" and for a failed SELECT, and the code treats the
 two alike; the model keeps that.
 */
module CharacterBazaar {
  import opened Basics
  import opened Transactions
  import opened AccountCoins

  type AuctionId = nat
  type Player = nat

  datatype Status = Active | Finished | Cancelled

  datatype Auction = Auction(
    player: Player, seller: Account, bidder: Account, bid: nat, commissionPercent: nat,
    status: Status, endAt: int, winner: Account, finalPrice: nat)

  datatype Entry = Entry(auction: AuctionId, action: string, account: Account, amount: nat)

  datatype Market = Market(
    auctions: map<AuctionId, Auction>, owners: map<Player, Account>, bank: Bank, log: seq<Entry>, nextId: AuctionId)

  // ---- Money ----

  /** In 64-bit arithmetic, as the source computes it. */
  function Commission(a: Auction): (c: nat) { (a.bid * Min(100, a.commissionPercent)) % LONG_WORD / 100 }

  /** The payout never underflows, so payout and commission make up the bid. */
  lemma CommissionWithinBid(a: Auction)
    requires a.bid < LONG_WORD
    ensures Commission(a) <= a.bid
    ensures a.bid <= MAX_COINS ==> Commission(a) == a.bid * Min(100, a.commissionPercent) / 100
  {
    var p := Min(100, a.commissionPercent);
    Scale(a.bid, p, 100);
    if a.bid * p < LONG_WORD {
      assert a.bid * p / 100 <= a.bid;
    }
    if a.bid <= MAX_COINS {
      assert a.bid * p <= a.bid * 100 < LONG_WORD;
    }
  }

  lemma Scale(x: nat, p: nat, q: nat)
    requires p <= q
    ensures 0 <= x * p <= x * q
  {
  }

  function Payout(a: Auction): (n: nat) { (a.bid - Commission(a)) % LONG_WORD }

  /** AccountCoins::credit and debit on the market's bank. */
  function CreditIn(s: Session<Market>, a: Account, amount: nat, o: Outcome): (r: (Session<Market>, bool)) {
    if a == 0 then (s, false)
    else if amount == 0 then (s, true)
    else if amount > MAX_COINS then (s, false)
    else
      var m := Current(s);
      (Write(s, o, m.(bank := Credited(m.bank, a, amount))), o.Ok? && CanCredit(m.bank, a, amount))
  }

  function DebitIn(s: Session<Market>, a: Account, amount: nat, o: Outcome): (r: (Session<Market>, bool)) {
    if a == 0 then (s, false)
    else if amount == 0 then (s, true)
    else if amount > MAX_COINS then (s, false)
    else
      var m := Current(s);
      (Write(s, o, m.(bank := Debited(m.bank, a, amount))), o.Ok? && CanDebit(m.bank, a, amount))
  }

  function Logged(s: Session<Market>, e: Entry, o: Outcome): (r: (Session<Market>, bool)) {
    (Write(s, o, Current(s).(log := Current(s).log + [e])), o.Ok?)
  }

  // ---- finalizeAuction ----

  predicate Due(m: Market, id: AuctionId, now: int) {
    id in m.auctions && m.auctions[id].status.Active? && m.auctions[id].endAt <= now
  }

  predicate NoBid(a: Auction) { a.bidder == 0 || a.bid == 0 }

  function FinalizeBody(id: AuctionId, now: int, s: Session<Market>, o: nat -> Outcome): (r: (Session<Market>, bool)) {
    var s0 := Read(s, o(0));
    if !o(0).Ok? || !Due(Current(s), id, now) then (s0, true)
    else
      var a := Current(s0).auctions[id];
      if NoBid(a) then
        var m := Current(s0);
        var s1 := Write(s0, o(1), m.(auctions := m.auctions[id := a.(status := Cancelled)]));
        if !o(1).Ok? then (s1, false)
        else Logged(s1, Entry(id, "expired_no_bid", a.seller, 0), o(2))
      else FinalizeSold(id, a, s0, o)
  }

  function FinalizeSold(id: AuctionId, a: Auction, s: Session<Market>,
      o: nat -> Outcome): (r: (Session<Market>, bool)) {
    var m := Current(s);
    var owned := a.player in m.owners && m.owners[a.player] == a.seller;
    // MySQL reports changed rows, so a buyer who is the seller changes none.
    var moved := owned && a.bidder != a.seller;
    var s1 := Write(s, o(1), if owned then m.(owners := m.owners[a.player := a.bidder]) else m);
    if !o(1).Ok? || !moved then (s1, false)
    else
      var (s2, paid) := CreditIn(s1, a.seller, Payout(a), o(2));
      if !paid then (s2, false)
      else
        var n := Current(s2);
        var s3 :=
          if id in n.auctions && n.auctions[id].status.Active? then
            var sold := a.(status := Finished, winner := a.bidder, finalPrice := a.bid);
            Write(s2, o(3), n.(auctions := n.auctions[id := sold]))
          else Write(s2, o(3), n);
        if !o(3).Ok? then (s3, false)
        else Logged(s3, Entry(id, "finished", a.bidder, Payout(a)), o(4))
  }

  function Finalize(m: Market, id: AuctionId, now: int, attempts: nat -> Attempt): (r: (Market, bool)) {
    InTransaction(m, (s, o) => FinalizeBody(id, now, s, o), attempts)
  }

  /** The sale can be carried out: the seller still owns the character and has room for the payout. */
  predicate Sellable(m: Market, a: Auction) {
    && a.player in m.owners && m.owners[a.player] == a.seller && a.bidder != a.seller && a.seller != 0
    && (Payout(a) == 0 || CanCredit(m.bank, a.seller, Payout(a)))
  }

  predicate Settleable(m: Market, id: AuctionId, now: int) {
    Due(m, id, now) && (NoBid(m.auctions[id]) || Sellable(m, m.auctions[id]))
  }

  /** The whole effect of ending an auction. */
  function Settled(m: Market, id: AuctionId, now: int): (r: Market)
    requires Settleable(m, id, now)
  {
    var a := m.auctions[id];
    if NoBid(a) then
      m.(auctions := m.auctions[id := a.(status := Cancelled)],
          log := m.log + [Entry(id, "expired_no_bid", a.seller, 0)])
    else
      m.(auctions := m.auctions[id := a.(status := Finished, winner := a.bidder, finalPrice := a.bid)],
         owners := m.owners[a.player := a.bidder],
         bank := if Payout(a) == 0 then m.bank else Credited(m.bank, a.seller, Payout(a)),
         log := m.log + [Entry(id, "finished", a.bidder, Payout(a))])
  }

  lemma SoldExact(m: Market, id: AuctionId, now: int, s: Session<Market>, o: nat -> Outcome)
    requires Due(m, id, now) && !NoBid(m.auctions[id]) && s.committed == m && s.open == Some(m)
    ensures var (r, ok) := FinalizeSold(id, m.auctions[id], s, o);
            && r.committed == m
            && (ok ==> Settleable(m, id, now) && Current(r) == Settled(m, id, now))
            && ((forall i: nat :: o(i).Ok?) && Settleable(m, id, now) ==> ok)
  {
  }

  lemma FinalizeBodyExact(m: Market, id: AuctionId, now: int, o: nat -> Outcome)
    ensures var (s, ok) := FinalizeBody(id, now, Began(m), o);
            && s.committed == m
            && (ok && o(0).Ok? && Due(m, id, now) ==> Settleable(m, id, now) && Current(s) == Settled(m, id, now))
            && (ok && !(o(0).Ok? && Due(m, id, now)) ==> Current(s) == m)
            && ((forall i: nat :: o(i).Ok?) && Settleable(m, id, now) ==> ok)
  {
    var s0 := Read(Began(m), o(0));
    if o(0).Ok? && Due(m, id, now) && !NoBid(m.auctions[id]) {
      SoldExact(m, id, now, s0, o);
    }
  }

  /**
   Main result on finalization. However often attempts fail, deadlock or are retried, the auction is
   settled completely or nothing changes at all; a change comes only with the answer true.
   */
  lemma FinalizeExact(m: Market, id: AuctionId, now: int, attempts: nat -> Attempt)
    ensures var (d, ok) := Finalize(m, id, now, attempts);
            && (d == m || (ok && Settleable(m, id, now) && d == Settled(m, id, now)))
            && (ok && d == m ==> exists k ::
                1 <= k <= TRANSACTION_MAX_ATTEMPTS && (!attempts(k).outcomes(0).Ok? || !Due(m, id, now)))
  {
    var callback := (s, o) => FinalizeBody(id, now, s, o);
    forall k {:trigger attempts(k)} | 1 <= k <= TRANSACTION_MAX_ATTEMPTS
      ensures callback(Began(m), attempts(k).outcomes).0.committed == m
    {
      FinalizeBodyExact(m, id, now, attempts(k).outcomes);
    }
    AllOrNothing(m, callback, attempts, 1);
    var (d, ok) := Finalize(m, id, now, attempts);
    if ok {
      var k :| AppliedBy(m, callback, attempts, d, k);
      FinalizeBodyExact(m, id, now, attempts(k).outcomes);
      if d == m && attempts(k).outcomes(0).Ok? && Due(m, id, now) {
        SettledChanges(m, id, now);
      }
    }
  }

  lemma SettledChanges(m: Market, id: AuctionId, now: int)
    requires Settleable(m, id, now)
    ensures Settled(m, id, now) != m && !Settled(m, id, now).auctions[id].status.Active?
  {
    assert Settled(m, id, now).auctions[id].status != m.auctions[id].status;
  }

  /** An auction that can be settled and meets no failure is settled at the first attempt. */
  lemma FinalizeSucceeds(m: Market, id: AuctionId, now: int, attempts: nat -> Attempt)
    requires Settleable(m, id, now)
    requires attempts(1).begin && attempts(1).commit.Ok? && forall i: nat :: attempts(1).outcomes(i).Ok?
    ensures Finalize(m, id, now, attempts) == (Settled(m, id, now), true)
  {
    FinalizeBodyExact(m, id, now, attempts(1).outcomes);
  }

  /** Which auctions can be ended at all, in terms of their rows, the owner and the seller's account. */
  lemma SettleableIff(m: Market, id: AuctionId, now: int)
    ensures Settleable(m, id, now) <==>
            id in m.auctions && m.auctions[id].status.Active? && m.auctions[id].endAt <= now &&
            var a := m.auctions[id];
            a.bidder == 0 || a.bid == 0 ||
            (&& a.player in m.owners && m.owners[a.player] == a.seller && a.bidder != a.seller && a.seller != 0
             && (Payout(a) == 0 ||
                 (a.seller in m.bank.coins && m.bank.coins[a.seller] + Payout(a) <= 4_294_967_295)))
  {
  }

  /** Without a bidder or a bid the auction is cancelled and nothing moves; otherwise it is sold for the bid. */
  lemma EndsHow(m: Market, id: AuctionId, now: int)
    requires Settleable(m, id, now)
    ensures var a, d := m.auctions[id], Settled(m, id, now);
            && d.nextId == m.nextId && d.auctions.Keys == m.auctions.Keys
            && (forall i :: i in m.auctions && i != id ==> d.auctions[i] == m.auctions[i])
            && (a.bidder == 0 || a.bid == 0 ==>
                  && d.auctions[id] == a.(status := Cancelled) && d.owners == m.owners && d.bank == m.bank
                  && d.log == m.log + [Entry(id, "expired_no_bid", a.seller, 0)])
            && (a.bidder > 0 && a.bid > 0 ==>
                  && d.auctions[id] == a.(status := Finished, winner := a.bidder, finalPrice := a.bid)
                  && d.owners == m.owners[a.player := a.bidder]
                  && d.log == m.log + [Entry(id, "finished", a.bidder, Payout(a))])
  {
  }

  /** On a sale the seller gets the payout, nobody else's balance changes, and payout plus commission is the bid. */
  lemma SellerPaid(m: Market, id: AuctionId, now: int)
    requires Settleable(m, id, now) && !NoBid(m.auctions[id]) && m.auctions[id].bid < LONG_WORD
    ensures var a := m.auctions[id];
            var d := Settled(m, id, now);
            && Payout(a) + Commission(a) == a.bid
            && (forall x :: x in m.bank.coins && x != a.seller ==>
                x in d.bank.coins && d.bank.coins[x] == m.bank.coins[x])
            && (a.seller in m.bank.coins ==> d.bank.coins[a.seller] == m.bank.coins[a.seller] + Payout(a))
            && d.owners[a.player] == a.bidder && m.owners[a.player] == a.seller
  {
    CommissionWithinBid(m.auctions[id]);
  }

  // ---- createAuction ----

  datatype Offer = Offer(player: Player, account: Account, fee: nat, commissionPercent: nat, endAt: int)

  ghost predicate PlayerBusy(m: Market, p: Player) {
    exists i :: i in m.auctions && m.auctions[i].status.Active? && m.auctions[i].player == p
  }

  ghost predicate AccountBusy(m: Market, a: Account) {
    exists i :: i in m.auctions && m.auctions[i].status.Active? && m.auctions[i].seller == a
  }

  function NewAuction(f: Offer): (a: Auction) {
    Auction(f.player, f.account, 0, 0, f.commissionPercent, Active, f.endAt, 0, 0)
  }

  function Inserted(m: Market, f: Offer): (r: Market) {
    m.(auctions := m.auctions[m.nextId := NewAuction(f)], nextId := m.nextId + 1)
  }

  ghost function CreateBody(f: Offer, s: Session<Market>, o: nat -> Outcome): (r: (Session<Market>, bool)) {
    var s0 := Read(s, o(0));
    if !o(0).Ok? || f.account !in Current(s0).bank.coins then (s0, false)
    else
      var s1 := Read(s0, o(1));
      if o(1).Ok? && PlayerBusy(Current(s1), f.player) then (s1, false)
      else
        var s2 := Read(s1, o(2));
        if o(2).Ok? && AccountBusy(Current(s2), f.account) then (s2, false)
        else ListBody(f, s2, o)
  }

  /** Fee, row and history. */
  function ListBody(f: Offer, s: Session<Market>, o: nat -> Outcome): (r: (Session<Market>, bool)) {
    var (s3, paid) := DebitIn(s, f.account, f.fee, o(3));
    if !paid then (s3, false)
    else
      var id := Current(s3).nextId;
      var s4 := Write(s3, o(4), Inserted(Current(s3), f));
      if !o(4).Ok? || id == 0 then (s4, false)
      else Logged(s4, Entry(id, "created", f.account, f.fee), o(5))
  }

  ghost function Creator(f: Offer): (callback: Callback<Market>) { (s, o) => CreateBody(f, s, o) }

  ghost function Create(m: Market, f: Offer, attempts: nat -> Attempt): (r: (Market, bool)) {
    InTransaction(m, Creator(f), attempts)
  }

  predicate CanPay(m: Market, f: Offer) {
    f.account != 0 && f.account in m.bank.coins && f.fee <= MAX_COINS &&
        (f.fee == 0 || CanDebit(m.bank, f.account, f.fee))
  }

  function Listed(m: Market, f: Offer): (r: Market)
    requires CanPay(m, f)
  {
    Inserted(m, f).(bank := if f.fee == 0 then m.bank else Debited(m.bank, f.account, f.fee),
                    log := m.log + [Entry(m.nextId, "created", f.account, f.fee)])
  }

  /**
   The row of a new auction: the terms it was offered under, no bid yet; the account pays the fee, and it
   must have it.
   */
  lemma ListedRow(m: Market, f: Offer)
    ensures CanPay(m, f) <==>
            f.account != 0 && f.account in m.bank.coins && f.fee <= 4_294_967_295 && m.bank.coins[f.account] >= f.fee
    ensures CanPay(m, f) ==>
              var d := Listed(m, f);
              && d.auctions == m.auctions[m.nextId :=
                   Auction(f.player, f.account, 0, 0, f.commissionPercent, Active, f.endAt, 0, 0)]
              && d.bank == m.bank.(coins := m.bank.coins[f.account := m.bank.coins[f.account] - f.fee])
              && d.owners == m.owners && d.nextId == m.nextId + 1
              && d.log == m.log + [Entry(m.nextId, "created", f.account, f.fee)]
  {
    if CanPay(m, f) {
      assert m.bank.coins[f.account := m.bank.coins[f.account]] == m.bank.coins;
    }
  }

  /** No seller account has two active auctions. */
  ghost predicate OneActive(m: Market) {
    forall i, j ::
      i in m.auctions && j in m.auctions && m.auctions[i].status.Active? && m.auctions[j].status.Active? ==>
      m.auctions[i].seller != m.auctions[j].seller || i == j
  }

  ghost predicate FreshIds(m: Market) { m.nextId > 0 && forall i :: i in m.auctions ==> 0 < i < m.nextId }

  /** Neither of the two SELECTs that look for an active auction was a deadlock victim. */
  predicate NoVictim(o: nat -> Outcome) { !o(1).Victim? && !o(2).Victim? }

  /** What a creation that went through had seen: a check that did not fail found nothing. */
  ghost predicate LooksFree(m: Market, f: Offer, o: nat -> Outcome) {
    (o(1).Ok? ==> !PlayerBusy(m, f.player)) && (o(2).Ok? ==> !AccountBusy(m, f.account))
  }

  lemma ListExact(m: Market, f: Offer, s: Session<Market>, o: nat -> Outcome)
    requires s.committed == m && s.open == Some(m) && f.account in m.bank.coins
    ensures var (r, ok) := ListBody(f, s, o);
            && r.committed == m
            && (ok ==> CanPay(m, f) && m.nextId != 0 && Current(r) == Listed(m, f))
            && ((forall i: nat :: o(i).Ok?) && CanPay(m, f) && m.nextId != 0 ==> ok)
  {
  }

  lemma CreateBodyExact(m: Market, f: Offer, o: nat -> Outcome)
    requires NoVictim(o)
    ensures var (s, ok) := CreateBody(f, Began(m), o);
            && s.committed == m
            && (ok ==> CanPay(m, f) && LooksFree(m, f, o) && Current(s) == Listed(m, f))
  {
    var s2 := Read(Read(Read(Began(m), o(0)), o(1)), o(2));
    if o(0).Ok? && f.account in m.bank.coins && LooksFree(m, f, o) {
      ListExact(m, f, s2, o);
    }
  }

  /**
   As long as no check is a deadlock victim, creation is all or nothing. It then gives an account a
   second active auction exactly when it goes through for an account that has one.
   */
  lemma CreateExact(m: Market, f: Offer, attempts: nat -> Attempt)
    requires forall k {:trigger attempts(k)} :: 1 <= k <= TRANSACTION_MAX_ATTEMPTS ==> NoVictim(attempts(k).outcomes)
    ensures var (d, ok) := Create(m, f, attempts);
            && (!ok ==> d == m)
            && (ok ==> CanPay(m, f) && d == Listed(m, f) &&
                       exists k :: 1 <= k <= TRANSACTION_MAX_ATTEMPTS && LooksFree(m, f, attempts(k).outcomes))
            && (OneActive(m) && FreshIds(m) ==> FreshIds(d) && (OneActive(d) <==> !ok || !AccountBusy(m, f.account)))
  {
    var callback := Creator(f);
    forall k {:trigger attempts(k)} | 1 <= k <= TRANSACTION_MAX_ATTEMPTS
      ensures callback(Began(m), attempts(k).outcomes).0.committed == m
    {
      CreateBodyExact(m, f, attempts(k).outcomes);
    }
    AllOrNothing(m, callback, attempts, 1);
    var (d, ok) := Create(m, f, attempts);
    if ok {
      var k :| AppliedBy(m, callback, attempts, d, k);
      CreateBodyExact(m, f, attempts(k).outcomes);
      if OneActive(m) && FreshIds(m) {
        ListedOneActive(m, f, d);
      }
    }
  }

  /** A new row breaks the rule exactly when the account had an active auction already. */
  lemma ListedOneActive(m: Market, f: Offer, d: Market)
    requires OneActive(m) && FreshIds(m) && d.auctions == Inserted(m, f).auctions && d.nextId == m.nextId + 1
    ensures OneActive(d) <==> !AccountBusy(m, f.account)
    ensures FreshIds(d)
  {
    if AccountBusy(m, f.account) {
      var i :| i in m.auctions && m.auctions[i].status.Active? && m.auctions[i].seller == f.account;
      assert i in d.auctions && d.auctions[i] == m.auctions[i] && m.nextId in d.auctions && i != m.nextId;
    }
  }

  // ---- Runs: finalizations, creations with any failures, and bids ----

  /** The website raises the bid of an active auction; it never touches the status. */
  datatype Op =
    | DoFinalize(id: AuctionId, now: int, attempts: nat -> Attempt)
    | DoCreate(offer: Offer, attempts: nat -> Attempt)
    | DoBid(id: AuctionId, bidder: Account, bid: nat)

  ghost function Apply(m: Market, op: Op): (r: Market) {
    match op
    case DoFinalize(id, now, attempts) => Finalize(m, id, now, attempts).0
    case DoCreate(f, attempts) => Create(m, f, attempts).0
    case DoBid(id, bidder, bid) =>
      if id in m.auctions && m.auctions[id].status.Active? then
        m.(auctions := m.auctions[id := m.auctions[id].(bidder := bidder, bid := bid)])
      else m
  }

  /** Known auctions and owners are untouched; new ids are new. */
  ghost predicate Grows(m: Market, d: Market) {
    && FreshIds(d) && d.owners == m.owners && m.nextId <= d.nextId
    && forall i :: i in m.auctions ==> i in d.auctions && d.auctions[i] == m.auctions[i]
  }

  /** Even when the server has ended the transaction underneath, creation only adds. */
  lemma CreateBodyGrows(m: Market, f: Offer, o: nat -> Outcome)
    requires FreshIds(m)
    ensures var s := CreateBody(f, Began(m), o).0; Grows(m, s.committed) && Grows(m, Current(s))
  {
    var s2 := Read(Read(Read(Began(m), o(0)), o(1)), o(2));
    assert s2.committed == m && Current(s2) == m;
    ListBodyGrows(m, f, s2, o);
  }

  lemma ListBodyGrows(m: Market, f: Offer, s: Session<Market>, o: nat -> Outcome)
    requires FreshIds(m) && s.committed == m && Current(s) == m
    ensures var r := ListBody(f, s, o).0; Grows(m, r.committed) && Grows(m, Current(r))
  {
    var (s3, paid) := DebitIn(s, f.account, f.fee, o(3));
    DebitGrows(m, s, f.account, f.fee, o(3));
    if paid {
      InsertGrows(m, s3, f, o(4));
      var s4 := Write(s3, o(4), Inserted(Current(s3), f));
      LogGrows(m, s4, Entry(Current(s3).nextId, "created", f.account, f.fee), o(5));
    }
  }

  lemma DebitGrows(m: Market, s: Session<Market>, a: Account, amount: nat, o: Outcome)
    requires Grows(m, s.committed) && Grows(m, Current(s))
    ensures var r := DebitIn(s, a, amount, o).0; Grows(m, r.committed) && Grows(m, Current(r))
  {
  }

  lemma InsertGrows(m: Market, s: Session<Market>, f: Offer, o: Outcome)
    requires FreshIds(m) && Grows(m, s.committed) && Grows(m, Current(s))
    ensures var r := Write(s, o, Inserted(Current(s), f)); Grows(m, r.committed) && Grows(m, Current(r))
  {
  }

  lemma LogGrows(m: Market, s: Session<Market>, e: Entry, o: Outcome)
    requires Grows(m, s.committed) && Grows(m, Current(s))
    ensures var r := Logged(s, e, o).0; Grows(m, r.committed) && Grows(m, Current(r))
  {
  }

  lemma TriedGrows(m: Market, f: Offer, a: Attempt)
    requires FreshIds(m)
    ensures Grows(m, Tried(m, Creator(f), a).0)
  {
    CreateBodyGrows(m, f, a.outcomes);
  }

  lemma GrowsOn(m: Market, d: Market, e: Market)
    requires Grows(m, d) && Grows(d, e)
    ensures Grows(m, e)
  {
  }

  lemma {:induction false} ChainGrows(m: Market, trial: Trial<Market>, attempts: nat -> Attempt, attempt: nat)
    requires FreshIds(m) && 1 <= attempt <= TRANSACTION_MAX_ATTEMPTS
    requires forall d, a {:trigger trial(d, a)} :: FreshIds(d) ==> Grows(d, trial(d, a).0)
    ensures Grows(m, Chain(m, trial, attempts, attempt).0)
    decreases TRANSACTION_MAX_ATTEMPTS - attempt
  {
    var (d, verdict) := trial(m, attempts(attempt));
    if verdict.Again? && attempt < TRANSACTION_MAX_ATTEMPTS {
      ChainGrows(d, trial, attempts, attempt + 1);
      GrowsOn(m, d, Chain(d, trial, attempts, attempt + 1).0);
    }
  }

  /** Whatever fails, creation never touches what was there. */
  lemma CreateGrows(m: Market, f: Offer, attempts: nat -> Attempt, attempt: nat)
    requires FreshIds(m) && 1 <= attempt <= TRANSACTION_MAX_ATTEMPTS
    ensures Grows(m, Executed(m, Creator(f), attempts, attempt).0)
  {
    var trial := Trials(Creator(f));
    forall d, a {:trigger trial(d, a)} | FreshIds(d) ensures Grows(d, trial(d, a).0) {
      TriedGrows(d, f, a);
    }
    ExecutedIsChain(m, Creator(f), attempts, attempt);
    ChainGrows(m, trial, attempts, attempt);
  }

  /** What one step can do to one auction and to one owner. */
  lemma StepEffect(m: Market, op: Op, id: AuctionId)
    requires FreshIds(m) && id in m.auctions
    ensures FreshIds(Apply(m, op)) && id in Apply(m, op).auctions
    ensures !m.auctions[id].status.Active? ==> Apply(m, op).auctions[id] == m.auctions[id]
    ensures m.auctions[id].status.Active? && !Apply(m, op).auctions[id].status.Active? ==>
              op.DoFinalize? && op.id == id && Settleable(m, id, op.now) && Apply(m, op) == Settled(m, id, op.now)
  {
    match op {
      case DoFinalize(i, now, attempts) => FinalizeExact(m, i, now, attempts);
      case DoCreate(f, attempts) => CreateGrows(m, f, attempts, 1);
      case DoBid(i, bidder, bid) =>
    }
  }

  lemma OwnerEffect(m: Market, op: Op, p: Player)
    requires FreshIds(m) && p in m.owners && (p !in Apply(m, op).owners || Apply(m, op).owners[p] != m.owners[p])
    ensures op.DoFinalize? && Settleable(m, op.id, op.now) && Apply(m, op) == Settled(m, op.id, op.now)
    ensures var a := m.auctions[op.id];
            a.player == p && m.owners[p] == a.seller && p in Apply(m, op).owners && Apply(m, op).owners[p] == a.bidder
  {
    match op {
      case DoFinalize(i, now, attempts) => FinalizeExact(m, i, now, attempts);
      case DoCreate(f, attempts) => CreateGrows(m, f, attempts, 1);
      case DoBid(i, bidder, bid) =>
    }
  }

  ghost predicate Run(states: seq<Market>, ops: seq<Op>) {
    && |states| == |ops| + 1 && FreshIds(states[0])
    && forall k :: 0 <= k < |ops| ==> states[k + 1] == Apply(states[k], ops[k])
  }

  lemma {:induction false} IdsStayFresh(states: seq<Market>, ops: seq<Op>, k: nat)
    requires Run(states, ops) && k <= |ops|
    ensures FreshIds(states[k])
  {
    if k > 0 {
      IdsStayFresh(states, ops, k - 1);
      assert states[k - 1 + 1] == Apply(states[k - 1], ops[k - 1]);
      match ops[k - 1] {
        case DoFinalize(i, now, attempts) => FinalizeExact(states[k - 1], i, now, attempts);
        case DoCreate(f, attempts) => CreateGrows(states[k - 1], f, attempts, 1);
        case DoBid(i, bidder, bid) =>
      }
    }
  }

  /** One step does not touch an auction that is over. */
  lemma StepOver(states: seq<Market>, ops: seq<Op>, id: AuctionId, k: nat)
    requires Run(states, ops) && k < |ops| && id in states[k].auctions && !states[k].auctions[id].status.Active?
    ensures id in states[k + 1].auctions && states[k + 1].auctions[id] == states[k].auctions[id]
  {
    IdsStayFresh(states, ops, k);
    StepEffect(states[k], ops[k], id);
  }

  /** An auction that is over stays exactly as it is. */
  lemma {:induction false} OverForGood(states: seq<Market>, ops: seq<Op>, id: AuctionId, i: nat, j: nat)
    requires Run(states, ops) && i <= j <= |ops| && id in states[i].auctions && !states[i].auctions[id].status.Active?
    ensures id in states[j].auctions && states[j].auctions[id] == states[i].auctions[id]
    decreases j - i
  {
    if i < j {
      OverForGood(states, ops, id, i, j - 1);
      StepOver(states, ops, id, j - 1);
    }
  }

  /** Step k ends auction `id`. */
  ghost predicate EndsAt(states: seq<Market>, ops: seq<Op>, id: AuctionId, k: nat)
    requires Run(states, ops) && k < |ops|
  {
    id in states[k].auctions && states[k].auctions[id].status.Active?
    && id in states[k + 1].auctions && !states[k + 1].auctions[id].status.Active?
  }

  /**
   Main result over runs. However often finalization reruns, fails or rolls back, an auction ends at
   most once; the step that ends it settles it completely: on a sale the character moves from seller
   to buyer and the seller receives the payout, once.
   */
  lemma EndsOnce(states: seq<Market>, ops: seq<Op>, id: AuctionId, i: nat, j: nat)
    requires Run(states, ops) && i < |ops| && j < |ops| && EndsAt(states, ops, id, i) && EndsAt(states, ops, id, j)
    ensures i == j
    ensures ops[i].DoFinalize? && ops[i].id == id && Settleable(states[i], id, ops[i].now)
    ensures states[i + 1] == Settled(states[i], id, ops[i].now)
  {
    IdsStayFresh(states, ops, i);
    StepEffect(states[i], ops[i], id);
    assert states[i + 1] == Apply(states[i], ops[i]);
    if i < j {
      OverForGood(states, ops, id, i + 1, j);
    } else if j < i {
      OverForGood(states, ops, id, j + 1, i);
    }
  }

  /** A character changes account only in the step that ends its auction, so at most once per auction. */
  lemma CharacterMovesOnce(states: seq<Market>, ops: seq<Op>, p: Player, k: nat)
    requires Run(states, ops) && k < |ops| && p in states[k].owners
    requires p !in states[k + 1].owners || states[k + 1].owners[p] != states[k].owners[p]
    ensures ops[k].DoFinalize? && EndsAt(states, ops, ops[k].id, k)
    ensures states[k].auctions[ops[k].id].player == p
  {
    IdsStayFresh(states, ops, k);
    assert states[k + 1] == Apply(states[k], ops[k]);
    OwnerEffect(states[k], ops[k], p);
    SettledChanges(states[k], ops[k].id, ops[k].now);
  }

  // ---- finalizeExpiredAuctions ----

  /** Of the auctions of m, only due ones among `ids` are different in r, and those are over. */
  ghost predicate OnlyEnded(m: Market, r: Market, ids: seq<AuctionId>, now: int) {
    forall id :: id in m.auctions ==>
      && id in r.auctions
      && (r.auctions[id] == m.auctions[id] || (id in ids && Due(m, id, now) && !r.auctions[id].status.Active?))
  }

  lemma EndsOneMore(m: Market, r: Market, ids: seq<AuctionId>, now: int, id: AuctionId, attempts: nat -> Attempt)
    requires OnlyEnded(m, r, ids, now)
    ensures OnlyEnded(m, Finalize(r, id, now, attempts).0, ids + [id], now)
  {
    FinalizeExact(r, id, now, attempts);
    var d := Finalize(r, id, now, attempts).0;
    forall x | x in m.auctions
      ensures x in d.auctions
      ensures d.auctions[x] == m.auctions[x] || (x in ids + [id] && Due(m, x, now) && !d.auctions[x].status.Active?)
    {
      assert x in ids ==> x in ids + [id];
      assert id in ids + [id];
    }
  }

  /** States visited when the listed auctions are finalized one after the other. */
  ghost predicate Visits(states: seq<Market>, listed: seq<AuctionId>, now: int, attempts: nat -> nat -> Attempt) {
    && |states| == |listed| + 1
    && forall k :: 0 <= k < |listed| ==> states[k + 1] == Finalize(states[k], listed[k], now, attempts(k)).0
  }

  lemma VisitsMore(states: seq<Market>, listed: seq<AuctionId>, now: int, attempts: nat -> nat -> Attempt,
      id: AuctionId)
    requires Visits(states, listed, now, attempts)
    ensures Visits(states + [Finalize(states[|listed|], id, now, attempts(|listed|)).0], listed + [id], now, attempts)
  {
  }

  /** The loop over the ids the scheduler's SELECT listed; a failure does not stop it. */
  method FinalizeExpired(m: Market, listed: seq<AuctionId>, now: int,
      attempts: nat -> nat -> Attempt) returns (r: Market, failures: nat)
    ensures exists states :: Visits(states, listed, now, attempts) && states[0] == m && states[|listed|] == r
    ensures OnlyEnded(m, r, listed, now)
    ensures failures <= |listed|
  {
    r, failures := m, 0;
    ghost var states := [m];
    var i := 0;
    while i < |listed|
      invariant 0 <= i <= |listed| && failures <= i
      invariant OnlyEnded(m, r, listed[..i], now)
      invariant Visits(states, listed[..i], now, attempts) && states[0] == m && states[i] == r
    {
      var id := listed[i];
      EndsOneMore(m, r, listed[..i], now, id, attempts(i));
      VisitsMore(states, listed[..i], now, attempts, id);
      assert listed[..i + 1] == listed[..i] + [id];
      var (next, ok) := Finalize(r, id, now, attempts(i));
      if !ok {
        failures := failures + 1;
      }
      states := states + [next];
      r := next;
      i := i + 1;
    }
    assert listed[..i] == listed;
  }
}
