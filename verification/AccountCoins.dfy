/** Coin balances (src/account_coins.cpp) over retrying transactions. */
module AccountCoins {
  import opened Basics
  import opened Transactions

  const MAX_COINS: nat := 4_294_967_295

  type Account = nat

  datatype Row = Row(account: Account, player: nat, price: int, target: string)

  /** Balances by account id; an account that has no row is not in the map. */
  datatype Bank = Bank(coins: map<Account, nat>, history: seq<Row>)

  datatype History = History(sourcePlayer: nat, sourceName: string, destPlayer: nat, destName: string)

  ghost predicate Within(b: Bank) { forall a :: a in b.coins ==> b.coins[a] <= MAX_COINS }

  // ---- The two guarded updates ----

  /** Rows the debit statement matches. */
  predicate CanDebit(b: Bank, a: Account, amount: nat) { a in b.coins && b.coins[a] >= amount }

  predicate CanCredit(b: Bank, a: Account, amount: nat) {
    a in b.coins && amount <= MAX_COINS && b.coins[a] <= MAX_COINS - amount
  }

  function Debited(b: Bank, a: Account, amount: nat): (r: Bank) {
    if CanDebit(b, a, amount) then b.(coins := b.coins[a := b.coins[a] - amount]) else b
  }

  function Credited(b: Bank, a: Account, amount: nat): (r: Bank) {
    if CanCredit(b, a, amount) then b.(coins := b.coins[a := b.coins[a] + amount]) else b
  }

  /** debit and credit as one statement each, inside or outside a transaction. */
  function Debit(s: Session<Bank>, a: Account, amount: nat, o: Outcome): (r: (Session<Bank>, bool)) {
    if a == 0 then (s, false)
    else if amount == 0 then (s, true)
    else if amount > MAX_COINS then (s, false)
    else (Write(s, o, Debited(Current(s), a, amount)), o.Ok? && CanDebit(Current(s), a, amount))
  }

  function Credit(s: Session<Bank>, a: Account, amount: nat, o: Outcome): (r: (Session<Bank>, bool)) {
    if a == 0 then (s, false)
    else if amount == 0 then (s, true)
    else if amount > MAX_COINS then (s, false)
    else (Write(s, o, Credited(Current(s), a, amount)), o.Ok? && CanCredit(Current(s), a, amount))
  }

  // ---- Transfer ----

  /** The callback: two row locks in id order, debit, credit, history. */
  function Body(source: Account, dest: Account, amount: nat, history: Option<History>, s: Session<Bank>,
      o: nat -> Outcome):
    (r: (Session<Bank>, bool))
  {
    var first := if source < dest then source else dest;
    var second := if source < dest then dest else source;
    var s0 := Read(s, o(0));
    if !o(0).Ok? || first !in Current(s0).coins then (s0, false)
    else
      var s1 := Read(s0, o(1));
      if !o(1).Ok? || second !in Current(s1).coins then (s1, false)
      else
        var s2 := Write(s1, o(2), Debited(Current(s1), source, amount));
        if !o(2).Ok? || !CanDebit(Current(s1), source, amount) then (s2, false)
        else
          var s3 := Write(s2, o(3), Credited(Current(s2), dest, amount));
          if !o(3).Ok? || !CanCredit(Current(s2), dest, amount) then (s3, false)
          else if history.None? then (s3, true)
          else Log(source, dest, amount, history.value, s3, o)
  }

  function Log(source: Account, dest: Account, amount: nat, h: History, s: Session<Bank>,
      o: nat -> Outcome): (r: (Session<Bank>, bool)) {
    var out := Row(source, h.sourcePlayer, 0 - amount, h.destName);
    var s4 := Write(s, o(4), Current(s).(history := Current(s).history + [out]));
    if !o(4).Ok? then (s4, false)
    else
      var into := Row(dest, h.destPlayer, amount, h.sourceName);
      var s5 := Write(s4, o(5), Current(s4).(history := Current(s4).history + [into]));
      (s5, o(5).Ok?)
  }

  function Transfer(b: Bank, source: Account, dest: Account, amount: nat, history: Option<History>,
      attempts: nat -> Attempt):
    (r: (Bank, bool))
  {
    if source == 0 || dest == 0 || amount == 0 || source == dest || amount > MAX_COINS then (b, false)
    else InTransaction(b, (s, o) => Body(source, dest, amount, history, s, o), attempts)
  }

  /** What a transfer does when it goes through. */
  predicate Possible(b: Bank, source: Account, dest: Account, amount: nat) {
    && source != 0 && dest != 0 && source != dest && 0 < amount
    && CanDebit(b, source, amount) && CanCredit(b, dest, amount)
  }

  function Moved(b: Bank, source: Account, dest: Account, amount: nat, history: Option<History>): (r: Bank)
    requires Possible(b, source, dest, amount)
  {
    var rows :=
      if history.None? then []
      else [Row(source, history.value.sourcePlayer, 0 - amount, history.value.destName),
            Row(dest, history.value.destPlayer, amount, history.value.sourceName)];
    Bank(b.coins[source := b.coins[source] - amount][dest := b.coins[dest] + amount], b.history + rows)
  }

  /** A balance may be spent to the last coin and filled up to the largest 32-bit number. */
  lemma PossibleIff(b: Bank, source: Account, dest: Account, amount: nat)
    ensures Possible(b, source, dest, amount) <==>
            && source != 0 && dest != 0 && source != dest && amount > 0
            && source in b.coins && dest in b.coins
            && b.coins[source] >= amount && b.coins[dest] + amount <= 4_294_967_295
  {
  }

  /** One debit and one credit: the answer and the balance it leaves; nothing is sent for an amount of zero. */
  lemma StatementExact(s: Session<Bank>, a: Account, amount: nat, o: Outcome)
    ensures var (r, ok) := Debit(s, a, amount, o);
            var b := Current(s);
            && (amount == 0 ==> r == s && ok == (a != 0))
            && (amount > 0 ==>
                  (ok <==> a != 0 && amount <= 4_294_967_295 && o.Ok? && a in b.coins && b.coins[a] >= amount))
            && (ok && amount > 0 ==> Current(r) == b.(coins := b.coins[a := b.coins[a] - amount]))
    ensures var (r, ok) := Credit(s, a, amount, o);
            var b := Current(s);
            && (amount == 0 ==> r == s && ok == (a != 0))
            && (amount > 0 ==> (ok <==> a != 0 && o.Ok? && a in b.coins && b.coins[a] + amount <= 4_294_967_295))
            && (ok && amount > 0 ==> Current(r) == b.(coins := b.coins[a := b.coins[a] + amount]))
  {
  }

  lemma BodyExact(b: Bank, source: Account, dest: Account, amount: nat, history: Option<History>, o: nat -> Outcome)
    requires source != 0 && dest != 0 && source != dest && 0 < amount <= MAX_COINS
    ensures var (s, ok) := Body(source, dest, amount, history, Began(b), o);
            && s.committed == b
            && (ok ==> Possible(b, source, dest, amount) && Current(s) == Moved(b, source, dest, amount, history))
  {
  }

  /**
   Main result. Whatever fails or deadlocks, and however often the transaction is retried: the call
   answers true exactly when the coins moved, once, by `amount`; otherwise nothing changed. It never
   answers true for balances that do not allow the transfer.
   */
  lemma TransferExact(b: Bank, source: Account, dest: Account, amount: nat, history: Option<History>,
      attempts: nat -> Attempt)
    ensures var (d, ok) := Transfer(b, source, dest, amount, history, attempts);
            && (ok ==> Possible(b, source, dest, amount) && d == Moved(b, source, dest, amount, history))
            && (!ok ==> d == b)
            && (ok <==> d != b)
  {
    if source != 0 && dest != 0 && amount != 0 && source != dest && amount <= MAX_COINS {
      var callback := (s, o) => Body(source, dest, amount, history, s, o);
      forall k {:trigger attempts(k)} | 1 <= k <= TRANSACTION_MAX_ATTEMPTS
        ensures callback(Began(b), attempts(k).outcomes).0.committed == b
      {
        BodyExact(b, source, dest, amount, history, attempts(k).outcomes);
      }
      AllOrNothing(b, callback, attempts, 1);
      var (d, ok) := Transfer(b, source, dest, amount, history, attempts);
      if ok {
        var k :| AppliedBy(b, callback, attempts, d, k);
        BodyExact(b, source, dest, amount, history, attempts(k).outcomes);
        assert d.coins[source] != b.coins[source];
      }
    }
  }

  /** A possible transfer that nothing disturbs goes through at the first attempt. */
  lemma TransferSucceeds(b: Bank, source: Account, dest: Account, amount: nat, history: Option<History>,
      attempts: nat -> Attempt)
    requires Possible(b, source, dest, amount)
    requires attempts(1).begin && attempts(1).commit.Ok? && forall i: nat :: attempts(1).outcomes(i).Ok?
    ensures Transfer(b, source, dest, amount, history, attempts) == (Moved(b, source, dest, amount, history), true)
  {
    TransferExact(b, source, dest, amount, history, attempts);
    var a := attempts(1);
    assert Body(source, dest, amount, history, Began(b), a.outcomes).1;
  }

  /** The call itself: argument checks, then the callback under the retrying wrapper. */
  method TransferCoins(b: Bank, source: Account, dest: Account, amount: nat, history: Option<History>,
      attempts: nat -> Attempt)
    returns (result: Bank, ok: bool)
    ensures (result, ok) == Transfer(b, source, dest, amount, history, attempts)
    ensures ok ==> Possible(b, source, dest, amount) && result == Moved(b, source, dest, amount, history)
    ensures !ok ==> result == b
  {
    TransferExact(b, source, dest, amount, history, attempts);
    if source == 0 || dest == 0 || amount == 0 {
      return b, false;
    }
    if source == dest {
      return b, false;
    }
    if amount > MAX_COINS {
      return b, false;
    }
    result, ok := ExecuteWithinTransactionRollbackOnFailure(b, (s, o) => Body(source, dest, amount, history, s, o),
        attempts);
  }

  // ---- Totals ----

  ghost function Sum(m: map<Account, nat>, keys: set<Account>): (n: nat)
    requires keys <= m.Keys
  {
    if keys == {} then 0 else
      EmptyOrNot(keys);
      var a :| a in keys;
      m[a] + Sum(m, keys - {a})
  }

  ghost function Total(b: Bank): (n: nat) { Sum(b.coins, b.coins.Keys) }

  /** The order in which balances are added does not matter. */
  lemma {:induction false} SumSplit(m: map<Account, nat>, keys: set<Account>, a: Account)
    requires keys <= m.Keys && a in keys
    ensures Sum(m, keys) == m[a] + Sum(m, keys - {a})
    decreases |keys|
  {
    EmptyOrNot(keys);
    var b :| b in keys && Sum(m, keys) == m[b] + Sum(m, keys - {b});
    if b != a {
      SumSplit(m, keys - {b}, a);
      SumSplit(m, keys - {a}, b);
      assert keys - {a} - {b} == keys - {b} - {a};
    }
  }

  lemma {:induction false} SumAgree(m: map<Account, nat>, n: map<Account, nat>, keys: set<Account>)
    requires keys <= m.Keys && keys <= n.Keys && forall a :: a in keys ==> m[a] == n[a]
    ensures Sum(m, keys) == Sum(n, keys)
    decreases |keys|
  {
    if keys != {} {
      EmptyOrNot(keys);
      var a :| a in keys;
      SumSplit(m, keys, a);
      SumSplit(n, keys, a);
      SumAgree(m, n, keys - {a});
    }
  }

  /** Changing one balance changes the total by the same amount. */
  lemma TotalUpdate(m: map<Account, nat>, a: Account, balance: nat)
    requires a in m
    ensures Sum(m[a := balance], m.Keys) == Sum(m, m.Keys) - m[a] + balance
  {
    var n := m[a := balance];
    SumSplit(m, m.Keys, a);
    SumSplit(n, m.Keys, a);
    SumAgree(m, n, m.Keys - {a});
  }

  lemma MovedConserves(b: Bank, source: Account, dest: Account, amount: nat, history: Option<History>)
    requires Possible(b, source, dest, amount) && Within(b)
    ensures Total(Moved(b, source, dest, amount, history)) == Total(b)
    ensures Within(Moved(b, source, dest, amount, history))
  {
    var m := b.coins[source := b.coins[source] - amount];
    TotalUpdate(b.coins, source, b.coins[source] - amount);
    assert m.Keys == b.coins.Keys;
    TotalUpdate(m, dest, m[dest] + amount);
    assert m[dest := m[dest] + amount].Keys == b.coins.Keys;
  }

  // ---- Runs ----

  datatype Op =
    | DoTransfer(source: Account, dest: Account, amount: nat, history: Option<History>, attempts: nat -> Attempt)
    | DoDebit(a: Account, amount: nat, o: Outcome)
    | DoCredit(a: Account, amount: nat, o: Outcome)

  function Apply(b: Bank, op: Op): (r: (Bank, bool)) {
    match op
    case DoTransfer(source, dest, amount, history, attempts) => Transfer(b, source, dest, amount, history, attempts)
    case DoDebit(a, amount, o) => var (s, ok) := Debit(Session(b, None, Clear), a, amount, o); (s.committed, ok)
    case DoCredit(a, amount, o) => var (s, ok) := Credit(Session(b, None, Clear), a, amount, o); (s.committed, ok)
  }

  /** How many coins an operation that answers `ok` brings into the bank. */
  function Inflow(op: Op, ok: bool): (n: int) {
    if !ok then 0 else match op
      case DoTransfer(_, _, _, _, _) => 0
      case DoDebit(_, amount, _) => 0 - amount
      case DoCredit(_, amount, _) => amount
  }

  lemma ApplyExact(b: Bank, op: Op)
    requires Within(b)
    ensures Within(Apply(b, op).0)
    ensures Total(Apply(b, op).0) == Total(b) + Inflow(op, Apply(b, op).1)
  {
    match op {
      case DoTransfer(source, dest, amount, history, attempts) =>
        TransferExact(b, source, dest, amount, history, attempts);
        if Apply(b, op).1 {
          MovedConserves(b, source, dest, amount, history);
        }
      case DoDebit(a, amount, o) =>
        if CanDebit(b, a, amount) {
          TotalUpdate(b.coins, a, b.coins[a] - amount);
          assert b.coins[a := b.coins[a] - amount].Keys == b.coins.Keys;
        }
      case DoCredit(a, amount, o) =>
        if CanCredit(b, a, amount) {
          TotalUpdate(b.coins, a, b.coins[a] + amount);
          assert b.coins[a := b.coins[a] + amount].Keys == b.coins.Keys;
        }
    }
  }

  ghost predicate Run(states: seq<Bank>, ops: seq<Op>) {
    && |states| == |ops| + 1 && Within(states[0])
    && forall k :: 0 <= k < |ops| ==> states[k + 1] == Apply(states[k], ops[k]).0
  }

  ghost function TotalInflow(states: seq<Bank>, ops: seq<Op>, k: nat): (n: int)
    requires Run(states, ops) && k <= |ops|
  {
    if k == 0 then 0 else TotalInflow(states, ops, k - 1) + Inflow(ops[k - 1], Apply(states[k - 1], ops[k - 1]).1)
  }

  /**
   Over any run of transfers, debits and credits with any failures, every balance stays in
   0..MAX_COINS and the total is the starting total plus exactly what debits and credits that
   answered true took out or put in. Transfers alone conserve it.
   */
  lemma {:induction false} Conservation(states: seq<Bank>, ops: seq<Op>, k: nat)
    requires Run(states, ops) && k <= |ops|
    ensures Within(states[k])
    ensures Total(states[k]) == Total(states[0]) + TotalInflow(states, ops, k)
    ensures (forall i :: 0 <= i < k ==> ops[i].DoTransfer?) ==> Total(states[k]) == Total(states[0])
  {
    if k > 0 {
      Conservation(states, ops, k - 1);
      ApplyExact(states[k - 1], ops[k - 1]);
      assert states[k - 1 + 1] == Apply(states[k - 1], ops[k - 1]).0;
    }
  }
}
