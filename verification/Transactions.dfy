/**
 Transactions with retries (src/database.h) over a database of any type D.

 A session works on a private copy until it commits. A statement may fail outright, time out on a
 lock (only the statement is undone), or be chosen as deadlock victim, in which case the server has
 already rolled the transaction back and later statements of the same callback take effect at once.
 A commit that fails has not happened.
 */
module Transactions {
  import opened Basics

  datatype Outcome = Ok | Failed | TimedOut | Victim

  /** The last error number: none, one that asks for a retry, or another one. */
  datatype Errno = Clear | LockError | OtherError

  datatype Session<D> = Session(committed: D, open: Option<D>, errno: Errno)

  function Current<D>(s: Session<D>): (d: D) { if s.open.Some? then s.open.value else s.committed }

  function Store<D>(s: Session<D>, d: D): (r: Session<D>) {
    if s.open.Some? then s.(open := Some(d), errno := Clear) else s.(committed := d, errno := Clear)
  }

  /** A statement that did not succeed. */
  function Miss<D>(s: Session<D>, o: Outcome): (r: Session<D>) {
    match o
    case Failed => s.(errno := OtherError)
    case TimedOut => s.(errno := LockError)
    case Victim => s.(open := None, errno := LockError)
    case Ok => s
  }

  /** An UPDATE or INSERT whose effect on the rows is known: the new contents. */
  function Write<D>(s: Session<D>, o: Outcome, d: D): (r: Session<D>) {
    if o.Ok? then Store(s, d) else Miss(s, o)
  }

  /** A SELECT leaves the rows alone. */
  function Read<D>(s: Session<D>, o: Outcome): (r: Session<D>) {
    if o.Ok? then s.(errno := Clear) else Miss(s, o)
  }

  /** How the statements of one attempt turn out, by position, and how its begin and commit do. */
  datatype Attempt = Attempt(begin: bool, outcomes: nat -> Outcome, commit: Outcome)

  type Callback<!D> = (Session<D>, nat -> Outcome) -> (Session<D>, bool)

  datatype Verdict = Committed | Again | GaveUp

  function Began<D>(db: D): (s: Session<D>) { Session(db, Some(db), Clear) }

  /** begin, callback, then commit or rollback. */
  function Tried<D>(db: D, callback: Callback<D>, a: Attempt): (r: (D, Verdict)) {
    if !a.begin then (db, GaveUp)
    else
      var (s, ok) := callback(Began(db), a.outcomes);
      if !ok then (s.committed, if s.errno.LockError? then Again else GaveUp)
      else if a.commit.Ok? then (Current(s), Committed)
      else (s.committed, if a.commit.Failed? then GaveUp else Again)
  }

  const TRANSACTION_MAX_ATTEMPTS := 3

  function Executed<D>(db: D, callback: Callback<D>, attempts: nat -> Attempt, attempt: nat): (r: (D, bool))
    requires 1 <= attempt <= TRANSACTION_MAX_ATTEMPTS
    decreases TRANSACTION_MAX_ATTEMPTS - attempt
  {
    var (d, verdict) := Tried(db, callback, attempts(attempt));
    if verdict.Committed? then (d, true)
    else if verdict.Again? && attempt < TRANSACTION_MAX_ATTEMPTS then Executed(d, callback, attempts, attempt + 1)
    else (d, false)
  }

  /** The whole call. */
  function InTransaction<D>(db: D, callback: Callback<D>, attempts: nat -> Attempt): (r: (D, bool)) {
    Executed(db, callback, attempts, 1)
  }

  /** The retry loop over anything that tries once. */
  type Trial<!D> = (D, Attempt) -> (D, Verdict)

  function Chain<D>(db: D, trial: Trial<D>, attempts: nat -> Attempt, attempt: nat): (r: (D, bool))
    requires 1 <= attempt <= TRANSACTION_MAX_ATTEMPTS
    decreases TRANSACTION_MAX_ATTEMPTS - attempt
  {
    var (d, verdict) := trial(db, attempts(attempt));
    if verdict.Committed? then (d, true)
    else if verdict.Again? && attempt < TRANSACTION_MAX_ATTEMPTS then Chain(d, trial, attempts, attempt + 1)
    else (d, false)
  }

  function Trials<D>(callback: Callback<D>): (trial: Trial<D>) { (d, a) => Tried(d, callback, a) }

  lemma {:induction false} ExecutedIsChain<D>(db: D, callback: Callback<D>, attempts: nat -> Attempt, attempt: nat)
    requires 1 <= attempt <= TRANSACTION_MAX_ATTEMPTS
    ensures Executed(db, callback, attempts, attempt) == Chain(db, Trials(callback), attempts, attempt)
    decreases TRANSACTION_MAX_ATTEMPTS - attempt
  {
    var (d, verdict) := Tried(db, callback, attempts(attempt));
    if verdict.Again? && attempt < TRANSACTION_MAX_ATTEMPTS {
      ExecutedIsChain(d, callback, attempts, attempt + 1);
    }
  }

  /** With these outcomes, started on this database, the callback never writes past its transaction. */
  ghost predicate Contained<D>(db: D, callback: Callback<D>, attempts: nat -> Attempt) {
    forall k {:trigger attempts(k)} :: 1 <= k <= TRANSACTION_MAX_ATTEMPTS ==>
      callback(Began(db), attempts(k).outcomes).0.committed == db
  }

  /**
   Attempt k ran the callback on `db` with success, committed, and led to `d`. When the server has
   rolled the transaction back under a callback that still answers true, `d` is `db` itself.
   */
  ghost predicate AppliedBy<D>(db: D, callback: Callback<D>, attempts: nat -> Attempt, d: D, k: nat) {
    && 1 <= k <= TRANSACTION_MAX_ATTEMPTS && attempts(k).begin && attempts(k).commit.Ok?
    && callback(Began(db), attempts(k).outcomes).1 && Current(callback(Began(db), attempts(k).outcomes).0) == d
  }

  ghost predicate Applied<D>(db: D, callback: Callback<D>, attempts: nat -> Attempt, d: D) {
    exists k :: AppliedBy(db, callback, attempts, d, k)
  }

  /**
   All or nothing: whatever fails, deadlocks or is retried, a call that answers false has changed
   nothing, and a call that answers true has applied the callback once, to the original database.
   */
  lemma {:induction false} AllOrNothing<D>(db: D, callback: Callback<D>, attempts: nat -> Attempt, attempt: nat)
    requires 1 <= attempt <= TRANSACTION_MAX_ATTEMPTS && Contained(db, callback, attempts)
    ensures !Executed(db, callback, attempts, attempt).1 ==> Executed(db, callback, attempts, attempt).0 == db
    ensures Executed(db, callback, attempts, attempt).1 ==>
            Applied(db, callback, attempts, Executed(db, callback, attempts, attempt).0)
    decreases TRANSACTION_MAX_ATTEMPTS - attempt
  {
    var a := attempts(attempt);
    var (d, verdict) := Tried(db, callback, a);
    assert callback(Began(db), attempts(attempt).outcomes).0.committed == db;
    assert !verdict.Committed? ==> d == db;
    if verdict.Committed? {
      assert AppliedBy(db, callback, attempts, d, attempt);
    } else if verdict.Again? && attempt < TRANSACTION_MAX_ATTEMPTS {
      AllOrNothing(db, callback, attempts, attempt + 1);
    }
  }

  // ---- When a call goes through, in terms of what its statements meet ----

  /** A lock timeout or a deadlock: the error that asks for a retry. */
  predicate AsksRetry(o: Outcome) { o.TimedOut? || o.Victim? }

  /** Statements `from` to n - 1 succeed. */
  predicate AllOk(o: nat -> Outcome, from: nat, n: nat) { forall i :: from <= i < n ==> o(i).Ok? }

  /** Of these statements, the first that does not succeed asks for a retry. */
  ghost predicate StopsForRetry(o: nat -> Outcome, from: nat, n: nat) {
    exists i :: from <= i < n && AllOk(o, from, i) && AsksRetry(o(i))
  }

  /** The first statement decides, or leaves it to the rest. */
  lemma FirstStatement(o: nat -> Outcome, from: nat, n: nat)
    requires from < n
    ensures AllOk(o, from, n) <==> o(from).Ok? && AllOk(o, from + 1, n)
    ensures StopsForRetry(o, from, n) <==> AsksRetry(o(from)) || (o(from).Ok? && StopsForRetry(o, from + 1, n))
  {
    if StopsForRetry(o, from, n) && o(from).Ok? {
      var i: nat :| from <= i < n && AllOk(o, from, i) && AsksRetry(o(i));
      assert AllOk(o, from + 1, i);
    }
    if o(from).Ok? && StopsForRetry(o, from + 1, n) {
      var i: nat :| from + 1 <= i < n && AllOk(o, from + 1, i) && AsksRetry(o(i));
      assert AllOk(o, from, i);
    }
    if AsksRetry(o(from)) {
      assert AllOk(o, from, from);
    }
  }

  lemma NoStatement(o: nat -> Outcome, n: nat)
    ensures AllOk(o, n, n) && !StopsForRetry(o, n, n)
  {
  }

  /** The attempt carries n statements through. */
  predicate Carries(a: Attempt, n: nat) { a.begin && AllOk(a.outcomes, 0, n) && a.commit.Ok? }

  /** The attempt fails in a way that is retried. */
  ghost predicate Retries(a: Attempt, n: nat) {
    a.begin && if AllOk(a.outcomes, 0, n) then AsksRetry(a.commit) else StopsForRetry(a.outcomes, 0, n)
  }

  ghost predicate GoesAt(attempts: nat -> Attempt, n: nat, from: nat, k: nat) {
    && from <= k <= 3 && Carries(attempts(k), n)
    && forall j :: from <= j < k ==> Retries(attempts(j), n)
  }

  /** A transaction of n statements goes through: some attempt carries it, and those before it are retried. */
  ghost predicate Goes(attempts: nat -> Attempt, n: nat) { GoesFrom(attempts, n, 1) }

  ghost predicate GoesFrom(attempts: nat -> Attempt, n: nat, from: nat) { exists k :: GoesAt(attempts, n, from, k) }

  /** The callback is n statements in a row and stops at the first that does not succeed. */
  ghost predicate InARow<D(!new)>(db: D, callback: Callback<D>, n: nat) {
    forall o {:trigger callback(Began(db), o)} ::
      var (s, ok) := callback(Began(db), o);
      && ok == AllOk(o, 0, n)
      && s.committed == db && (!ok ==> (s.errno.LockError? <==> StopsForRetry(o, 0, n)))
  }

  /** What one attempt comes to, for n statements in a row. */
  ghost predicate CarriedOrNot<D>(db: D, result: (D, Verdict), a: Attempt, n: nat) {
    && (result.1.Committed? <==> Carries(a, n)) && (result.1.Again? <==> Retries(a, n))
    && (!result.1.Committed? ==> result.0 == db)
  }

  lemma TriedInARow<D(!new)>(db: D, callback: Callback<D>, n: nat, a: Attempt)
    requires InARow(db, callback, n)
    ensures CarriedOrNot(db, Tried(db, callback, a), a, n)
  {
    if a.begin {
      var (s, ok) := callback(Began(db), a.outcomes);
      assert ok == AllOk(a.outcomes, 0, n);
      assert !ok ==> (s.errno.LockError? <==> StopsForRetry(a.outcomes, 0, n));
    }
  }

  lemma GoesLater(attempts: nat -> Attempt, n: nat, from: nat, next: nat)
    requires next == from + 1 && !Carries(attempts(from), n)
    ensures GoesFrom(attempts, n, from) <==> Retries(attempts(from), n) && GoesFrom(attempts, n, next)
  {
    if GoesFrom(attempts, n, from) {
      var k: nat :| GoesAt(attempts, n, from, k);
      assert from < k && GoesAt(attempts, n, next, k);
    }
    if Retries(attempts(from), n) && GoesFrom(attempts, n, next) {
      var k: nat :| GoesAt(attempts, n, next, k);
      assert GoesAt(attempts, n, from, k);
    }
  }

  /** The attempt carries it, or is retried and a later one does. */
  lemma GoesStep(attempts: nat -> Attempt, n: nat, from: nat)
    requires from <= TRANSACTION_MAX_ATTEMPTS
    ensures GoesFrom(attempts, n, from) <==>
            Carries(attempts(from), n) ||
            (Retries(attempts(from), n) && from < TRANSACTION_MAX_ATTEMPTS && GoesFrom(attempts, n, from + 1))
  {
    if Carries(attempts(from), n) {
      assert GoesAt(attempts, n, from, from);
    } else {
      GoesLater(attempts, n, from, from + 1);
    }
  }

  lemma {:induction false} ChainGoesIff<D(!new)>(
      db: D, trial: Trial<D>, n: nat, attempts: nat -> Attempt, attempt: nat)
    requires 1 <= attempt <= TRANSACTION_MAX_ATTEMPTS
    requires forall a {:trigger trial(db, a)} :: CarriedOrNot(db, trial(db, a), a, n)
    ensures Chain(db, trial, attempts, attempt).1 <==> GoesFrom(attempts, n, attempt)
    decreases TRANSACTION_MAX_ATTEMPTS - attempt
  {
    var a := attempts(attempt);
    assert CarriedOrNot(db, trial(db, a), a, n);
    GoesStep(attempts, n, attempt);
    if attempt < TRANSACTION_MAX_ATTEMPTS {
      ChainGoesIff(db, trial, n, attempts, attempt + 1);
    }
  }

  /** A call whose callback is n statements in a row answers true exactly when they go through. */
  lemma GoesIff<D(!new)>(db: D, callback: Callback<D>, n: nat, attempts: nat -> Attempt)
    requires InARow(db, callback, n)
    ensures InTransaction(db, callback, attempts).1 <==> Goes(attempts, n)
  {
    var trial := Trials(callback);
    forall a {:trigger trial(db, a)} ensures CarriedOrNot(db, trial(db, a), a, n) {
      TriedInARow(db, callback, n, a);
    }
    ExecutedIsChain(db, callback, attempts, 1);
    ChainGoesIff(db, trial, n, attempts, 1);
  }

  // ---- The transaction object ----

  datatype TransactionState = NoStart | Start | Commit

  class DBTransaction<!D> {
    var state: TransactionState
    var session: Session<D>

    constructor (db: D)
      ensures state == NoStart && session == Session(db, None, Clear)
    {
      state, session := NoStart, Session(db, None, Clear);
    }

    method Begin(ok: bool) returns (r: bool)
      modifies this
      ensures r == ok && state == (if ok then Start else NoStart)
      ensures session == if ok then Began(old(session).committed) else old(session)
    {
      if !ok {
        state := NoStart;
        return false;
      }
      state := Start;
      session := Session(session.committed, Some(session.committed), Clear);
      return true;
    }

    method CommitIt(outcome: Outcome) returns (r: bool)
      modifies this
      ensures r == (old(state).Start? && outcome.Ok?)
      ensures r ==> state == Commit && session == Session(Current(old(session)), None, old(session).errno)
      ensures !r ==> state == old(state) && session.committed == old(session).committed
      ensures old(state).Start? && !r ==> session.errno == if outcome.Failed? then OtherError else LockError
    {
      if !state.Start? {
        return false;
      }
      if !outcome.Ok? {
        session := session.(errno := if outcome.Failed? then OtherError else LockError);
        return false;
      }
      session := Session(Current(session), None, session.errno);
      state := Commit;
      return true;
    }

    /** Also what the destructor of a started transaction does. */
    method Rollback()
      modifies this
      ensures session == (if old(state).Start? then old(session).(open := None) else old(session))
      ensures state == if old(state).Start? then NoStart else old(state)
    {
      if state.Start? {
        state := NoStart;
        session := session.(open := None);
      }
    }
  }

  method ExecuteWithinTransactionRollbackOnFailure<D>(db: D, callback: Callback<D>, attempts: nat -> Attempt)
    returns (result: D, ok: bool)
    ensures (result, ok) == InTransaction(db, callback, attempts)
  {
    result := db;
    var attempt := 1;
    while attempt <= TRANSACTION_MAX_ATTEMPTS
      invariant 1 <= attempt <= TRANSACTION_MAX_ATTEMPTS + 1
      invariant attempt <= TRANSACTION_MAX_ATTEMPTS ==>
                InTransaction(db, callback, attempts) == Executed(result, callback, attempts, attempt)
      invariant attempt == TRANSACTION_MAX_ATTEMPTS + 1 ==> InTransaction(db, callback, attempts) == (result, false)
    {
      var a := attempts(attempt);
      var transaction := new DBTransaction<D>(result);
      var begun := transaction.Begin(a.begin);
      if !begun {
        return result, false;
      }
      var (session, done) := callback(transaction.session, a.outcomes);
      transaction.session := session;
      if !done {
        transaction.Rollback();
        result := transaction.session.committed;
        if transaction.session.errno.LockError? && attempt < TRANSACTION_MAX_ATTEMPTS {
          attempt := attempt + 1;
          continue;
        }
        return result, false;
      }
      var committed := transaction.CommitIt(a.commit);
      result := transaction.session.committed;
      if committed {
        return result, true;
      }
      var retry := transaction.session.errno.LockError? && attempt < TRANSACTION_MAX_ATTEMPTS;
      transaction.Rollback();
      if retry {
        attempt := attempt + 1;
        continue;
      }
      return result, false;
    }
    return result, false;
  }
}
