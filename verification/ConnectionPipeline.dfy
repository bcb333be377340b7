/**
 The write pipeline of one connection (src/connection.cpp) as interleaved steps under its lock.

 Messages are numbered in the order `send` accepted them. At most one write is on its way: posted
 to the executor, or handed to the socket and not yet completed. The object lives as long as the
 manager lists it, closeAll has it in its snapshot, or a read or write handler holds it; its
 destructor closes the socket.
 */
module ConnectionPipeline {
  const MAX_PENDING_WRITE_MESSAGES := 128

  type Msg = nat

  datatype Write = None | Posted(msg: Msg) | InFlight(msg: Msg)

  /** Who holds the object: the manager's list, the snapshot of closeAll, a read handler; and whether it is gone. */
  datatype Life = Life(listed: bool, taken: bool, reading: bool, destroyed: bool)

  datatype State = State(
    messageQueue: seq<Msg>, closed: bool, socketOpen: bool, protocol: bool, write: Write, life: Life,
    accepted: nat,         // messages send put into the queue so far
    started: seq<Msg>,     // handed to async_write, in order
    delivered: seq<Msg>,   // completed without error, in order
    fault: bool)           // an error, a forced close or a lost protocol has occurred

  const INITIAL := State([], false, true, true, None, Life(true, false, true, false), 0, [], [], false)

  datatype Step =
    | Send(postOk: bool)
    | RunPosted(startOk: bool)
    | Complete(error: bool, startOk: bool)
    | Close(force: bool)
    | CloseAll                // closeAll takes the connection off the list into its snapshot
    | SocketTaken             // and then shuts its socket
    | ReleaseProtocol
    | ReadStops(force: bool)  // a read handler returns without asking for more
    | Destroy

  predicate Enabled(s: State, e: Step) {
    !s.life.destroyed &&
    match e
    case RunPosted(_) => s.write.Posted?
    case Complete(_, _) => s.write.InFlight?
    case CloseAll => s.life.listed
    case SocketTaken => s.life.taken
    case ReadStops(_) => s.life.reading
    case Destroy => !s.life.listed && !s.life.taken && !s.life.reading && s.write.None?
    case _ => true
  }

  function ClosedDown(s: State, force: bool): (r: State) {
    if s.closed then s
    else s.(closed := true, life := s.life.(listed := false), socketOpen := s.socketOpen &&
        !(s.messageQueue == [] || force))
  }

  function Faulty(s: State): (r: State) { s.(fault := true) }

  /** internalSend, with the socket accepting the write or throwing. */
  function Issued(s: State, msg: Msg, startOk: bool): (r: State) {
    if !s.protocol || !startOk then Faulty(ClosedDown(s.(write := None), true))
    else s.(write := InFlight(msg), started := s.started + [msg])
  }

  function Enqueued(s: State): (q: State) {
    s.(messageQueue := s.messageQueue + [s.accepted], accepted := s.accepted + 1)
  }

  function Sent(s: State, postOk: bool): (r: State) {
    if s.closed then s
    else if |s.messageQueue| >= MAX_PENDING_WRITE_MESSAGES then Faulty(ClosedDown(s, true))
    else
      var q := Enqueued(s);
      if s.messageQueue != [] then q
      else if postOk then q.(write := Posted(s.accepted))
      else Faulty(ClosedDown(q, true))
  }

  /** The state after the front is popped, before anything else. */
  function Popped(s: State, error: bool): (p: State)
    requires s.write.InFlight?
  {
    s.(write := None,
       delivered := (if error then s.delivered else s.delivered + [s.write.msg]),
       messageQueue := if s.messageQueue == [] then [] else s.messageQueue[1..])
  }

  function Completed(s: State, error: bool, startOk: bool): (r: State)
    requires s.write.InFlight?
  {
    var p := Popped(s, error);
    if error then Faulty(ClosedDown(p.(messageQueue := []), true))
    else if p.messageQueue != [] then
      if p.socketOpen then Issued(p, p.messageQueue[0], startOk)
      else Faulty(p.(messageQueue := []))
    else if p.closed then p.(socketOpen := false)
    else p
  }

  function Next(s: State, e: Step): (r: State)
    requires Enabled(s, e)
  {
    match e
    case Send(postOk) => Sent(s, postOk)
    case RunPosted(startOk) => Issued(s, s.write.msg, startOk)
    case Complete(error, startOk) => Completed(s, error, startOk)
    case Close(force) => if force then Faulty(ClosedDown(s, true)) else ClosedDown(s, false)
    case CloseAll => Faulty(s.(life := s.life.(listed := false, taken := true)))
    case SocketTaken => Faulty(s.(socketOpen := false, life := s.life.(taken := false)))
    case ReleaseProtocol => Faulty(s.(protocol := false))
    case ReadStops(force) =>
      var c := ClosedDown(s, force);
      var d := c.(life := c.life.(reading := false));
      if force && !s.closed then Faulty(d) else d
    case Destroy => s.(socketOpen := false, life := s.life.(destroyed := true))
  }

  // ---- Invariant ----

  ghost predicate Increasing(s: seq<Msg>) { forall i, j :: 0 <= i < j < |s| ==> s[i] < s[j] }

  /** A write on its way is the front of the queue; a queue nobody serves belongs to a closed connection. */
  ghost predicate OneWrite(s: State) {
    && (!s.write.None? ==> s.messageQueue != [] && s.write.msg == s.messageQueue[0])
    && (s.messageQueue != [] && s.write.None? ==> s.closed)
    && |s.messageQueue| <= MAX_PENDING_WRITE_MESSAGES
  }

  /** Numbers only go up: started before queued, queued before accepted next. */
  ghost predicate InOrder(s: State) {
    && Increasing(s.messageQueue) && Increasing(s.started) && Increasing(s.delivered)
    && (forall i :: 0 <= i < |s.messageQueue| ==> s.messageQueue[i] < s.accepted)
    && (forall i :: 0 <= i < |s.started| ==> s.started[i] < s.accepted)
    && (forall i, j :: 0 <= i < |s.started| && 0 <= j < |s.messageQueue| ==>
          s.started[i] < s.messageQueue[j] ||
              (j == 0 && s.write.InFlight? && i == |s.started| - 1 && s.started[i] == s.messageQueue[0]))
    && (s.write.InFlight? ==> s.started != [] && s.started[|s.started| - 1] == s.write.msg)
    && (forall i :: 0 <= i < |s.delivered| ==> s.delivered[i] in s.started)
    && (s.write.InFlight? ==> forall i :: 0 <= i < |s.delivered| ==> s.delivered[i] < s.write.msg)
    && (s.started == [] ==> s.delivered == [])
  }

  /** Without faults nothing is dropped and the socket closes exactly when the last message is out. */
  ghost predicate Clean(s: State) {
    && s.protocol
    && s.accepted == |s.delivered| + |s.messageQueue|
    && (forall i :: 0 <= i < |s.delivered| ==> s.delivered[i] == i)
    && (forall i :: 0 <= i < |s.messageQueue| ==> s.messageQueue[i] == |s.delivered| + i)
    && (s.messageQueue != [] ==> !s.write.None?)
    && (s.socketOpen <==> !(s.closed && s.messageQueue == []))
  }

  /** Who holds the object: an open connection is listed and read from, unless something has gone wrong. */
  ghost predicate Held(s: State) {
    && (s.closed ==> !s.life.listed) && (s.life.taken ==> !s.life.listed && s.fault)
    && (!s.closed ==> s.life.reading && (s.life.listed || s.fault))
    && (s.life.destroyed ==> s.closed && !s.socketOpen && !s.life.taken && !s.life.reading && s.write.None?)
  }

  ghost predicate Inv(s: State) {
    && OneWrite(s) && InOrder(s) && Held(s)
    && (!s.fault ==> Clean(s))
    && (!s.closed && !s.fault ==> s.socketOpen)
  }

  lemma OneWriteKept(s: State, e: Step)
    requires OneWrite(s) && Enabled(s, e)
    ensures OneWrite(Next(s, e))
  {
    match e {
      case Send(postOk) => SentOneWrite(s, postOk);
      case RunPosted(startOk) => IssuedOneWrite(s, s.write.msg, startOk);
      case Complete(error, startOk) => CompletedOneWrite(s, error, startOk);
      case _ =>
    }
  }

  lemma IssuedOneWrite(s: State, msg: Msg, startOk: bool)
    requires s.messageQueue != [] && s.messageQueue[0] == msg && |s.messageQueue| <= MAX_PENDING_WRITE_MESSAGES
    ensures OneWrite(Issued(s, msg, startOk))
  {
  }

  lemma SentOneWrite(s: State, postOk: bool)
    requires OneWrite(s)
    ensures OneWrite(Sent(s, postOk))
  {
  }

  lemma CompletedOneWrite(s: State, error: bool, startOk: bool)
    requires OneWrite(s) && s.write.InFlight?
    ensures OneWrite(Completed(s, error, startOk))
  {
    var p := Popped(s, error);
    if !error && p.messageQueue != [] && p.socketOpen {
      IssuedOneWrite(p, p.messageQueue[0], startOk);
    }
  }

  lemma StartKeepsOrder(s: State, msg: Msg, startOk: bool)
    requires InOrder(s) && s.messageQueue != [] && s.messageQueue[0] == msg && !s.write.InFlight?
    ensures InOrder(Issued(s, msg, startOk))
  {
  }

  lemma InOrderKept(s: State, e: Step)
    requires OneWrite(s) && InOrder(s) && Enabled(s, e)
    ensures InOrder(Next(s, e))
  {
    match e {
      case Send(postOk) => SendKeepsOrder(s, postOk);
      case RunPosted(startOk) => StartKeepsOrder(s, s.write.msg, startOk);
      case Complete(error, startOk) => CompleteKeepsOrder(s, error, startOk);
      case _ => SameOrder(s, Next(s, e));
    }
  }

  /** Order only speaks of the queue, the logs and the write. */
  lemma SameOrder(s: State, t: State)
    requires InOrder(s)
    requires t == s.(closed := t.closed, socketOpen := t.socketOpen, protocol := t.protocol, fault := t.fault,
             life := t.life)
    ensures InOrder(t)
  {
  }

  lemma SendKeepsOrder(s: State, postOk: bool)
    requires OneWrite(s) && InOrder(s)
    ensures InOrder(Sent(s, postOk))
  {
    if s.closed || |s.messageQueue| >= MAX_PENDING_WRITE_MESSAGES {
      SameOrder(s, Sent(s, postOk));
    } else {
      EnqueueKeepsOrder(s);
      var q := Enqueued(s);
      var w := if s.messageQueue == [] && postOk then q.(write := Posted(s.accepted)) else q;
      SameOrder(w, Sent(s, postOk));
    }
  }

  lemma EnqueueKeepsOrder(s: State)
    requires OneWrite(s) && InOrder(s)
    ensures InOrder(Enqueued(s))
  {
    var q := Enqueued(s);
    assert Increasing(q.messageQueue);
    forall i, j | 0 <= i < |q.started| && 0 <= j < |q.messageQueue|
      ensures q.started[i] < q.messageQueue[j] ||
              (j == 0 && q.write.InFlight? && i == |q.started| - 1 && q.started[i] == q.messageQueue[0])
    {
      if j < |s.messageQueue| {
        assert q.messageQueue[j] == s.messageQueue[j];
      }
    }
  }

  lemma CompleteKeepsOrder(s: State, error: bool, startOk: bool)
    requires OneWrite(s) && InOrder(s) && s.write.InFlight?
    ensures InOrder(Completed(s, error, startOk))
  {
    PopKeepsOrder(s, error);
    var p := Popped(s, error);
    if !error && p.messageQueue != [] && p.socketOpen {
      StartKeepsOrder(p, p.messageQueue[0], startOk);
    } else {
      var q := if error || p.messageQueue != [] then p.(messageQueue := []) else p;
      assert InOrder(q);
      SameOrder(q, Completed(s, error, startOk));
    }
  }

  lemma PopKeepsOrder(s: State, error: bool)
    requires OneWrite(s) && InOrder(s) && s.write.InFlight?
    ensures InOrder(Popped(s, error))
  {
    var p := Popped(s, error);
    forall i | 0 <= i < |p.delivered| ensures p.delivered[i] in p.started {
      if i == |s.delivered| {
        assert s.started[|s.started| - 1] == s.write.msg;
      }
    }
    forall i, j | 0 <= i < |p.started| && 0 <= j < |p.messageQueue| ensures p.started[i] < p.messageQueue[j] {
      assert p.messageQueue[j] == s.messageQueue[j + 1];
    }
  }

  lemma HeldKept(s: State, e: Step)
    requires Held(s) && Enabled(s, e)
    ensures Held(Next(s, e))
  {
    match e {
      case Send(postOk) => SentHeld(s, postOk);
      case RunPosted(startOk) => IssuedHeld(s, s.write.msg, startOk);
      case Complete(error, startOk) => CompletedHeld(s, error, startOk);
      case Close(force) => ClosedHeld(s, force);
      case ReadStops(force) => ClosedHeld(s, force);
      case _ =>
    }
  }

  lemma ClosedHeld(s: State, force: bool)
    requires Held(s)
    ensures Held(ClosedDown(s, force)) && Held(Faulty(ClosedDown(s, force)))
  {
  }

  lemma IssuedHeld(s: State, msg: Msg, startOk: bool)
    requires Held(s) && !s.life.destroyed
    ensures Held(Issued(s, msg, startOk))
  {
    ClosedHeld(s.(write := None), true);
  }

  lemma SentHeld(s: State, postOk: bool)
    requires Held(s) && !s.life.destroyed
    ensures Held(Sent(s, postOk))
  {
    ClosedHeld(s, true);
    ClosedHeld(Enqueued(s), true);
  }

  lemma CompletedHeld(s: State, error: bool, startOk: bool)
    requires Held(s) && !s.life.destroyed && s.write.InFlight?
    ensures Held(Completed(s, error, startOk))
  {
    var p := Popped(s, error);
    ClosedHeld(p.(messageQueue := []), true);
    if !error && p.messageQueue != [] {
      IssuedHeld(p, p.messageQueue[0], startOk);
    }
  }

  lemma CleanKept(s: State, e: Step)
    requires Inv(s) && Enabled(s, e)
    ensures !Next(s, e).fault ==> Clean(Next(s, e))
  {
    if !s.fault {
      match e {
        case Send(postOk) => SentClean(s, postOk);
        case RunPosted(startOk) =>
        case Complete(error, startOk) => CompletedClean(s, error, startOk);
        case _ =>
      }
    }
  }

  lemma SentClean(s: State, postOk: bool)
    requires OneWrite(s) && Clean(s) && !s.fault
    ensures !Sent(s, postOk).fault ==> Clean(Sent(s, postOk))
  {
  }

  lemma CompletedClean(s: State, error: bool, startOk: bool)
    requires OneWrite(s) && Clean(s) && !s.fault && s.write.InFlight?
    ensures !Completed(s, error, startOk).fault ==> Clean(Completed(s, error, startOk))
  {
    var p := Popped(s, error);
    assert !error ==> p.delivered[|s.delivered|] == |s.delivered|;
  }

  lemma NextKeeps(s: State, e: Step)
    requires Inv(s) && Enabled(s, e)
    ensures Inv(Next(s, e))
  {
    OneWriteKept(s, e);
    InOrderKept(s, e);
    HeldKept(s, e);
    CleanKept(s, e);
  }

  ghost predicate Run(states: seq<State>, steps: seq<Step>) {
    && |states| == |steps| + 1 && states[0] == INITIAL
    && forall k :: 0 <= k < |steps| ==> Enabled(states[k], steps[k]) && states[k + 1] == Next(states[k], steps[k])
  }

  lemma {:induction false} RunKeeps(states: seq<State>, steps: seq<Step>, k: nat)
    requires Run(states, steps) && k <= |steps|
    ensures Inv(states[k])
  {
    if k > 0 {
      RunKeeps(states, steps, k - 1);
      NextKeeps(states[k - 1], steps[k - 1]);
      assert states[k - 1 + 1] == Next(states[k - 1], steps[k - 1]);
    }
  }

  /**
   Main result on order: in every interleaving the write on its way is the queue's front, the queue
   holds at most 128 messages, and messages are handed to the socket in the order of `send`, none twice.
   */
  lemma SendOrder(states: seq<State>, steps: seq<Step>, k: nat)
    requires Run(states, steps) && k <= |steps|
    ensures var s := states[k];
            && (!s.write.None? ==> s.messageQueue != [] && s.write.msg == s.messageQueue[0])
            && |s.messageQueue| <= MAX_PENDING_WRITE_MESSAGES
            && Increasing(s.started) && Increasing(s.delivered)
            && forall m :: m in s.delivered ==> m in s.started
  {
    RunKeeps(states, steps, k);
  }

  /** Without a fault, the socket is closed only after everything accepted was delivered. */
  lemma CloseFlushes(states: seq<State>, steps: seq<Step>, k: nat)
    requires Run(states, steps) && k <= |steps|
    requires !states[k].fault && !states[k].socketOpen
    ensures states[k].closed && |states[k].delivered| == states[k].accepted
    ensures forall m :: 0 <= m < states[k].accepted ==> states[k].delivered[m] == m
  {
    RunKeeps(states, steps, k);
  }

  // ---- Which messages are accepted ----

  /** The message is queued under the next number, behind the others; the first one is posted with it. */
  ghost predicate Takes(s: State, t: State) {
    && t.accepted == s.accepted + 1 && t.messageQueue == s.messageQueue + [s.accepted]
    && t.write == (if s.messageQueue == [] then Posted(s.accepted) else s.write)
    && t == s.(accepted := t.accepted, messageQueue := t.messageQueue, write := t.write)
  }

  /** The connection is closed by force: marked, off the list, its socket shut, and nothing else touched. */
  ghost predicate Aborts(s: State, t: State) {
    && t.closed && !t.socketOpen && t.fault && t.life == s.life.(listed := false)
    && t == s.(closed := true, socketOpen := false, fault := true, life := t.life)
  }

  /**
   What one `send` does: nothing on a closed connection, a forced close at 128 waiting messages, and
   otherwise the message is taken; only a first message can then still fail, if it cannot be posted.
   */
  lemma SendExact(s: State, postOk: bool)
    requires Enabled(s, Send(postOk))
    ensures var t := Next(s, Send(postOk));
            && (s.closed ==> t == s)
            && (!s.closed && |s.messageQueue| >= 128 ==> Aborts(s, t))
            && (!s.closed && |s.messageQueue| < 128 && (s.messageQueue != [] || postOk) ==> Takes(s, t))
            && (!s.closed && s.messageQueue == [] && !postOk ==>
                  Aborts(s.(messageQueue := [s.accepted], accepted := s.accepted + 1), t))
  {
  }

  /** Nothing is on its way any more, and a connection that was open is shut and off the list. */
  ghost predicate WriteFails(s: State, t: State) {
    && t.write.None? && t.closed && t.fault && t.delivered == s.delivered && t.started == s.started
    && t.socketOpen == (s.closed && s.socketOpen) && t.life == s.life.(listed := s.closed && s.life.listed)
  }

  /** What a completed write does: an error drops the queue and closes, a success goes on with the next message. */
  lemma CompleteExact(s: State, error: bool, startOk: bool)
    requires Enabled(s, Complete(error, startOk)) && OneWrite(s)
    ensures var t, waiting := Next(s, Complete(error, startOk)), s.messageQueue[1..];
            && (error ==> WriteFails(s, t) && t.messageQueue == [])
            && (!error ==> t.delivered == s.delivered + [s.messageQueue[0]])
            && (!error && waiting == [] ==>
                  t == s.(messageQueue := [], write := None, delivered := t.delivered,
                          socketOpen := s.socketOpen && !s.closed))
            && (!error && waiting != [] && s.socketOpen && s.protocol && startOk ==>
                  t == s.(messageQueue := waiting, write := InFlight(waiting[0]), delivered := t.delivered,
                          started := s.started + [waiting[0]]))
            && (!error && waiting != [] && !s.socketOpen ==>
                  t == s.(messageQueue := [], write := None, delivered := t.delivered, fault := true))
            && (!error && waiting != [] && s.socketOpen && !(s.protocol && startOk) ==>
                  WriteFails(s.(delivered := t.delivered), t) && t.messageQueue == waiting)
  {
  }

  /** A posted write is handed to the socket, or the connection is shut. */
  lemma PostedExact(s: State, startOk: bool)
    requires Enabled(s, RunPosted(startOk))
    ensures var t := Next(s, RunPosted(startOk));
            && t.messageQueue == s.messageQueue
            && (s.protocol && startOk ==>
                  t == s.(write := InFlight(s.write.msg), started := s.started + [s.write.msg]))
            && (!(s.protocol && startOk) ==> WriteFails(s, t))
  {
  }

  /** A close marks the connection, and shuts the socket at once on force or with nothing to send; once only. */
  lemma CloseExact(s: State, force: bool)
    requires Enabled(s, Close(force))
    ensures var t := Next(s, Close(force));
            && t.closed && t.messageQueue == s.messageQueue && t.write == s.write
            && (s.closed ==> t.socketOpen == s.socketOpen)
            && (!s.closed ==> !t.life.listed)
            && (!s.closed ==> t.socketOpen == (s.socketOpen && s.messageQueue != [] && !force))
  {
  }

  /**
   closeAll takes the object off the list and then shuts its socket; a read that stops closes the connection
   and lets go of the object; and the destructor shuts the socket once nobody holds it.
   */
  lemma HoldersExact(s: State, e: Step)
    requires Enabled(s, e)
    ensures var t := Next(s, e);
            && (e.CloseAll? ==> t == s.(fault := true, life := s.life.(listed := false, taken := true)))
            && (e.SocketTaken? ==> t == s.(fault := true, socketOpen := false, life := s.life.(taken := false)))
            && (e.ReadStops? ==>
                  && t.closed && !t.life.reading && t.life.taken == s.life.taken
                  && t.socketOpen == (s.socketOpen && (s.closed || (s.messageQueue != [] && !e.force))))
            && (e.Destroy? ==>
                  && !s.life.listed && !s.life.taken && !s.life.reading && s.write.None?
                  && t == s.(socketOpen := false, life := s.life.(destroyed := true)))
  {
  }

  /** Something goes wrong in this step, or it tears the connection down without waiting for the queue. */
  predicate GoesWrong(s: State, e: Step)
    requires Enabled(s, e)
  {
    match e
    case Send(postOk) => !s.closed && (|s.messageQueue| >= 128 || (s.messageQueue == [] && !postOk))
    case RunPosted(startOk) => !startOk || !s.protocol
    case Complete(error, startOk) =>
      error || (|s.messageQueue| > 1 && !(s.socketOpen && s.protocol && startOk))
    case Close(force) => force
    case ReadStops(force) => force && !s.closed
    case Destroy => false
    case _ => true
  }

  /** A fault is on record exactly from the first such step on. */
  lemma FaultIff(s: State, e: Step)
    requires Enabled(s, e)
    ensures Next(s, e).fault <==> s.fault || GoesWrong(s, e)
  {
  }

  /** How many of the first k steps are calls of `send` on a connection that is not closed. */
  ghost function SendsBefore(states: seq<State>, steps: seq<Step>, k: nat): (n: nat)
    requires |states| == |steps| + 1 && k <= |steps|
  {
    if k == 0 then 0
    else SendsBefore(states, steps, k - 1) + if steps[k - 1].Send? && !states[k - 1].closed then 1 else 0
  }

  lemma AcceptedStep(s: State, e: Step)
    requires Enabled(s, e) && !Next(s, e).fault
    ensures Next(s, e).accepted == s.accepted + if e.Send? && !s.closed then 1 else 0
  {
  }

  lemma {:induction false} SendsCounted(states: seq<State>, steps: seq<Step>, k: nat)
    requires Run(states, steps) && k <= |steps| && !states[k].fault
    ensures states[k].accepted == SendsBefore(states, steps, k)
  {
    if k > 0 {
      var s, e := states[k - 1], steps[k - 1];
      assert states[k - 1 + 1] == Next(s, e);
      FaultIff(s, e);
      AcceptedStep(s, e);
      SendsCounted(states, steps, k - 1);
    }
  }

  lemma NothingLost(s: State)
    requires Clean(s)
    ensures s.accepted == |s.delivered + s.messageQueue|
    ensures forall m :: 0 <= m < s.accepted ==> (s.delivered + s.messageQueue)[m] == m
  {
  }

  /**
   Main result on acceptance: as long as nothing has gone wrong, every message sent on the open
   connection was accepted, and each is delivered or waits, in the order of the calls.
   */
  lemma EverySendAccepted(states: seq<State>, steps: seq<Step>, k: nat)
    requires Run(states, steps) && k <= |steps| && !states[k].fault
    ensures var s := states[k];
            && s.accepted == SendsBefore(states, steps, k) == |s.delivered + s.messageQueue|
            && forall m :: 0 <= m < s.accepted ==> (s.delivered + s.messageQueue)[m] == m
  {
    RunKeeps(states, steps, k);
    SendsCounted(states, steps, k);
    NothingLost(states[k]);
  }

  // ---- The queue drains, and a graceful close ends ----

  /** The step that finishes the write on its way successfully. */
  function Serve(s: State): (r: State)
    requires !s.write.None?
  {
    if s.write.Posted? then Issued(s, s.write.msg, true) else Completed(s, false, true)
  }

  function Left(s: State): (n: nat) { 2 * |s.messageQueue| + if s.write.Posted? then 1 else 0 }

  lemma ServeKeeps(s: State)
    requires Inv(s) && !s.fault && !s.life.destroyed && s.messageQueue != []
    ensures !s.write.None? && Left(Serve(s)) < Left(s) && Serve(s).accepted == s.accepted
    ensures Inv(Serve(s)) && Serve(s).closed == s.closed && !Serve(s).fault && !Serve(s).life.destroyed
  {
    var e := if s.write.Posted? then RunPosted(true) else Complete(false, true);
    assert Serve(s) == Next(s, e);
    NextKeeps(s, e);
  }

  ghost predicate Served(path: seq<State>) {
    path != [] && forall k :: 0 <= k < |path| - 1 ==> !path[k].write.None? && path[k + 1] == Serve(path[k])
  }

  /** Successful completions alone empty the queue; a connection that was closed by then shuts its socket. */
  lemma {:induction false} QueueDrains(s: State) returns (path: seq<State>)
    requires Inv(s) && !s.fault && !s.life.destroyed
    ensures Served(path) && path[0] == s
    ensures var last := path[|path| - 1];
            && !last.fault && last.messageQueue == [] && last.closed == s.closed && last.socketOpen == !s.closed
            && last.accepted == s.accepted && |last.delivered| == s.accepted
    decreases Left(s)
  {
    if s.messageQueue == [] {
      return [s];
    }
    var t := Serve(s);
    ServeKeeps(s);
    var rest := QueueDrains(t);
    path := [s] + rest;
    forall k | 0 <= k < |path| - 1 ensures !path[k].write.None? && path[k + 1] == Serve(path[k]) {
      if k > 0 {
        assert path[k] == rest[k - 1] && rest[k - 1 + 1] == Serve(rest[k - 1]);
      }
    }
  }

  /** As many successful completions as there are messages queued close the socket. */
  lemma GracefulCloseEnds(s: State) returns (path: seq<State>)
    requires Inv(s) && s.closed && !s.fault && !s.life.destroyed
    ensures Served(path) && path[0] == s
    ensures var last := path[|path| - 1];
            !last.socketOpen && !last.fault && last.accepted == s.accepted && |last.delivered| == s.accepted
  {
    path := QueueDrains(s);
  }

  // ---- Where the teardown fails ----

  /** Marked closed, nothing on its way, and the socket still open. */
  predicate Leaked(s: State) { s.closed && s.socketOpen && s.write.None? }

  /** The step fails to complete a write or to start the next one. */
  predicate Fails(s: State, e: Step)
    requires Enabled(s, e)
  {
    match e
    case RunPosted(startOk) => !startOk || !s.protocol
    case Complete(error, startOk) => error || (|s.messageQueue| > 1 && (!startOk || !s.protocol))
    case _ => false
  }

  /**
   closeLocked does nothing on a connection already marked closed. So the teardown leaves the socket of
   a closed connection open exactly when a write fails while a graceful close is draining.
   */
  lemma LeakIff(s: State, e: Step)
    requires Inv(s) && Enabled(s, e) && !Leaked(s)
    ensures Leaked(Next(s, e)) <==> s.closed && s.socketOpen && Fails(s, e)
  {
  }

  /**
   From then on the socket stays open until the read side has let go of the object and its destructor
   runs, or a closeAll that had taken the connection before it was released gets to it. No closeAll
   that starts later lists it.
   */
  lemma LeakEndsIff(s: State, e: Step)
    requires Inv(s) && Leaked(s) && Enabled(s, e)
    ensures !Leaked(Next(s, e)) <==> e.Destroy? || e.SocketTaken?
    ensures !Enabled(s, CloseAll)
    ensures Enabled(s, Destroy) <==> !s.life.reading && !s.life.taken
  {
  }

  /** So while a read is pending, which a closed connection does not cut short, the socket stays open. */
  lemma {:induction false} LeakLasts(states: seq<State>, steps: seq<Step>, i: nat, j: nat)
    requires Run(states, steps) && i <= j <= |steps| && Leaked(states[i]) && !states[i].life.taken
    requires states[i].life.reading && forall k :: i <= k < j ==> !steps[k].ReadStops?
    ensures Leaked(states[j]) && states[j].life.reading && !states[j].life.taken
    decreases j - i
  {
    if i < j {
      LeakLasts(states, steps, i, j - 1);
      RunKeeps(states, steps, j - 1);
      LeakEndsIff(states[j - 1], steps[j - 1]);
      assert states[j - 1 + 1] == Next(states[j - 1], steps[j - 1]);
    }
  }

  /** And once the read side stops, the destructor shuts it. */
  lemma LeakCloses(s: State, force: bool)
    requires Inv(s) && Leaked(s) && !s.life.taken && s.life.reading
    ensures Enabled(s, ReadStops(force)) && Enabled(Next(s, ReadStops(force)), Destroy)
    ensures !Next(Next(s, ReadStops(force)), Destroy).socketOpen
  {
  }

  /** A run that leaks: two messages, a graceful close, and an error on the first write. */
  lemma LeakHappens()
    ensures exists states: seq<State>, steps: seq<Step> ::
            Run(states, steps) && Leaked(states[|steps|]) && states[|steps|].life.reading
  {
    var steps := [Send(true), RunPosted(true), Send(true), Close(false), Complete(true, true)];
    var s1 := Next(INITIAL, steps[0]);
    var s2 := Next(s1, steps[1]);
    var s3 := Next(s2, steps[2]);
    var s4 := Next(s3, steps[3]);
    var s5 := Next(s4, steps[4]);
    var states := [INITIAL, s1, s2, s3, s4, s5];
    assert Run(states, steps);
    assert Leaked(states[|steps|]);
  }

  // ---- The object ----

  class Connection {
    var messageQueue: seq<Msg>
    var closed: bool
    var socketOpen: bool
    var protocol: bool
    var listed: bool
    ghost var rest: State

    ghost function View(): (s: State)
      reads this
    {
      rest.(messageQueue := messageQueue, closed := closed, socketOpen := socketOpen, protocol := protocol,
          life := rest.life.(listed := listed))
    }

    constructor ()
      ensures View() == INITIAL && Inv(View())
    {
      messageQueue, closed, socketOpen, protocol, listed, rest := [], false, true, true, true, INITIAL;
    }

    method CloseSocket()
      modifies this`socketOpen
      ensures !socketOpen
    {
      if socketOpen {
        socketOpen := false;
      }
    }

    method CloseLocked(force: bool)
      modifies this`closed, this`socketOpen, this`listed
      ensures View() == ClosedDown(old(View()), force)
    {
      if closed {
        return;
      }
      closed := true;
      if messageQueue == [] || force {
        CloseSocket();
      }
      listed := false;   // releaseConnection
    }

    /** The destructor, when nobody holds the object any more. */
    method Destruct()
      requires Enabled(View(), Destroy)
      modifies this
      ensures View() == Next(old(View()), Destroy)
    {
      CloseSocket();
      rest := rest.(life := rest.life.(destroyed := true));
    }

    method Enqueue(msg: Msg)
      requires msg == View().accepted
      modifies this`messageQueue, this`rest
      ensures View() == Enqueued(old(View()))
    {
      messageQueue := messageQueue + [msg];
      rest := rest.(accepted := rest.accepted + 1);
    }

    /** A forced close after something went wrong. */
    method Abort()
      modifies this`closed, this`socketOpen, this`listed, this`rest
      ensures View() == Faulty(ClosedDown(old(View()), true))
    {
      CloseLocked(true);
      rest := rest.(fault := true);
    }

    /** `postOk` is whether the executor takes the handler; msg is the number of this message. */
    method Send(msg: Msg, postOk: bool)
      requires msg == View().accepted && !View().life.destroyed
      modifies this
      ensures View() == Next(old(View()), Step.Send(postOk))
      ensures old(closed) ==> View() == old(View())
      ensures !old(closed) && |old(messageQueue)| >= 128 ==> Aborts(old(View()), View())
      ensures !old(closed) && |old(messageQueue)| < 128 && (old(messageQueue) != [] || postOk) ==>
                Takes(old(View()), View())
    {
      SendExact(View(), postOk);
      if closed {
        return;
      }
      if |messageQueue| >= MAX_PENDING_WRITE_MESSAGES {
        Abort();
        return;
      }
      var noPendingWrite := messageQueue == [];
      Enqueue(msg);
      if noPendingWrite {
        if postOk {
          rest := rest.(write := Posted(msg));
        } else {
          Abort();
        }
      }
    }

    method InternalSend(msg: Msg, startOk: bool)
      modifies this
      ensures View() == Issued(old(View()), msg, startOk)
    {
      if !protocol || !startOk {
        rest := rest.(write := None);
        Abort();
      } else {
        rest := rest.(write := InFlight(msg), started := rest.started + [msg]);
      }
    }

    method PopFront(error: bool)
      requires View().write.InFlight?
      modifies this`messageQueue, this`rest
      ensures View() == Popped(old(View()), error)
    {
      if messageQueue != [] {
        messageQueue := messageQueue[1..];
      }
      rest := rest.(write := None, delivered := if error then rest.delivered else rest.delivered + [rest.write.msg]);
    }

    method OnWriteOperation(error: bool, startOk: bool)
      requires View().write.InFlight? && !View().life.destroyed
      modifies this
      ensures View() == Next(old(View()), Complete(error, startOk))
    {
      PopFront(error);
      if error {
        messageQueue := [];
        Abort();
      } else if messageQueue != [] {
        SendFront(startOk);
      } else if closed {
        CloseSocket();
      }
    }

    /** Continues the drain, or finishes the teardown of a socket that was shut meanwhile. */
    method SendFront(startOk: bool)
      requires messageQueue != []
      modifies this
      ensures View() == if old(socketOpen) then Issued(old(View()), old(messageQueue)[0], startOk)
                        else Faulty(old(View()).(messageQueue := []))
    {
      if socketOpen {
        InternalSend(messageQueue[0], startOk);
      } else {
        messageQueue := [];
        CloseSocket();
        rest := rest.(fault := true);
      }
    }
  }
}
