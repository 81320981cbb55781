/** Threads sharing one SocketComponentHelper.

    Every scope guarded by m_lock or m_reconnectLock is one atomic step; the two locks are never
    nested.  What the code does between such scopes (the descriptor assert, the handler's open, the
    handler's send and receive) is a step of its own, so any other thread can run in between.
    The choices of the operating system (did the connect succeed, was the peer gone) and of the
    callers (which public operation to start) come in with each step. */
module SocketHelper {
  import opened Common

  type Tid = nat

  /** The two tasks created by start(); all other threads are callers. */
  const RECONNECT_TASK: Tid := 0
  const READ_TASK: Tid := 1

  /** Default timeout of waitForReconnect and initial m_reconnectWaitInterval, in microseconds. */
  const WAIT_TIMEOUT: nat := 1_000_000
  const WAIT_INTERVAL: nat := 10_000

  datatype OpenState = NotOpen | Opening | Open

  datatype ReconnectState = NotReconnecting | Requested | InProgress

  datatype ReopenStatus = Success | AutoConnectDisabled | OpenFailed

  /** Outcome of the handler's send or recv; a receive with nothing to read counts as IoOk. */
  datatype IoStatus = IoOk | IoDisconnected | IoOther

  datatype OpenCaller = FromUser | FromReopen
  datatype Waiter = Sender | Reader
  datatype AfterClose = ToCaller | ToReadError | ToReadLoop | ToTaskEnd

  /** Where a thread stands: the statement it executes next. */
  datatype Pc =
    | Idle
    | Finished
    | OpenClaim(caller: OpenCaller)
    | OpenAssert(caller: OpenCaller)
    | OpenHandler(caller: OpenCaller)
    | OpenCommit(caller: OpenCaller, ok: bool)
    | AssertFailed
    | Closing(after: AfterClose)
    | SendCopy
    | SendRequest
    | SendRefresh
    | SendHandler(sfd: int)
    | RecvCopy(reading: bool)
    | RecvHandler(reading: bool)
    | WaitAuto(w: Waiter, timeout: nat)
    | WaitCheck(w: Waiter, timeout: nat, elapsed: nat)
    | WaitOpened(w: Waiter)
    | WaitAutoAgain(w: Waiter)
    | ReadIsOpened
    | ReadRunning
    | ReadRequest
    | ReadIsOpenedNow
    | ReadRunningNow
    | ReadTest
    | RcRunning
    | RcState
    | RcIsOpened
    | RcAuto
    | RcResult(status: ReopenStatus)
    | StopFlag
    | StopReconnect

  datatype Op =
    | DoOpen | DoClose | DoSend | DoRecv | DoStop | DoStopReconnect
    | DoSetAuto(auto: bool)
    | DoSetInterval(interval: nat)   // a derived class may set the wait interval
    | DoTask

  /** timeout is the argument of a waitForReconnect that this step calls. */
  datatype Choice = Choice(op: Op, openOk: bool, newFd: nat, io: IoStatus, timeout: nat)

  /** The members shared by all threads. */
  datatype Shared = Shared(
    open: OpenState,
    fd: int,
    auto: bool,
    stop: bool,
    rc: ReconnectState,
    rcStop: bool,
    interval: nat)

  datatype State = State(sh: Shared, pcs: map<Tid, Pc>)

  const INIT := State(Shared(NotOpen, -1, true, true, NotReconnecting, true, WAIT_INTERVAL), map[])

  function At(s: State, t: Tid): Pc {
    if t in s.pcs then s.pcs[t] else Idle
  }

  /** The shared members and the program counter after a step. */
  datatype Outcome = To(sh: Shared, pc: Pc)

  /** An idle thread starts an operation; only the two tasks run the loops, and each at most once. */
  function Begin(g: Shared, t: Tid, op: Op): Outcome {
    if t == RECONNECT_TASK then
      if op == DoTask then To(g.(rcStop := false), RcRunning) else To(g, Idle)
    else if t == READ_TASK then
      if op == DoTask then To(g.(stop := false), ReadIsOpened) else To(g, Idle)
    else match op
      case DoOpen => To(g, OpenClaim(FromUser))
      case DoClose => To(g, Closing(ToCaller))
      case DoSend => To(g, SendCopy)
      case DoRecv => To(g, RecvCopy(false))
      case DoStop => To(g, StopFlag)
      case DoStopReconnect => To(g, StopReconnect)
      case DoSetAuto(auto) => To(g.(auto := auto), Idle)
      case DoSetInterval(interval) => To(g.(interval := interval), Idle)
      case DoTask => To(g, Idle)
  }

  function Request(rc: ReconnectState): ReconnectState {
    if rc == NotReconnecting then Requested else rc
  }

  function AfterOpen(caller: OpenCaller, status: ReopenStatus): Pc {
    if caller == FromUser then Idle else RcResult(status)
  }

  function AfterClosing(after: AfterClose): Pc {
    match after
    case ToCaller => Idle
    case ToReadError => Closing(ToReadLoop)
    case ToReadLoop => ReadTest
    case ToTaskEnd => Finished
  }

  predicate Connecting(pc: Pc) {
    pc.OpenClaim? || Opener(pc) || pc.Closing?
  }

  /** Between the claim and the commit of open(). */
  predicate Opener(pc: Pc) {
    pc.OpenAssert? || pc.OpenHandler? || pc.OpenCommit?
  }

  /** Steps of open() and close(), the only ones that write m_open or the descriptor. */
  function ConnectionStep(g: Shared, pc: Pc, c: Choice): Outcome
    requires Connecting(pc)
  {
    match pc
    case OpenClaim(caller) =>
      if g.open == NotOpen then To(g.(open := Opening), OpenAssert(caller)) else To(g, AfterOpen(caller, Success))
    case OpenAssert(caller) =>
      To(g, if g.fd == -1 then OpenHandler(caller) else AssertFailed)
    case OpenHandler(caller) =>
      To(g.(fd := if c.openOk then c.newFd else -1), OpenCommit(caller, c.openOk))
    case OpenCommit(caller, ok) =>
      if ok then To(g.(open := Open), AfterOpen(caller, Success))
      else To(g.(open := NotOpen, fd := -1), AfterOpen(caller, OpenFailed))
    case Closing(after) =>
      To(g.(open := NotOpen, fd := -1), AfterClosing(after))
  }

  predicate Transferring(pc: Pc) {
    pc.SendCopy? || pc.SendRequest? || pc.SendRefresh? || pc.SendHandler? || pc.RecvCopy? || pc.RecvHandler?
  }

  /** send() and recv(). */
  function TransferStep(g: Shared, pc: Pc, c: Choice): Outcome
    requires Transferring(pc)
  {
    match pc
    case SendCopy => To(g, if g.fd == -1 then SendRequest else SendHandler(g.fd))
    case SendRequest => To(g.(rc := Request(g.rc)), WaitAuto(Sender, c.timeout))
    case SendRefresh => To(g, SendHandler(g.fd))
    case SendHandler(_) => To(g, if c.io == IoDisconnected then Closing(ToCaller) else Idle)
    case RecvCopy(reading) =>
      To(g, if g.fd != -1 then RecvHandler(reading) else if reading then Closing(ToReadLoop) else Idle)
    case RecvHandler(reading) =>
      // recv() closes on a disconnect, and the read loop then closes on every error
      To(g, if c.io == IoDisconnected then Closing(if reading then ToReadError else ToCaller)
            else if !reading then Idle
            else if c.io == IoOk then ReadTest else Closing(ToReadLoop))
  }

  predicate Waiting(pc: Pc) {
    pc.WaitAuto? || pc.WaitCheck? || pc.WaitOpened? || pc.WaitAutoAgain?
  }

  /** waitForReconnect(). */
  function WaitStep(g: Shared, pc: Pc): Pc
    requires Waiting(pc)
  {
    match pc
    case WaitAuto(w, timeout) => if g.auto then WaitCheck(w, timeout, 0) else WaitDone(w, false, true)
    case WaitCheck(w, timeout, elapsed) =>
      if elapsed < timeout && g.rc != NotReconnecting && !g.rcStop
      then WaitCheck(w, timeout, elapsed + g.interval) else WaitOpened(w)
    case WaitOpened(w) => if g.open == Open then WaitDone(w, true, false) else WaitAutoAgain(w)
    case WaitAutoAgain(w) => WaitDone(w, false, !g.auto)
  }

  /** Where the waiter resumes; a reader leaves its loop only when automatic opening is disabled. */
  function WaitDone(w: Waiter, success: bool, disabled: bool): Pc {
    match w
    case Sender => if success then SendRefresh else Idle
    case Reader => if disabled then Closing(ToTaskEnd) else ReadIsOpenedNow
  }

  predicate Reading(pc: Pc) {
    || pc.ReadIsOpened? || pc.ReadRunning? || pc.ReadRequest? || pc.ReadIsOpenedNow?
    || pc.ReadRunningNow? || pc.ReadTest?
  }

  /** readLoop(). */
  function ReadStep(g: Shared, pc: Pc, c: Choice): Outcome
    requires Reading(pc)
  {
    match pc
    case ReadIsOpened => To(g, if g.open != Open then ReadRunning else ReadIsOpenedNow)
    case ReadRunning => To(g, if !g.stop then ReadRequest else ReadIsOpenedNow)
    case ReadRequest => To(g.(rc := Request(g.rc)), WaitAuto(Reader, c.timeout))
    case ReadIsOpenedNow => To(g, if g.open == Open then ReadRunningNow else ReadTest)
    case ReadRunningNow => To(g, if !g.stop then RecvCopy(true) else ReadTest)
    case ReadTest => To(g, if !g.stop then ReadIsOpened else Closing(ToTaskEnd))
  }

  predicate Controlling(pc: Pc) {
    || pc.RcRunning? || pc.RcState? || pc.RcIsOpened? || pc.RcAuto? || pc.RcResult?
    || pc.StopFlag? || pc.StopReconnect?
  }

  /** reconnectLoop() with reopen() inlined, and stop(). */
  function ControlStep(g: Shared, pc: Pc): Outcome
    requires Controlling(pc)
  {
    match pc
    case RcRunning => To(g, if g.rcStop then Finished else RcState)
    case RcState => if g.rc == NotReconnecting then To(g, RcRunning) else To(g.(rc := InProgress), RcIsOpened)
    case RcIsOpened => To(g, if g.open == Open then RcResult(Success) else RcAuto)
    case RcAuto => To(g, if g.auto then OpenClaim(FromReopen) else RcResult(AutoConnectDisabled))
    case RcResult(status) => To(if status == OpenFailed then g else g.(rc := NotReconnecting), RcRunning)
    case StopFlag => To(g.(stop := true), StopReconnect)
    case StopReconnect => To(g.(rc := NotReconnecting, rcStop := true), Idle)
  }

  function Act(g: Shared, t: Tid, pc: Pc, c: Choice): Outcome {
    if pc.Idle? then Begin(g, t, c.op)
    else if Connecting(pc) then ConnectionStep(g, pc, c)
    else if Transferring(pc) then TransferStep(g, pc, c)
    else if Waiting(pc) then To(g, WaitStep(g, pc))
    else if Reading(pc) then ReadStep(g, pc, c)
    else if Controlling(pc) then ControlStep(g, pc)
    else To(g, pc)
  }

  function Step(s: State, t: Tid, c: Choice): State {
    var out := Act(s.sh, t, At(s, t), c);
    State(out.sh, s.pcs[t := out.pc])
  }

  datatype Event = Event(t: Tid, c: Choice)

  /** The state after the first n steps of an interleaving. */
  function Exec(es: seq<Event>, n: nat): State
    requires n <= |es|
  {
    if n == 0 then INIT else Step(Exec(es, n - 1), es[n - 1].t, es[n - 1].c)
  }

  /** The mover's program counter and the shared members change as Act says; nobody else moves. */
  lemma ExecStep(es: seq<Event>, n: nat)
    requires n < |es|
    ensures var out := Act(Exec(es, n).sh, es[n].t, At(Exec(es, n), es[n].t), es[n].c);
      Exec(es, n + 1).sh == out.sh && At(Exec(es, n + 1), es[n].t) == out.pc
    ensures forall u :: u != es[n].t ==> At(Exec(es, n + 1), u) == At(Exec(es, n), u)
  {
    hide Act;
  }

  lemma ExecMover(es: seq<Event>, n: nat)
    requires n < |es|
    ensures var out := Act(Exec(es, n).sh, es[n].t, At(Exec(es, n), es[n].t), es[n].c);
      Exec(es, n + 1).sh == out.sh && At(Exec(es, n + 1), es[n].t) == out.pc
  {
    hide Act;
  }

  /** A thread that takes no step between i and n stays where it is. */
  lemma {:induction false} Unmoved(es: seq<Event>, i: nat, n: nat, u: Tid)
    requires i <= n <= |es| && forall k :: i <= k < n ==> es[k].t != u
    ensures At(Exec(es, n), u) == At(Exec(es, i), u)
  {
    hide Act, Step, Exec, At;
    if i < n {
      Unmoved(es, i, n - 1, u);
      ExecStep(es, n - 1);
    }
  }

  /** What m steps of one thread with the same choice come to, with nobody else moving. */
  function Solo(g: Shared, t: Tid, pc: Pc, c: Choice, m: nat): Outcome
    decreases m
  {
    if m == 0 then To(g, pc) else
      var out := Act(g, t, pc, c);
      Solo(out.sh, t, out.pc, c, m - 1)
  }

  /** None of these steps is a close() that lands in OPENING. */
  predicate SoloHarmless(g: Shared, t: Tid, pc: Pc, c: Choice, m: nat)
    decreases m
  {
    m == 0 ||
    var out := Act(g, t, pc, c);
    !(pc.Closing? && g.open == Opening) && SoloHarmless(out.sh, t, out.pc, c, m - 1)
  }

  lemma {:induction false} SoloRun(es: seq<Event>, i: nat, m: nat, e: Event, g: Shared, pc: Pc)
    requires i + m <= |es| && (forall k :: i <= k < i + m ==> es[k] == e)
    requires Exec(es, i).sh == g && At(Exec(es, i), e.t) == pc
    ensures Exec(es, i + m).sh == Solo(g, e.t, pc, e.c, m).sh
    ensures At(Exec(es, i + m), e.t) == Solo(g, e.t, pc, e.c, m).pc
    ensures forall u :: u != e.t ==> At(Exec(es, i + m), u) == At(Exec(es, i), u)
    ensures SoloHarmless(g, e.t, pc, e.c, m) ==> forall k :: i <= k < i + m ==> !CloseHitsOpening(Exec(es, k), es[k].t)
    decreases m
  {
    hide Act, Exec, At, Step;
    if m > 0 {
      var out := Act(g, e.t, pc, e.c);
      ExecStep(es, i);
      SoloRun(es, i + 1, m - 1, e, out.sh, out.pc);
    }
  }

  // ------------------------------------------------------------------ the connection invariant

  /** What a caller relies on: one opener at a time, no failed assert, and OPEN exactly when the
      descriptor is usable, except while an open is under way. */
  ghost predicate Safe(s: State) {
    && (forall t, u :: Opener(At(s, t)) && Opener(At(s, u)) ==> t == u)
    && (forall t :: At(s, t) != AssertFailed)
    && (s.sh.open != Opening ==> (s.sh.open == Open <==> s.sh.fd != -1))
  }

  predicate FdMatches(pc: Pc, fd: int) {
    match pc
    case OpenAssert(_) => fd == -1
    case OpenHandler(_) => fd == -1
    case OpenCommit(_, ok) => ok <==> fd != -1
    case _ => true
  }

  /** The inductive strengthening: OPENING exactly while one thread is inside open(). */
  ghost predicate Inv(s: State) {
    && Safe(s)
    && (forall t :: Opener(At(s, t)) ==> s.sh.open == Opening && FdMatches(At(s, t), s.sh.fd))
    && (s.sh.open == Opening ==> exists t :: Opener(At(s, t)))
  }

  predicate CloseHitsOpening(s: State, t: Tid) {
    At(s, t).Closing? && s.sh.open == Opening
  }

  /** The outcome leaves m_open and the descriptor alone and makes nobody an opener. */
  predicate Neutral(g: Shared, pc: Pc, out: Outcome) {
    out.sh.open == g.open && out.sh.fd == g.fd && !Opener(out.pc) && (out.pc == AssertFailed ==> pc == AssertFailed)
  }

  lemma BeginIsNeutral(g: Shared, t: Tid, op: Op)
    ensures Neutral(g, Idle, Begin(g, t, op))
  {
  }

  lemma TransferIsNeutral(g: Shared, pc: Pc, c: Choice)
    requires Transferring(pc)
    ensures Neutral(g, pc, TransferStep(g, pc, c))
  {
  }

  lemma WaitIsNeutral(g: Shared, pc: Pc)
    requires Waiting(pc)
    ensures Neutral(g, pc, To(g, WaitStep(g, pc)))
  {
  }

  lemma ReadIsNeutral(g: Shared, pc: Pc, c: Choice)
    requires Reading(pc)
    ensures Neutral(g, pc, ReadStep(g, pc, c))
  {
  }

  lemma ControlIsNeutral(g: Shared, pc: Pc)
    requires Controlling(pc)
    ensures Neutral(g, pc, ControlStep(g, pc))
  {
  }

  /** Only open() and close() touch the connection. */
  lemma OtherStepsAreNeutral(g: Shared, t: Tid, pc: Pc, c: Choice)
    requires !Connecting(pc)
    ensures Neutral(g, pc, Act(g, t, pc, c))
  {
    hide Begin, TransferStep, WaitStep, ReadStep, ControlStep, Neutral;
    if pc.Idle? {
      BeginIsNeutral(g, t, c.op);
    } else if Transferring(pc) {
      TransferIsNeutral(g, pc, c);
    } else if Waiting(pc) {
      WaitIsNeutral(g, pc);
    } else if Reading(pc) {
      ReadIsNeutral(g, pc, c);
    } else if Controlling(pc) {
      ControlIsNeutral(g, pc);
    } else {
      StayingIsNeutral(g, pc);
    }
  }

  lemma StayingIsNeutral(g: Shared, pc: Pc)
    requires !Opener(pc)
    ensures Neutral(g, pc, To(g, pc))
  {
  }

  lemma NeutralStepKeepsInv(s: State, t: Tid, s': State)
    requires Inv(s) && s'.sh.open == s.sh.open && s'.sh.fd == s.sh.fd
    requires s'.pcs == s.pcs[t := At(s', t)] && !Opener(At(s, t)) && !Opener(At(s', t)) && At(s', t) != AssertFailed
    ensures Inv(s')
  {
    assert forall u :: u != t ==> At(s', u) == At(s, u);
    if s.sh.open == Opening {
      var u :| Opener(At(s, u));
      assert Opener(At(s', u));
    }
  }

  lemma ConnectionStepKeepsInv(s: State, t: Tid, c: Choice)
    requires Inv(s) && Connecting(At(s, t)) && !CloseHitsOpening(s, t)
    ensures Inv(Step(s, t, c))
  {
    var s' := Step(s, t, c);
    assert Act(s.sh, t, At(s, t), c) == ConnectionStep(s.sh, At(s, t), c);
    assert forall u :: u != t ==> At(s', u) == At(s, u);
    assert At(s', t) == s'.pcs[t];
    if At(s, t).OpenClaim? && s.sh.open == Opening {
      NeutralStepKeepsInv(s, t, s');
    }
  }

  lemma StepKeepsInv(s: State, t: Tid, c: Choice)
    requires Inv(s) && !CloseHitsOpening(s, t)
    ensures Inv(Step(s, t, c))
  {
    hide Act;
    if Connecting(At(s, t)) {
      ConnectionStepKeepsInv(s, t, c);
    } else {
      OtherStepsAreNeutral(s.sh, t, At(s, t), c);
      NeutralStepKeepsInv(s, t, Step(s, t, c));
    }
  }

  /** No close() lands while m_open is OPENING during the first n steps. */
  ghost predicate NoCloseWhileOpening(es: seq<Event>, n: nat)
    requires n <= |es|
  {
    forall k :: 0 <= k < n ==> !CloseHitsOpening(Exec(es, k), es[k].t)
  }

  /** Every interleaving of any number of threads without such a close. */
  lemma {:induction false} RunsAreSafe(es: seq<Event>, n: nat)
    requires n <= |es| && NoCloseWhileOpening(es, n)
    ensures Inv(Exec(es, n)) && Safe(Exec(es, n))
  {
    hide Step;
    if n == 0 {
      assert forall t :: At(INIT, t) == Idle;
    } else {
      RunsAreSafe(es, n - 1);
      StepKeepsInv(Exec(es, n - 1), es[n - 1].t, es[n - 1].c);
    }
  }

  // ------------------------------------------------------------------ the hypothesis is exact

  const OPEN_CALL := Choice(DoOpen, false, 0, IoOk, 0)

  /** A caller t enters open() and runs its first lock scope. */
  function OpenBy(s: State, t: Tid): State {
    Step(Step(s, t, OPEN_CALL), t, OPEN_CALL)
  }

  /** The run is safe at each point, also when one more caller enters open() there. */
  ghost predicate SafeForCallers(es: seq<Event>) {
    forall k, t :: 0 <= k <= |es| && t > READ_TASK && At(Exec(es, k), t) == Idle ==>
      Safe(Exec(es, k)) && Safe(OpenBy(Exec(es, k), t))
  }

  lemma FreshAbove(keys: set<Tid>, low: nat) returns (t: Tid)
    ensures t >= low && t !in keys
    decreases |keys|
  {
    if low !in keys { return low; }
    assert |keys - {low}| == |keys| - 1;
    t := FreshAbove(keys - {low}, low + 1);
  }

  /** After a close() that lands in OPENING, the next caller of open() is a second opener. */
  lemma CloseAdmitsSecondOpener(s: State, t: Tid, c: Choice) returns (u: Tid)
    requires Inv(s) && CloseHitsOpening(s, t)
    ensures u > READ_TASK && At(Step(s, t, c), u) == Idle && !Safe(OpenBy(Step(s, t, c), u))
  {
    var s1 := Step(s, t, c);
    u := FreshAbove(s1.pcs.Keys, 2);
    var o :| Opener(At(s, o));
    var s2 := OpenBy(s1, u);
    assert At(s1, o) == At(s, o);
    assert At(Step(s1, u, OPEN_CALL), u) == OpenClaim(FromUser);
    assert At(s2, o) == At(s, o) && At(s2, u) == OpenAssert(FromUser) && o != u;
  }

  lemma SafeStateAdmitsCaller(s: State, t: Tid)
    requires Inv(s) && t > READ_TASK && At(s, t) == Idle
    ensures Safe(OpenBy(s, t))
  {
    StepKeepsInv(s, t, OPEN_CALL);
    assert At(Step(s, t, OPEN_CALL), t) == OpenClaim(FromUser);
    StepKeepsInv(Step(s, t, OPEN_CALL), t, OPEN_CALL);
  }

  /** The hypothesis of RunsAreSafe cannot be weakened: it holds of a run exactly when the run is safe
      for every caller that might enter open() along it. */
  lemma SafeExactlyWithoutSuchClose(es: seq<Event>)
    ensures NoCloseWhileOpening(es, |es|) <==> SafeForCallers(es)
  {
    hide Safe, Inv, Step, OpenBy;
    if NoCloseWhileOpening(es, |es|) {
      forall k, t | 0 <= k <= |es| && t > READ_TASK && At(Exec(es, k), t) == Idle
        ensures Safe(Exec(es, k)) && Safe(OpenBy(Exec(es, k), t))
      {
        RunsAreSafe(es, k);
        SafeStateAdmitsCaller(Exec(es, k), t);
      }
    } else {
      var k := FirstBadClose(es, |es|);
      RunsAreSafe(es, k);
      var u := CloseAdmitsSecondOpener(Exec(es, k), es[k].t, es[k].c);
      assert !Safe(OpenBy(Exec(es, k + 1), u)) && At(Exec(es, k + 1), u) == Idle;
    }
  }

  lemma FirstBadClose(es: seq<Event>, n: nat) returns (k: nat)
    requires n <= |es| && !NoCloseWhileOpening(es, n)
    ensures k < n && NoCloseWhileOpening(es, k) && CloseHitsOpening(Exec(es, k), es[k].t)
  {
    hide Exec, CloseHitsOpening;
    if NoCloseWhileOpening(es, n - 1) {
      k := n - 1;
    } else {
      k := FirstBadClose(es, n - 1);
    }
  }

  /** Such a close needs no caller of close(): a send() that copies the descriptor after the handler
      wrote it, but before open() commits, closes on a disconnect.  OPEN with no descriptor results. */
  lemma SenderClosesWhileOpening()
    ensures exists es: seq<Event> ::
      && (forall e <- es :: e.c.op == DoOpen || e.c.op == DoSend)
      && Exec(es, |es|).sh.open == Open && Exec(es, |es|).sh.fd == -1
  {
    hide Exec;
    var open := Event(2, Choice(DoOpen, true, 7, IoOk, 0));
    var send := Event(3, Choice(DoSend, true, 7, IoDisconnected, WAIT_TIMEOUT));
    var es := [open, open, open, open, send, send, send, send, open];
    OpenerIsInside(es, open);
    SenderClosesThen(es, open, send);
  }

  lemma OpenerIsInside(es: seq<Event>, open: Event)
    requires |es| == 9 && open == Event(2, Choice(DoOpen, true, 7, IoOk, 0)) && forall k :: 0 <= k < 4 ==> es[k] == open
    ensures Exec(es, 4).sh == INIT.sh.(open := Opening, fd := 7)
    ensures At(Exec(es, 4), 2) == OpenCommit(FromUser, true) && At(Exec(es, 4), 3) == Idle
  {
    hide Exec, Act, At;
    RunStart(es);
    OpenerActs(INIT.sh, 2, open.c);
    SoloRun(es, 0, 4, open, INIT.sh, Idle);
    assert At(Exec(es, 4), 3) == At(Exec(es, 0), 3);
  }

  lemma SenderClosesThen(es: seq<Event>, open: Event, send: Event)
    requires |es| == 9 && open == Event(2, Choice(DoOpen, true, 7, IoOk, 0)) && es[8] == open
    requires send == Event(3, Choice(DoSend, true, 7, IoDisconnected, WAIT_TIMEOUT))
    requires forall k :: 4 <= k < 8 ==> es[k] == send
    requires Exec(es, 4).sh == INIT.sh.(open := Opening, fd := 7)
    requires At(Exec(es, 4), 2) == OpenCommit(FromUser, true) && At(Exec(es, 4), 3) == Idle
    ensures Exec(es, 9).sh.open == Open && Exec(es, 9).sh.fd == -1
  {
    hide Exec, Act, At;
    var g := INIT.sh.(open := Opening, fd := 7);
    DisconnectedActs(g, 3, send.c);
    SoloRun(es, 4, 4, send, g, Idle);
    OpenerCommits(INIT.sh, 2, open.c);
    SoloRun(es, 8, 1, open, INIT.sh, OpenCommit(FromUser, true));
  }

  lemma RunStart(es: seq<Event>)
    ensures Exec(es, 0) == INIT && forall t :: At(Exec(es, 0), t) == Idle
  {
  }

  /** A caller of open(), with nobody else opening and a connect that succeeds. */
  lemma OpenerActs(g: Shared, t: Tid, c: Choice)
    requires t > READ_TASK && c.op == DoOpen && c.openOk && g.open == NotOpen && g.fd == -1
    ensures Solo(g, t, Idle, c, 4) == To(g.(open := Opening, fd := c.newFd), OpenCommit(FromUser, true))
    ensures SoloHarmless(g, t, Idle, c, 4)
  {
    var g1 := g.(open := Opening);
    assert Act(g, t, Idle, c) == To(g, OpenClaim(FromUser));
    assert Act(g, t, OpenClaim(FromUser), c) == To(g1, OpenAssert(FromUser));
    assert Act(g1, t, OpenAssert(FromUser), c) == To(g1, OpenHandler(FromUser));
    assert Act(g1, t, OpenHandler(FromUser), c) == To(g1.(fd := c.newFd), OpenCommit(FromUser, true));
  }

  lemma OpenerCommits(g: Shared, t: Tid, c: Choice)
    ensures Solo(g, t, OpenCommit(FromUser, true), c, 1) == To(g.(open := Open), Idle)
    ensures SoloHarmless(g, t, OpenCommit(FromUser, true), c, 1)
  {
    assert Act(g, t, OpenCommit(FromUser, true), c) == To(g.(open := Open), Idle);
  }

  /** A caller of send() that finds a descriptor there and the peer gone. */
  lemma DisconnectedActs(g: Shared, t: Tid, c: Choice)
    requires t > READ_TASK && c.op == DoSend && c.io == IoDisconnected && g.fd != -1
    ensures Solo(g, t, Idle, c, 4) == To(g.(open := NotOpen, fd := -1), Idle)
  {
    assert Act(g, t, Idle, c) == To(g, SendCopy);
    assert Act(g, t, SendCopy, c) == To(g, SendHandler(g.fd));
    assert Act(g, t, SendHandler(g.fd), c) == To(g, Closing(ToCaller));
    assert Act(g, t, Closing(ToCaller), c) == To(g.(open := NotOpen, fd := -1), Idle);
  }

  /** A caller of send() that finds none, up to its wait. */
  lemma SenderActs(g: Shared, t: Tid, c: Choice)
    requires t > READ_TASK && c.op == DoSend && g.fd == -1 && g.rc == NotReconnecting && g.auto
    ensures Solo(g, t, Idle, c, 4) == To(g.(rc := Requested), WaitCheck(Sender, c.timeout, 0))
    ensures SoloHarmless(g, t, Idle, c, 4)
  {
    var g1 := g.(rc := Requested);
    assert Act(g, t, Idle, c) == To(g, SendCopy);
    assert Act(g, t, SendCopy, c) == To(g, SendRequest);
    assert Act(g, t, SendRequest, c) == To(g1, WaitAuto(Sender, c.timeout));
    assert Act(g1, t, WaitAuto(Sender, c.timeout), c) == To(g1, WaitCheck(Sender, c.timeout, 0));
  }

  // ------------------------------------------------------------------ reconnect requests

  /** Program counters of the reconnect loop and of reopen(). */
  predicate TaskPc(pc: Pc) {
    || pc.RcRunning? || pc.RcState? || pc.RcIsOpened? || pc.RcAuto? || pc.RcResult?
    || ((pc.OpenClaim? || Opener(pc)) && pc.caller == FromReopen)
  }

  /** Transfers, waits and the read loop never lead there. */
  lemma OtherLoops(g: Shared, t: Tid, pc: Pc, c: Choice)
    requires Transferring(pc) || Waiting(pc) || Reading(pc)
    ensures !TaskPc(Act(g, t, pc, c).pc)
  {
    if Waiting(pc) {
      hide TransferStep, ReadStep, ControlStep, ConnectionStep, Begin;
      assert Act(g, t, pc, c).pc == WaitStep(g, pc);
    } else if Reading(pc) {
      hide TransferStep, WaitStep, ControlStep, ConnectionStep, Begin;
      assert Act(g, t, pc, c) == ReadStep(g, pc, c);
    } else {
      hide ReadStep, WaitStep, ControlStep, ConnectionStep, Begin;
      assert Act(g, t, pc, c) == TransferStep(g, pc, c);
    }
  }

  lemma TaskPcStays(g: Shared, t: Tid, pc: Pc, c: Choice)
    requires TaskPc(Act(g, t, pc, c).pc)
    ensures TaskPc(pc) || t == RECONNECT_TASK
  {
    hide TransferStep, WaitStep, ReadStep;
    if Transferring(pc) || Waiting(pc) || Reading(pc) {
      OtherLoops(g, t, pc, c);
    }
  }

  /** They occur only on the reconnect task. */
  lemma {:induction false} OnlyTaskReopens(es: seq<Event>, n: nat, t: Tid)
    requires n <= |es| && TaskPc(At(Exec(es, n), t))
    ensures t == RECONNECT_TASK
  {
    hide Step, Act;
    if n == 0 {
      assert false;
    } else {
      ExecStep(es, n - 1);
      if es[n - 1].t == t {
        TaskPcStays(Exec(es, n - 1).sh, t, At(Exec(es, n - 1), t), es[n - 1].c);
      }
      if t != RECONNECT_TASK {
        OnlyTaskReopens(es, n - 1, t);
      }
    }
  }

  /** Inside one call of reopen(), from its isOpened() check to the use of its status. */
  predicate InReopen(pc: Pc) {
    TaskPc(pc) && !pc.RcRunning? && !pc.RcState?
  }

  predicate Pending(s: State) {
    s.sh.rc != NotReconnecting
  }

  /** What reopen() must have met to return this status. */
  predicate Justifies(status: ReopenStatus, g: Shared) {
    match status
    case Success => g.open != NotOpen
    case AutoConnectDisabled => !g.auto
    case OpenFailed => true
  }

  /** The reopen() call under way after n steps began at step j with a request pending, and if it has
      returned, step k lies within it and justifies the status. */
  ghost predicate Window(es: seq<Event>, n: nat, j: nat, k: nat)
    requires n <= |es|
  {
    && j <= k <= n
    && At(Exec(es, j), RECONNECT_TASK) == RcIsOpened && Exec(es, j).sh.rc == InProgress
    && (forall i :: j <= i <= n ==> InReopen(At(Exec(es, i), RECONNECT_TASK)))
    && var pc := At(Exec(es, n), RECONNECT_TASK);
       pc.RcResult? ==> Justifies(pc.status, Exec(es, k).sh)
  }

  lemma ReopenStep(g: Shared, pc: Pc, c: Choice)
    requires InReopen(Act(g, RECONNECT_TASK, pc, c).pc)
    ensures var out := Act(g, RECONNECT_TASK, pc, c);
      || (pc == RcState && out.pc == RcIsOpened && out.sh.rc == InProgress)
      || (&& InReopen(pc)
          && (out.pc.RcResult? ==> Justifies(out.pc.status, if pc.OpenCommit? then out.sh else g)))
  {
    hide TransferStep, WaitStep, ReadStep;
    if Transferring(pc) || Waiting(pc) || Reading(pc) {
      OtherLoops(g, RECONNECT_TASK, pc, c);
    }
  }

  lemma {:induction false} ReopenWindow(es: seq<Event>, n: nat) returns (j: nat, k: nat)
    requires n <= |es| && InReopen(At(Exec(es, n), RECONNECT_TASK))
    ensures Window(es, n, j, k)
  {
    hide Step, Act, Justifies;
    if n == 0 {
      assert false;
    } else {
      var pc := At(Exec(es, n - 1), RECONNECT_TASK);
      ExecStep(es, n - 1);
      if es[n - 1].t != RECONNECT_TASK {
        j, k := ReopenWindow(es, n - 1);
      } else {
        ReopenStep(Exec(es, n - 1).sh, pc, es[n - 1].c);
        if pc == RcState {
          j, k := n, n;
        } else {
          j, k := ReopenWindow(es, n - 1);
          k := if pc.OpenCommit? then n else n - 1;
        }
      }
    }
  }

  lemma WithdrawingStep(g: Shared, t: Tid, pc: Pc, c: Choice)
    requires g.rc != NotReconnecting && Act(g, t, pc, c).sh.rc == NotReconnecting
    ensures pc == StopReconnect || (pc.RcResult? && pc.status != OpenFailed)
  {
    if !Controlling(pc) {
      hide ControlStep, WaitStep, AfterOpen, AfterClosing, WaitDone;
      if Transferring(pc) {
        hide ConnectionStep, ReadStep, Begin;
      } else if Reading(pc) {
        hide ConnectionStep, TransferStep, Begin;
      } else {
        hide TransferStep, ReadStep;
      }
    } else {
      hide ConnectionStep, TransferStep, WaitStep, ReadStep, Begin;
    }
  }

  /** A pending request is withdrawn only by stopReconnect() or at the end of a reopen() that began while
      the request was pending: one that succeeded and met, while it ran, a socket open or being opened, or
      one that found automatic opening switched off. */
  lemma RequestWithdrawnOnlyFor(es: seq<Event>, n: nat) returns (j: nat, k: nat)
    requires n < |es| && Pending(Exec(es, n)) && !Pending(Exec(es, n + 1))
    ensures
      || At(Exec(es, n), es[n].t) == StopReconnect
      || (&& es[n].t == RECONNECT_TASK && Window(es, n, j, k)
          && var pc := At(Exec(es, n), RECONNECT_TASK);
             || (pc == RcResult(Success) && Exec(es, k).sh.open != NotOpen)
             || (pc == RcResult(AutoConnectDisabled) && !Exec(es, k).sh.auto))
  {
    hide Step, Act;
    j, k := 0, 0;
    ExecStep(es, n);
    WithdrawingStep(Exec(es, n).sh, es[n].t, At(Exec(es, n), es[n].t), es[n].c);
    if At(Exec(es, n), es[n].t) != StopReconnect {
      OnlyTaskReopens(es, n, es[n].t);
      j, k := ReopenWindow(es, n);
    }
  }

  // ------------------------------------------------------------------ bounded waiting

  /** Polls left before the timeout, when each adds at least this interval. */
  function PollsLeft(left: nat, interval: nat): nat
    requires interval > 0 || left == 0
  {
    if left == 0 then 0 else CeilDiv(left, interval)
  }

  /** This wait, at its start or while it polls, has this timeout. */
  predicate HasTimeout(pc: Pc, timeout: nat) {
    pc.WaitAuto? || pc.WaitCheck? ==> pc.timeout == timeout
  }

  /** Own steps a waiter can still take. */
  function WaitRank(pc: Pc, timeout: nat, interval: nat): nat
    requires interval > 0 || timeout == 0
  {
    match pc
    case WaitAuto(_, _) => PollsLeft(timeout, interval) + 4
    case WaitCheck(_, _, e) => PollsLeft(if e < timeout then timeout - e else 0, interval) + 3
    case WaitOpened(_) => 2
    case WaitAutoAgain(_) => 1
    case _ => 0
  }

  /** Steps of thread t among steps i .. n - 1. */
  function OwnSteps(es: seq<Event>, i: nat, n: nat, t: Tid): nat
    requires i <= n <= |es|
  {
    if i == n then 0 else OwnSteps(es, i, n - 1, t) + if es[n - 1].t == t then 1 else 0
  }

  /** Thread t is inside one wait from step i to step n, and meanwhile the interval is never smaller. */
  ghost predicate WaitsThroughout(es: seq<Event>, i: nat, n: nat, t: Tid, interval: nat)
    requires i <= n <= |es|
  {
    forall k :: i <= k <= n ==> Waiting(At(Exec(es, k), t)) && Exec(es, k).sh.interval >= interval
  }

  /** A poll uses up at least one interval. */
  lemma PollCounts(left: nat, step: nat, interval: nat)
    requires left > 0 && 0 < interval <= step
    ensures PollsLeft(if left > step then left - step else 0, interval) < PollsLeft(left, interval)
  {
    if left > step {
      CeilDivDrops(left, interval);
      CeilDivMono(left - step, left - interval, interval);
    } else {
      CeilDivMono(1, left, interval);
      QuotientUnique(interval, interval, 1);
    }
  }

  lemma WaitingStep(g: Shared, t: Tid, pc: Pc, c: Choice, timeout: nat, interval: nat)
    requires Waiting(pc) && HasTimeout(pc, timeout) && g.interval >= interval && (interval > 0 || timeout == 0)
    ensures WaitRank(Act(g, t, pc, c).pc, timeout, interval) < WaitRank(pc, timeout, interval)
    ensures HasTimeout(Act(g, t, pc, c).pc, timeout)
  {
    assert Act(g, t, pc, c).pc == WaitStep(g, pc);
    hide PollsLeft, Act;
    if pc.WaitCheck? && pc.elapsed < timeout {
      PollCounts(timeout - pc.elapsed, g.interval, interval);
    }
  }

  lemma {:induction false} RankDropsPerOwnStep(es: seq<Event>, i: nat, n: nat, t: Tid, timeout: nat, interval: nat)
    requires i <= n <= |es| && WaitsThroughout(es, i, n, t, interval)
    requires HasTimeout(At(Exec(es, i), t), timeout) && (interval > 0 || timeout == 0)
    ensures HasTimeout(At(Exec(es, n), t), timeout)
    ensures OwnSteps(es, i, n, t) + WaitRank(At(Exec(es, n), t), timeout, interval)
         <= WaitRank(At(Exec(es, i), t), timeout, interval)
  {
    hide WaitRank, Act, Step, Exec, HasTimeout;
    if i < n {
      RankDropsPerOwnStep(es, i, n - 1, t, timeout, interval);
      ExecStep(es, n - 1);
      if es[n - 1].t == t {
        WaitingStep(Exec(es, n - 1).sh, t, At(Exec(es, n - 1), t), es[n - 1].c, timeout, interval);
      }
    }
  }

  /** Whatever the other threads do, and for every timeout and interval, one wait takes at most
      ceil(timeout / interval) polls of the reconnect state and fewer than five further steps. */
  lemma {:induction false} WaitIsBounded(es: seq<Event>, i: nat, n: nat, t: Tid, timeout: nat, interval: nat)
    requires i <= n <= |es| && WaitsThroughout(es, i, n, t, interval)
    requires HasTimeout(At(Exec(es, i), t), timeout) && (interval > 0 || timeout == 0)
    ensures OwnSteps(es, i, n, t) < (if timeout == 0 then 0 else CeilDiv(timeout, interval)) + 4
  {
    hide Exec, PollsLeft;
    RankDropsPerOwnStep(es, i, n, t, timeout, interval);
    var pc := At(Exec(es, i), t);
    assert Waiting(pc) && Waiting(At(Exec(es, n), t));
    if pc.WaitCheck? && pc.elapsed < timeout {
      PollsGrow(timeout - pc.elapsed, timeout, interval);
    }
    PollsOfAll(timeout, interval);
  }

  /** With the default timeout of a second, while the interval is not set below its default of ten milliseconds. */
  lemma DefaultWaitIsBounded(es: seq<Event>, i: nat, n: nat, t: Tid)
    requires i <= n <= |es| && WaitsThroughout(es, i, n, t, WAIT_INTERVAL)
    requires HasTimeout(At(Exec(es, i), t), WAIT_TIMEOUT)
    ensures OwnSteps(es, i, n, t) < 104
  {
    hide Exec, WaitsThroughout, HasTimeout, OwnSteps;
    WaitIsBounded(es, i, n, t, WAIT_TIMEOUT, WAIT_INTERVAL);
  }

  lemma PollsGrow(a: nat, b: nat, interval: nat)
    requires a <= b && interval > 0
    ensures PollsLeft(a, interval) <= PollsLeft(b, interval)
  {
    CeilDivMono(a, b, interval);
  }

  lemma PollsOfAll(timeout: nat, interval: nat)
    requires interval > 0 || timeout == 0
    ensures PollsLeft(timeout, interval) == if timeout == 0 then 0 else CeilDiv(timeout, interval)
    ensures PollsLeft(0, interval) == 0
  {
  }

  /** Every wait with this timeout ends within this many own steps, if the interval is never smaller. */
  ghost predicate WaitsEndWithin(timeout: nat, interval: nat, steps: nat) {
    forall es: seq<Event>, i: nat, n: nat, t: Tid ::
      i <= n <= |es| && WaitsThroughout(es, i, n, t, interval) && HasTimeout(At(Exec(es, i), t), timeout) ==>
        OwnSteps(es, i, n, t) <= steps
  }

  /** A positive interval is the exact condition: with interval 0 and any positive timeout a sender polls
      for ever while the request it made is pending and the reconnect task lives but does not move. */
  lemma WaitEndsExactly(timeout: nat, interval: nat)
    ensures (exists steps :: WaitsEndWithin(timeout, interval, steps)) <==> interval > 0 || timeout == 0
  {
    hide Exec, WaitsThroughout, HasTimeout, OwnSteps;
    if interval > 0 || timeout == 0 {
      var steps := (if timeout == 0 then 0 else CeilDiv(timeout, interval)) + 4;
      forall es: seq<Event>, i: nat, n: nat, t: Tid
        | i <= n <= |es| && WaitsThroughout(es, i, n, t, interval) && HasTimeout(At(Exec(es, i), t), timeout)
        ensures OwnSteps(es, i, n, t) <= steps
      {
        WaitIsBounded(es, i, n, t, timeout, interval);
      }
      assert WaitsEndWithin(timeout, interval, steps);
    } else {
      forall steps: nat ensures !WaitsEndWithin(timeout, interval, steps) {
        var es := EndlessWait(timeout, steps + 1);
        assert OwnSteps(es, 6, |es|, 2) > steps;
      }
    }
  }

  /** A run in which thread 2 polls this many times without getting on. */
  lemma EndlessWait(timeout: nat, polls: nat) returns (es: seq<Event>)
    requires timeout > 0
    ensures |es| == polls + 6 && WaitsThroughout(es, 6, |es|, 2, 0)
    ensures HasTimeout(At(Exec(es, 6), 2), timeout) && OwnSteps(es, 6, |es|, 2) == polls
  {
    hide Exec;
    var task := Event(RECONNECT_TASK, Choice(DoTask, false, 0, IoOk, 0));
    var zero := Event(2, Choice(DoSetInterval(0), false, 0, IoOk, 0));
    var send := Event(2, Choice(DoSend, false, 0, IoOk, timeout));
    es := [task, zero] + seq(polls + 4, _ => send);
    forall k | 6 <= k <= |es| ensures At(Exec(es, k), 2) == WaitCheck(Sender, timeout, 0) {
      StillPolling(es, timeout, k);
    }
    AllOwn(es, 6, |es|);
  }

  ghost predicate PollingRun(es: seq<Event>, timeout: nat) {
    && |es| >= 6
    && es[0] == Event(RECONNECT_TASK, Choice(DoTask, false, 0, IoOk, 0))
    && es[1] == Event(2, Choice(DoSetInterval(0), false, 0, IoOk, 0))
    && forall k :: 2 <= k < |es| ==> es[k] == Event(2, Choice(DoSend, false, 0, IoOk, timeout))
  }

  lemma {:induction false} StillPolling(es: seq<Event>, timeout: nat, n: nat)
    requires PollingRun(es, timeout) && timeout > 0 && 6 <= n <= |es|
    ensures At(Exec(es, n), 2) == WaitCheck(Sender, timeout, 0)
    ensures Exec(es, n).sh == INIT.sh.(rcStop := false, interval := 0, rc := Requested)
  {
    hide Step, Exec, At;
    if n == 6 {
      var g := INIT.sh.(rcStop := false, interval := 0);
      TaskStarted(es, timeout);
      SenderActs(g, 2, es[2].c);
      hide Act;
      SoloRun(es, 2, 4, es[2], g, Idle);
    } else {
      StillPolling(es, timeout, n - 1);
      ExecMover(es, n - 1);
    }
  }

  lemma TaskStarted(es: seq<Event>, timeout: nat)
    requires PollingRun(es, timeout)
    ensures At(Exec(es, 2), 2) == Idle && Exec(es, 2).sh == INIT.sh.(rcStop := false, interval := 0)
  {
    hide Step, Exec, At;
    RunStart(es);
    ExecMover(es, 0);
    Unmoved(es, 0, 1, 2);
    ExecMover(es, 1);
  }

  lemma {:induction false} AllOwn(es: seq<Event>, i: nat, n: nat)
    requires i <= n <= |es| && forall k :: i <= k < n ==> es[k].t == 2
    ensures OwnSteps(es, i, n, 2) == n - i
  {
    if i < n {
      AllOwn(es, i, n - 1);
    }
  }

  lemma WaitSucceeds(g: Shared, t: Tid, pc: Pc, c: Choice)
    requires Act(g, t, pc, c).pc == SendRefresh
    ensures pc == WaitOpened(Sender) && g.open == Open
  {
  }

  /** A sender goes on after its wait only if the socket was OPEN at the wait's own check. */
  lemma {:induction false} SenderSawOpen(es: seq<Event>, n: nat, t: Tid) returns (k: nat)
    requires n <= |es| && At(Exec(es, n), t) == SendRefresh
    ensures k < n && es[k].t == t && At(Exec(es, k), t) == WaitOpened(Sender) && Exec(es, k).sh.open == Open
    ensures forall i :: k < i < n ==> es[i].t != t
  {
    hide Act;
    if n == 0 {
      assert false;
    } else {
      ExecStep(es, n - 1);
      if es[n - 1].t == t {
        k := n - 1;
        WaitSucceeds(Exec(es, k).sh, t, At(Exec(es, k), t), es[k].c);
      } else {
        k := SenderSawOpen(es, n - 1, t);
      }
    }
  }

  // ------------------------------------------------------------------ sending on a closed socket

  /** Step i is a handler's successful open. */
  predicate Connects(es: seq<Event>, i: nat)
    requires i < |es|
  {
    At(Exec(es, i), es[i].t).OpenHandler? && es[i].c.openOk
  }

  /** A close() landed between steps k and n and no successful open came after it. */
  ghost predicate ClosedSince(es: seq<Event>, k: nat, n: nat)
    requires n <= |es|
  {
    exists j :: k < j < n && At(Exec(es, j), es[j].t).Closing? && forall i :: j < i < n ==> !Connects(es, i)
  }

  lemma ClosedSinceStep(es: seq<Event>, k: nat, n: nat)
    requires k < n < |es|
    ensures ClosedSince(es, k, n + 1) <==>
      At(Exec(es, n), es[n].t).Closing? || (ClosedSince(es, k, n) && !Connects(es, n))
  {
    hide Exec, Connects;
    if ClosedSince(es, k, n + 1) && !At(Exec(es, n), es[n].t).Closing? {
      var j :| k < j < n + 1 && At(Exec(es, j), es[j].t).Closing? && forall i :: j < i < n + 1 ==> !Connects(es, i);
      assert ClosedSince(es, k, n) && !Connects(es, n);
    }
    if ClosedSince(es, k, n) && !Connects(es, n) {
      var j :| k < j < n && At(Exec(es, j), es[j].t).Closing? && forall i :: j < i < n ==> !Connects(es, i);
      assert ClosedSince(es, k, n + 1);
    }
    if At(Exec(es, n), es[n].t).Closing? {
      assert ClosedSince(es, k, n + 1);
    }
  }

  /** The descriptor goes by a close() and comes by a successful open, and in no other way. */
  lemma DescriptorStep(s: State, t: Tid, c: Choice)
    requires Inv(s) && !CloseHitsOpening(s, t)
    ensures Step(s, t, c).sh.fd == -1 <==>
      At(s, t).Closing? || (s.sh.fd == -1 && !(At(s, t).OpenHandler? && c.openOk))
  {
    if Connecting(At(s, t)) {
      assert Act(s.sh, t, At(s, t), c) == ConnectionStep(s.sh, At(s, t), c);
      assert FdMatches(At(s, t), s.sh.fd);
    } else {
      hide Act;
      OtherStepsAreNeutral(s.sh, t, At(s, t), c);
    }
  }

  lemma ExecIsStep(es: seq<Event>, n: nat)
    requires n < |es|
    ensures Exec(es, n + 1) == Step(Exec(es, n), es[n].t, es[n].c)
  {
  }

  lemma {:induction false} DescriptorLost(es: seq<Event>, k: nat, n: nat)
    requires k < n <= |es| && NoCloseWhileOpening(es, n) && Exec(es, k + 1).sh.fd != -1
    ensures Exec(es, n).sh.fd == -1 <==> ClosedSince(es, k, n)
  {
    hide Step, Inv, Safe, Exec, CloseHitsOpening;
    if n > k + 1 {
      DescriptorLost(es, k, n - 1);
      ClosedSinceStep(es, k, n - 1);
      RunsAreSafe(es, n - 1);
      ExecIsStep(es, n - 1);
      hide ClosedSince;
      DescriptorStep(Exec(es, n - 1), es[n - 1].t, es[n - 1].c);
    }
  }

  /** A sender that waited calls the handler with descriptor -1 exactly when a close() landed between
      the wait's own check of OPEN, at step k, and the copy of the descriptor. */
  lemma SendsOnClosedExactly(es: seq<Event>, n: nat) returns (k: nat)
    requires n < |es| && At(Exec(es, n), es[n].t) == SendRefresh && NoCloseWhileOpening(es, n)
    ensures k < n && es[k].t == es[n].t && At(Exec(es, k), es[n].t) == WaitOpened(Sender)
    ensures Exec(es, k).sh.open == Open && forall i :: k < i < n ==> es[i].t != es[n].t
    ensures At(Exec(es, n + 1), es[n].t) == SendHandler(-1) <==> ClosedSince(es, k, n)
  {
    k := SenderSawOpen(es, n, es[n].t);
    DescriptorSeen(es, k, es[n].t);
    hide Step, Exec, At, ClosedSince;
    DescriptorLost(es, k, n);
  }

  /** A check that sees OPEN has the descriptor there, and takes nothing away. */
  lemma DescriptorSeen(es: seq<Event>, k: nat, t: Tid)
    requires k < |es| && es[k].t == t && At(Exec(es, k), t) == WaitOpened(Sender)
    requires Exec(es, k).sh.open == Open && NoCloseWhileOpening(es, k)
    ensures Exec(es, k + 1).sh.fd != -1
  {
    RunsAreSafe(es, k);
    assert Exec(es, k).sh.fd != -1;
    hide Step, Exec, At, Inv, Safe;
    ExecMover(es, k);
  }

  const OPENER := Event(2, Choice(DoOpen, true, 7, IoOk, 0))
  const SENDER := Event(3, Choice(DoSend, true, 7, IoOk, WAIT_TIMEOUT))
  const CLOSER := Event(4, Choice(DoClose, true, 7, IoOk, 0))

  /** And it happens: with an open, a close and a send, none of them landing in OPENING. */
  lemma SendsOnClosedSocket()
    ensures exists es: seq<Event> ::
      NoCloseWhileOpening(es, |es|) && exists t :: At(Exec(es, |es|), t) == SendHandler(-1)
  {
    hide Exec, NoCloseWhileOpening, At;
    var es := [SENDER, SENDER, SENDER, SENDER, SENDER, OPENER, OPENER, OPENER, OPENER, OPENER,
               SENDER, CLOSER, CLOSER, SENDER];
    SocketOpens(es);
    SocketCloses(es);
    assert At(Exec(es, |es|), 3) == SendHandler(-1);
  }

  /** Thread 3 finds no descriptor and waits, thread 2 opens. */
  lemma SocketOpens(es: seq<Event>)
    requires |es| == 14 && (forall i :: 0 <= i < 5 ==> es[i] == SENDER) && forall i :: 5 <= i < 10 ==> es[i] == OPENER
    ensures At(Exec(es, 10), 3) == WaitOpened(Sender) && At(Exec(es, 10), 4) == Idle
    ensures Exec(es, 10).sh == INIT.sh.(rc := Requested, open := Open, fd := 7)
    ensures NoCloseWhileOpening(es, 10)
  {
    hide Exec, Act, At, CloseHitsOpening;
    RunStart(es);
    SenderActs(INIT.sh, 3, SENDER.c);
    SoloRun(es, 0, 4, SENDER, INIT.sh, Idle);
    var g := INIT.sh.(rc := Requested);
    NoTaskToWaitFor(g, 3, SENDER.c);
    SoloRun(es, 4, 1, SENDER, g, WaitCheck(Sender, WAIT_TIMEOUT, 0));
    OpenerActs(g, 2, OPENER.c);
    Unmoved(es, 0, 5, 2);
    SoloRun(es, 5, 4, OPENER, g, Idle);
    OpenerCommits(g.(open := Opening, fd := 7), 2, OPENER.c);
    SoloRun(es, 9, 1, OPENER, g.(open := Opening, fd := 7), OpenCommit(FromUser, true));
    Unmoved(es, 0, 10, 4);
  }

  lemma NoTaskToWaitFor(g: Shared, t: Tid, c: Choice)
    requires g.rcStop
    ensures Solo(g, t, WaitCheck(Sender, WAIT_TIMEOUT, 0), c, 1) == To(g, WaitOpened(Sender))
    ensures SoloHarmless(g, t, WaitCheck(Sender, WAIT_TIMEOUT, 0), c, 1)
  {
    assert Act(g, t, WaitCheck(Sender, WAIT_TIMEOUT, 0), c) == To(g, WaitOpened(Sender));
  }

  /** Thread 3 sees OPEN, thread 4 closes, thread 3 copies the descriptor. */
  lemma SocketCloses(es: seq<Event>)
    requires |es| == 14 && es[10] == SENDER && es[11] == CLOSER && es[12] == CLOSER && es[13] == SENDER
    requires At(Exec(es, 10), 3) == WaitOpened(Sender) && At(Exec(es, 10), 4) == Idle
    requires Exec(es, 10).sh == INIT.sh.(rc := Requested, open := Open, fd := 7)
    requires NoCloseWhileOpening(es, 10)
    ensures At(Exec(es, 14), 3) == SendHandler(-1) && NoCloseWhileOpening(es, 14)
  {
    hide Exec, Act, At, CloseHitsOpening;
    var g := INIT.sh.(rc := Requested, open := Open, fd := 7);
    SeesOpen(g, 3, SENDER.c);
    SoloRun(es, 10, 1, SENDER, g, WaitOpened(Sender));
    CloserActs(g, 4, CLOSER.c);
    SoloRun(es, 11, 2, CLOSER, g, Idle);
    var g1 := g.(open := NotOpen, fd := -1);
    Refreshes(g1, 3, SENDER.c);
    SoloRun(es, 13, 1, SENDER, g1, SendRefresh);
  }

  lemma SeesOpen(g: Shared, t: Tid, c: Choice)
    requires g.open == Open
    ensures Solo(g, t, WaitOpened(Sender), c, 1) == To(g, SendRefresh)
    ensures SoloHarmless(g, t, WaitOpened(Sender), c, 1)
  {
    assert Act(g, t, WaitOpened(Sender), c) == To(g, SendRefresh);
  }

  lemma CloserActs(g: Shared, t: Tid, c: Choice)
    requires t > READ_TASK && c.op == DoClose && g.open != Opening
    ensures Solo(g, t, Idle, c, 2) == To(g.(open := NotOpen, fd := -1), Idle)
    ensures SoloHarmless(g, t, Idle, c, 2)
  {
    assert Act(g, t, Idle, c) == To(g, Closing(ToCaller));
    assert Act(g, t, Closing(ToCaller), c) == To(g.(open := NotOpen, fd := -1), Idle);
  }

  lemma Refreshes(g: Shared, t: Tid, c: Choice)
    ensures Solo(g, t, SendRefresh, c, 1) == To(g, SendHandler(g.fd))
    ensures SoloHarmless(g, t, SendRefresh, c, 1)
  {
    assert Act(g, t, SendRefresh, c) == To(g, SendHandler(g.fd));
  }
}
