/** Single calls and loop rounds of the socket helper's threads: when they close the socket, how their waits end,
    and what they come to when nobody disturbs them. */
module SocketCalls {
  import opened SocketHelper

  // ------------------------------------------------------------------ closing after a lost connection

  /** The handler's answer tells that the connection is lost; the read loop takes any error for that. */
  predicate Lost(pc: Pc, io: IoStatus) {
    || (pc.SendHandler? && io == IoDisconnected)
    || (pc.RecvHandler? && (io == IoDisconnected || (pc.reading && io != IoOk)))
  }

  /** Outside send(), recv() and the body of the read loop. */
  predicate Returned(pc: Pc) {
    pc == Idle || pc == ReadTest || pc == Finished
  }

  /** The first step of thread t at or after i. */
  lemma {:induction false} NextOwn(es: seq<Event>, i: nat, n: nat, t: Tid) returns (j: nat)
    requires i <= n <= |es| && At(Exec(es, n), t) != At(Exec(es, i), t)
    ensures i <= j < n && es[j].t == t && At(Exec(es, j), t) == At(Exec(es, i), t)
    ensures forall k :: i <= k < j ==> es[k].t != t
  {
    hide Exec, At;
    if forall k :: i <= k < n ==> es[k].t != t {
      Unmoved(es, i, n, t);
      assert false;
    } else {
      j := FirstOwn(es, i, n, t);
      Unmoved(es, i, j, t);
    }
  }

  lemma FirstOwn(es: seq<Event>, i: nat, n: nat, t: Tid) returns (j: nat)
    requires i <= n <= |es| && exists k :: i <= k < n && es[k].t == t
    ensures i <= j < n && es[j].t == t && forall k :: i <= k < j ==> es[k].t != t
    decreases n - i
  {
    if es[i].t == t {
      j := i;
    } else {
      j := FirstOwn(es, i + 1, n, t);
    }
  }

  lemma HandlerAnswers(g: Shared, t: Tid, pc: Pc, c: Choice)
    requires pc.SendHandler? || pc.RecvHandler?
    ensures Act(g, t, pc, c).sh == g
    ensures if Lost(pc, c.io) then Act(g, t, pc, c).pc.Closing? else Returned(Act(g, t, pc, c).pc)
  {
  }

  lemma HandlerAnswersAt(es: seq<Event>, k: nat, t: Tid)
    requires k < |es| && es[k].t == t && (At(Exec(es, k), t).SendHandler? || At(Exec(es, k), t).RecvHandler?)
    ensures Exec(es, k + 1).sh == Exec(es, k).sh
    ensures var pc := At(Exec(es, k + 1), t);
      if Lost(At(Exec(es, k), t), es[k].c.io) then pc.Closing? else Returned(pc)
  {
    hide Exec, At;
    HandlerAnswers(Exec(es, k).sh, t, At(Exec(es, k), t), es[k].c);
    hide Act, Lost, Returned;
    ExecMover(es, k);
  }

  lemma CloseActs(g: Shared, t: Tid, pc: Pc, c: Choice)
    requires pc.Closing?
    ensures var out := Act(g, t, pc, c);
      out.sh == g.(open := NotOpen, fd := -1) && (out.pc.Closing? || Returned(out.pc))
  {
  }

  /** Whatever the other threads do: when the handler of thread t reports a lost connection at step k, then t
      closes the socket before it does anything else. */
  lemma LostIsClosed(es: seq<Event>, k: nat, n: nat, t: Tid) returns (j: nat)
    requires k < n <= |es| && es[k].t == t && Lost(At(Exec(es, k), t), es[k].c.io)
    requires !At(Exec(es, n), t).Closing?
    ensures k < j < n && es[j].t == t && At(Exec(es, j), t).Closing?
    ensures forall i :: k < i < j ==> es[i].t != t
    ensures Exec(es, j + 1).sh.open == NotOpen && Exec(es, j + 1).sh.fd == -1
  {
    HandlerAnswersAt(es, k, t);
    hide Exec, At, Act;
    j := NextOwn(es, k + 1, n, t);
    ExecMover(es, j);
    CloseActs(Exec(es, j).sh, t, At(Exec(es, j), t), es[j].c);
  }

  /** Thread t's call of the handler at step k ended and t came back from send(), recv() or the read loop's
      body at step n. */
  ghost predicate BackFrom(es: seq<Event>, k: nat, n: nat, t: Tid) {
    && k < n <= |es| && es[k].t == t
    && (At(Exec(es, k), t).SendHandler? || At(Exec(es, k), t).RecvHandler?)
    && Returned(At(Exec(es, n), t)) && forall i :: k < i < n ==> !Returned(At(Exec(es, i), t))
  }

  /** It closes the socket in between exactly when the connection was lost. */
  lemma ClosesExactlyWhenLost(es: seq<Event>, k: nat, n: nat, t: Tid)
    requires BackFrom(es, k, n, t)
    ensures (exists j :: k < j < n && es[j].t == t && At(Exec(es, j), t).Closing?)
       <==> Lost(At(Exec(es, k), t), es[k].c.io)
  {
    HandlerAnswersAt(es, k, t);
    hide Exec, At;
    if Lost(At(Exec(es, k), t), es[k].c.io) {
      var j := LostIsClosed(es, k, n, t);
    } else {
      assert n == k + 1;
    }
  }

  /** With no other thread moving in between, the socket is closed when the caller is back; and a call that
      lost nothing leaves the shared members alone. */
  lemma BackAlone(es: seq<Event>, k: nat, n: nat, t: Tid)
    requires BackFrom(es, k, n, t) && forall i :: k < i < n ==> es[i].t == t
    ensures Exec(es, n).sh == if Lost(At(Exec(es, k), t), es[k].c.io)
      then Exec(es, k).sh.(open := NotOpen, fd := -1) else Exec(es, k).sh
  {
    HandlerAnswersAt(es, k, t);
    hide Exec, At;
    if Lost(At(Exec(es, k), t), es[k].c.io) {
      hide Returned, Lost;
      ClosesTillBack(es, k + 1, n, t);
    } else {
      assert n == k + 1;
    }
  }

  lemma {:induction false} ClosesTillBack(es: seq<Event>, i: nat, n: nat, t: Tid)
    requires i < n <= |es| && (forall k :: i <= k < n ==> es[k].t == t && !Returned(At(Exec(es, k), t)))
    requires At(Exec(es, i), t).Closing? && Returned(At(Exec(es, n), t))
    ensures Exec(es, n).sh == Exec(es, i).sh.(open := NotOpen, fd := -1)
    decreases n - i
  {
    hide Exec, At, Act;
    ExecMover(es, i);
    CloseActs(Exec(es, i).sh, t, At(Exec(es, i), t), es[i].c);
    if i + 1 < n {
      ClosesTillBack(es, i + 1, n, t);
    }
  }

  /** A step of this thread that leads to close(): the caller asks for it, the connection is lost, there was
      none to receive from, the read loop is stopped, or it found automatic opening switched off. */
  predicate AsksForClose(g: Shared, pc: Pc, c: Choice) {
    || (pc == Idle && c.op == DoClose)
    || Lost(pc, c.io)
    || (pc == RecvCopy(true) && g.fd == -1)
    || (pc == ReadTest && g.stop)
    || ((pc == WaitAutoAgain(Reader) || (pc.WaitAuto? && pc.w == Reader)) && !g.auto)
  }

  lemma ClosingStep(g: Shared, t: Tid, pc: Pc, c: Choice)
    requires Act(g, t, pc, c).pc.Closing?
    ensures AsksForClose(g, pc, c) || pc == Closing(ToReadError)
  {
    if Waiting(pc) {
      hide TransferStep, ReadStep, ControlStep, ConnectionStep, Begin;
    } else if Reading(pc) {
      hide TransferStep, WaitStep, ControlStep, ConnectionStep, Begin;
    } else if Transferring(pc) {
      hide ReadStep, WaitStep, ControlStep, ConnectionStep, Begin;
    } else {
      hide ReadStep, WaitStep, TransferStep;
    }
  }

  /** And nobody closes the socket for any other reason. */
  lemma {:induction false} CloseHasReason(es: seq<Event>, n: nat, t: Tid) returns (k: nat)
    requires n <= |es| && At(Exec(es, n), t).Closing?
    ensures k < n && es[k].t == t && AsksForClose(Exec(es, k).sh, At(Exec(es, k), t), es[k].c)
    ensures forall i :: k < i < n && es[i].t == t ==> At(Exec(es, i), t) == Closing(ToReadError)
  {
    hide Act, AsksForClose;
    if n == 0 {
      assert false;
    } else {
      ExecStep(es, n - 1);
      if es[n - 1].t == t {
        ClosingStep(Exec(es, n - 1).sh, t, At(Exec(es, n - 1), t), es[n - 1].c);
        if At(Exec(es, n - 1), t) == Closing(ToReadError) {
          k := CloseHasReason(es, n - 1, t);
        } else {
          k := n - 1;
        }
      } else {
        k := CloseHasReason(es, n - 1, t);
      }
    }
  }

  // ------------------------------------------------------------------ why a wait ends

  /** Time that thread t's polls among steps i .. n - 1 waited, each for the interval of that moment. */
  function Waited(es: seq<Event>, i: nat, n: nat, t: Tid): nat
    requires i <= n <= |es|
  {
    if i == n then 0
    else Waited(es, i, n - 1, t) + if es[n - 1].t == t then Exec(es, n - 1).sh.interval else 0
  }

  /** A wait that began to poll at step i has something to wait for at step n: there is time left, and a reconnect
      task that lives has a request to serve. */
  ghost predicate KeepsWaiting(es: seq<Event>, i: nat, n: nat, t: Tid, timeout: nat)
    requires i <= n <= |es|
  {
    Waited(es, i, n, t) < timeout && Pending(Exec(es, n)) && !Exec(es, n).sh.rcStop
  }

  lemma PollActs(g: Shared, t: Tid, c: Choice, w: Waiter, timeout: nat, elapsed: nat)
    ensures Act(g, t, WaitCheck(w, timeout, elapsed), c).pc ==
      if elapsed < timeout && g.rc != NotReconnecting && !g.rcStop then WaitCheck(w, timeout, elapsed + g.interval)
      else WaitOpened(w)
  {
  }

  /** In every interleaving: a wait polls on as long as it keeps waiting, and stops at the first poll that finds
      the time up, no request pending or the reconnect task stopped. */
  lemma {:induction false} WaitEndsWhen(es: seq<Event>, i: nat, n: nat, t: Tid, w: Waiter, timeout: nat)
    requires i <= n <= |es| && At(Exec(es, i), t) == WaitCheck(w, timeout, 0)
    requires forall k :: i <= k < n && es[k].t == t ==> KeepsWaiting(es, i, k, t, timeout)
    ensures At(Exec(es, n), t) == WaitCheck(w, timeout, Waited(es, i, n, t))
    ensures n < |es| && es[n].t == t && !KeepsWaiting(es, i, n, t, timeout) ==> At(Exec(es, n + 1), t) == WaitOpened(w)
  {
    hide Exec, At, Act;
    if i < n {
      WaitEndsWhen(es, i, n - 1, t, w, timeout);
      ExecStep(es, n - 1);
      PollActs(Exec(es, n - 1).sh, t, es[n - 1].c, w, timeout, Waited(es, i, n - 1, t));
    }
    if n < |es| && es[n].t == t {
      ExecMover(es, n);
      PollActs(Exec(es, n).sh, t, es[n].c, w, timeout, Waited(es, i, n, t));
    }
  }

  /** After its polls a wait succeeds exactly when its own check, at step k, finds the socket open; a sender then
      goes on to send and otherwise gives up, and a reader leaves its loop exactly when the wait failed and
      automatic opening was off at the wait's last step. */
  lemma WaitReturns(es: seq<Event>, k: nat, n: nat, t: Tid, w: Waiter)
    requires k < n <= |es| && es[k].t == t && At(Exec(es, k), t) == WaitOpened(w)
    requires !Waiting(At(Exec(es, n), t)) && forall i :: k < i < n ==> Waiting(At(Exec(es, i), t))
    ensures es[n - 1].t == t
    ensures var open, auto := Exec(es, k).sh.open == Open, Exec(es, n - 1).sh.auto;
      At(Exec(es, n), t) ==
        match w
        case Sender => if open then SendRefresh else Idle
        case Reader => if open || auto then ReadIsOpenedNow else Closing(ToTaskEnd)
  {
    hide Exec, At;
    WaitCheckActs(es, k, t, w);
    if Exec(es, k).sh.open != Open {
      LeavesLastCheck(es, k, n, t, w);
    }
  }

  lemma LeavesLastCheck(es: seq<Event>, k: nat, n: nat, t: Tid, w: Waiter)
    requires k + 1 < n <= |es| && At(Exec(es, k + 1), t) == WaitAutoAgain(w)
    requires !Waiting(At(Exec(es, n), t)) && forall i :: k < i < n ==> Waiting(At(Exec(es, i), t))
    ensures es[n - 1].t == t && At(Exec(es, n - 1), t) == WaitAutoAgain(w)
    ensures At(Exec(es, n), t) ==
      if w == Sender then Idle else if Exec(es, n - 1).sh.auto then ReadIsOpenedNow else Closing(ToTaskEnd)
  {
    hide Exec, At;
    var j := NextOwn(es, k + 1, n, t);
    WaitAgainActs(es, j, t, w);
    assert !Waiting(At(Exec(es, j + 1), t));
    assert n == j + 1;
  }

  lemma WaitCheckActs(es: seq<Event>, k: nat, t: Tid, w: Waiter)
    requires k < |es| && es[k].t == t && At(Exec(es, k), t) == WaitOpened(w)
    ensures At(Exec(es, k + 1), t) ==
      if Exec(es, k).sh.open != Open then WaitAutoAgain(w) else if w == Sender then SendRefresh else ReadIsOpenedNow
  {
    hide Exec, At;
    ExecMover(es, k);
  }

  lemma WaitAgainActs(es: seq<Event>, k: nat, t: Tid, w: Waiter)
    requires k < |es| && es[k].t == t && At(Exec(es, k), t) == WaitAutoAgain(w)
    ensures At(Exec(es, k + 1), t) ==
      if w == Sender then Idle else if Exec(es, k).sh.auto then ReadIsOpenedNow else Closing(ToTaskEnd)
  {
    hide Exec, At;
    ExecMover(es, k);
  }

  // ------------------------------------------------------------------ calls that nobody disturbs

  /** Between two rounds of a loop, or outside every call. */
  predicate Resting(pc: Pc) {
    pc == Idle || pc == Finished || pc == ReadIsOpened || pc == RcRunning
  }

  /** Thread t alone, always with choice c, comes to rest for the first time after m steps, with outcome out. */
  predicate Reaches(g: Shared, t: Tid, pc: Pc, c: Choice, out: Outcome, m: nat)
    decreases m
  {
    && m > 0
    && var next := Act(g, t, pc, c);
       if m == 1 then next == out && Resting(next.pc)
       else !Resting(next.pc) && Reaches(next.sh, t, next.pc, c, out, m - 1)
  }

  ghost predicate EndsIn(g: Shared, t: Tid, pc: Pc, c: Choice, out: Outcome) {
    exists m: nat :: Reaches(g, t, pc, c, out, m)
  }

  lemma LastStep(g: Shared, t: Tid, pc: Pc, c: Choice, out: Outcome)
    requires Act(g, t, pc, c) == out && Resting(out.pc)
    ensures EndsIn(g, t, pc, c, out)
  {
    hide Act;
    assert Reaches(g, t, pc, c, out, 1);
  }

  lemma StepBefore(g: Shared, t: Tid, pc: Pc, c: Choice, g1: Shared, pc1: Pc, out: Outcome)
    requires Act(g, t, pc, c) == To(g1, pc1) && !Resting(pc1) && EndsIn(g1, t, pc1, c, out)
    ensures EndsIn(g, t, pc, c, out)
  {
    hide Act;
    var m: nat :| Reaches(g1, t, pc1, c, out, m);
    assert Reaches(g, t, pc, c, out, m + 1);
  }

  function Closed(g: Shared): Shared {
    g.(open := NotOpen, fd := -1)
  }

  /** OPEN exactly when the descriptor is usable, except while an open is under way. */
  predicate Consistent(g: Shared) {
    g.open != Opening ==> (g.open == Open <==> g.fd != -1)
  }

  /** A wait in this state comes to an end although nobody else moves. */
  predicate WaitEnds(g: Shared, timeout: nat) {
    g.interval > 0 || timeout == 0 || g.rcStop || !g.auto
  }

  /** What a public operation does to the shared members. */
  function CallResult(g: Shared, c: Choice): Shared {
    match c.op
    case DoOpen =>
      if g.open != NotOpen then g else if c.openOk then g.(open := Open, fd := c.newFd) else Closed(g)
    case DoClose => Closed(g)
    case DoSend =>
      if g.fd == -1 then g.(rc := Request(g.rc)) else if c.io == IoDisconnected then Closed(g) else g
    case DoRecv => if g.fd != -1 && c.io == IoDisconnected then Closed(g) else g
    case DoStop => g.(stop := true, rc := NotReconnecting, rcStop := true)
    case DoStopReconnect => g.(rc := NotReconnecting, rcStop := true)
    case DoSetAuto(auto) => g.(auto := auto)
    case DoSetInterval(interval) => g.(interval := interval)
    case DoTask => g
  }

  /** What one round of the read loop comes to: stopped, it closes and ends; with an open socket it receives, and
      closes on every error; without one it asks for a reconnect, and ends if that is switched off. */
  function ReadRound(g: Shared, c: Choice): Outcome {
    if g.stop then To(Closed(g), Finished)
    else if g.open == Open then To(if c.io == IoOk then g else Closed(g), ReadIsOpened)
    else var asked := g.(rc := Request(g.rc));
      if g.auto then To(asked, ReadIsOpened) else To(Closed(asked), Finished)
  }

  /** What one round of the reconnect loop comes to. */
  function ReconnectRound(g: Shared, c: Choice): Outcome {
    if g.rcStop then To(g, Finished)
    else if g.rc == NotReconnecting then To(g, RcRunning)
    else if g.open != NotOpen || !g.auto then To(g.(rc := NotReconnecting), RcRunning)
    else if c.openOk then To(g.(open := Open, fd := c.newFd, rc := NotReconnecting), RcRunning)
    else To(Closed(g).(rc := InProgress), RcRunning)
  }

  lemma OpenEnds(g: Shared, t: Tid, c: Choice, caller: OpenCaller, out: Outcome)
    requires Consistent(g) && g.open == NotOpen
    requires var g1 := if c.openOk then g.(open := Open, fd := c.newFd) else Closed(g);
      var pc1 := AfterOpen(caller, if c.openOk then Success else OpenFailed);
      if Resting(pc1) then out == To(g1, pc1) else EndsIn(g1, t, pc1, c, out)
    ensures EndsIn(g, t, OpenClaim(caller), c, out)
  {
    var g1 := g.(open := Opening);
    var g2 := g1.(fd := if c.openOk then c.newFd else -1);
    assert Act(g, t, OpenClaim(caller), c) == To(g1, OpenAssert(caller));
    assert Act(g1, t, OpenAssert(caller), c) == To(g1, OpenHandler(caller));
    assert Act(g1, t, OpenHandler(caller), c) == To(g2, OpenCommit(caller, c.openOk));
    var last := Act(g2, t, OpenCommit(caller, c.openOk), c);
    hide Act, EndsIn;
    if Resting(last.pc) {
      LastStep(g2, t, OpenCommit(caller, c.openOk), c, out);
    } else {
      StepBefore(g2, t, OpenCommit(caller, c.openOk), c, last.sh, last.pc, out);
    }
    StepBefore(g1, t, OpenHandler(caller), c, g2, OpenCommit(caller, c.openOk), out);
    StepBefore(g1, t, OpenAssert(caller), c, g1, OpenHandler(caller), out);
    StepBefore(g, t, OpenClaim(caller), c, g1, OpenAssert(caller), out);
  }

  /** A wait that nobody disturbs, on a socket that is not open. */
  lemma WaitEndsIn(g: Shared, t: Tid, c: Choice, w: Waiter, timeout: nat, out: Outcome)
    requires g.open != Open && WaitEnds(g, timeout)
    requires var pc1 := WaitDone(w, false, !g.auto);
      if Resting(pc1) then out == To(g, pc1) else EndsIn(g, t, pc1, c, out)
    ensures EndsIn(g, t, WaitAuto(w, timeout), c, out)
  {
    assert Act(g, t, WaitAuto(w, timeout), c)
      == To(g, if g.auto then WaitCheck(w, timeout, 0) else WaitDone(w, false, true));
    assert Act(g, t, WaitOpened(w), c) == To(g, WaitAutoAgain(w));
    assert Act(g, t, WaitAutoAgain(w), c) == To(g, WaitDone(w, false, !g.auto));
    hide Act, EndsIn;
    var pc1 := WaitDone(w, false, !g.auto);
    var before := if g.auto then WaitAutoAgain(w) else WaitAuto(w, timeout);
    if Resting(pc1) {
      LastStep(g, t, before, c, out);
    } else {
      StepBefore(g, t, before, c, g, pc1, out);
    }
    if g.auto {
      StepBefore(g, t, WaitOpened(w), c, g, WaitAutoAgain(w), out);
      PollsEnd(g, t, c, w, timeout, 0, out);
      StepBefore(g, t, WaitAuto(w, timeout), c, g, WaitCheck(w, timeout, 0), out);
    }
  }

  lemma {:induction false} PollsEnd(g: Shared, t: Tid, c: Choice, w: Waiter, timeout: nat, elapsed: nat, out: Outcome)
    requires EndsIn(g, t, WaitOpened(w), c, out) && (g.interval > 0 || timeout == 0 || g.rcStop)
    ensures EndsIn(g, t, WaitCheck(w, timeout, elapsed), c, out)
    decreases timeout - elapsed
  {
    hide EndsIn;
    var next := Act(g, t, WaitCheck(w, timeout, elapsed), c);
    if next.pc.WaitCheck? {
      PollsEnd(g, t, c, w, timeout, elapsed + g.interval, out);
    }
    StepBefore(g, t, WaitCheck(w, timeout, elapsed), c, g, next.pc, out);
  }

  lemma CloseEnds(g: Shared, t: Tid, c: Choice, after: AfterClose)
    requires after == ToCaller || after == ToTaskEnd
    ensures EndsIn(g, t, Closing(after), c, To(Closed(g), AfterClosing(after)))
  {
    LastStep(g, t, Closing(after), c, To(Closed(g), AfterClosing(after)));
  }

  /** Calls of open() and close(), and the ones that only set members. */
  lemma SimpleCallEnds(g: Shared, t: Tid, c: Choice)
    requires t > READ_TASK && Consistent(g) && !c.op.DoSend? && !c.op.DoRecv?
    ensures EndsIn(g, t, Idle, c, To(CallResult(g, c), Idle))
  {
    var out := To(CallResult(g, c), Idle);
    var next := Act(g, t, Idle, c);
    match c.op
    case DoOpen =>
      if g.open == NotOpen {
        OpenEnds(g, t, c, FromUser, out);
      } else {
        LastStep(g, t, OpenClaim(FromUser), c, out);
      }
      StepBefore(g, t, Idle, c, g, OpenClaim(FromUser), out);
    case DoClose =>
      CloseEnds(g, t, c, ToCaller);
      StepBefore(g, t, Idle, c, g, Closing(ToCaller), out);
    case DoStop =>
      var g1 := g.(stop := true);
      LastStep(g1, t, StopReconnect, c, out);
      StepBefore(g, t, StopFlag, c, g1, StopReconnect, out);
      StepBefore(g, t, Idle, c, g, StopFlag, out);
    case DoStopReconnect =>
      LastStep(g, t, StopReconnect, c, out);
      StepBefore(g, t, Idle, c, g, StopReconnect, out);
    case _ => LastStep(g, t, Idle, c, out);
  }

  lemma SendEnds(g: Shared, t: Tid, c: Choice)
    requires t > READ_TASK && Consistent(g) && c.op == DoSend && WaitEnds(g, c.timeout)
    ensures EndsIn(g, t, Idle, c, To(CallResult(g, c), Idle))
  {
    var out := To(CallResult(g, c), Idle);
    assert Act(g, t, Idle, c) == To(g, SendCopy);
    if g.fd == -1 {
      var g1 := g.(rc := Request(g.rc));
      assert Act(g, t, SendCopy, c) == To(g, SendRequest);
      assert Act(g, t, SendRequest, c) == To(g1, WaitAuto(Sender, c.timeout));
      hide Act, EndsIn;
      WaitEndsIn(g1, t, c, Sender, c.timeout, out);
      StepBefore(g, t, SendRequest, c, g1, WaitAuto(Sender, c.timeout), out);
      StepBefore(g, t, SendCopy, c, g, SendRequest, out);
    } else {
      assert Act(g, t, SendCopy, c) == To(g, SendHandler(g.fd));
      TransferEnds(g, t, SendHandler(g.fd), c, out);
      hide Act, EndsIn;
      StepBefore(g, t, SendCopy, c, g, SendHandler(g.fd), out);
    }
    hide Act, EndsIn;
    StepBefore(g, t, Idle, c, g, SendCopy, out);
  }

  lemma TransferEnds(g: Shared, t: Tid, pc: Pc, c: Choice, out: Outcome)
    requires pc.SendHandler? || pc == RecvHandler(false)
    requires out == To(if c.io == IoDisconnected then Closed(g) else g, Idle)
    ensures EndsIn(g, t, pc, c, out)
  {
    if c.io == IoDisconnected {
      CloseEnds(g, t, c, ToCaller);
      StepBefore(g, t, pc, c, g, Closing(ToCaller), out);
    } else {
      LastStep(g, t, pc, c, out);
    }
  }

  lemma RecvEnds(g: Shared, t: Tid, c: Choice)
    requires t > READ_TASK && c.op == DoRecv
    ensures EndsIn(g, t, Idle, c, To(CallResult(g, c), Idle))
  {
    var out := To(CallResult(g, c), Idle);
    if g.fd == -1 {
      LastStep(g, t, RecvCopy(false), c, out);
    } else {
      TransferEnds(g, t, RecvHandler(false), c, out);
      StepBefore(g, t, RecvCopy(false), c, g, RecvHandler(false), out);
    }
    StepBefore(g, t, Idle, c, g, RecvCopy(false), out);
  }

  lemma ReadRoundEnds(g: Shared, t: Tid, c: Choice)
    requires Consistent(g) && WaitEnds(g, c.timeout)
    ensures EndsIn(g, t, ReadIsOpened, c, ReadRound(g, c))
  {
    var out := ReadRound(g, c);
    if g.open == Open {
      ReadOpenEnds(g, t, c, out);
      StepBefore(g, t, ReadIsOpened, c, g, ReadIsOpenedNow, out);
    } else {
      if g.stop {
        ReadClosedEnds(g, t, c, out);
        StepBefore(g, t, ReadRunning, c, g, ReadIsOpenedNow, out);
      } else {
        var g1 := g.(rc := Request(g.rc));
        if g.auto {
          ReadClosedEnds(g1, t, c, out);
        } else {
          CloseEnds(g1, t, c, ToTaskEnd);
        }
        hide EndsIn;
        WaitEndsIn(g1, t, c, Reader, c.timeout, out);
        StepBefore(g, t, ReadRequest, c, g1, WaitAuto(Reader, c.timeout), out);
        StepBefore(g, t, ReadRunning, c, g, ReadRequest, out);
      }
      StepBefore(g, t, ReadIsOpened, c, g, ReadRunning, out);
    }
  }

  lemma ReadTestEnds(g: Shared, t: Tid, c: Choice)
    ensures EndsIn(g, t, ReadTest, c, if g.stop then To(Closed(g), Finished) else To(g, ReadIsOpened))
  {
    if g.stop {
      CloseEnds(g, t, c, ToTaskEnd);
      StepBefore(g, t, ReadTest, c, g, Closing(ToTaskEnd), To(Closed(g), Finished));
    } else {
      LastStep(g, t, ReadTest, c, To(g, ReadIsOpened));
    }
  }

  lemma ReadClosedEnds(g: Shared, t: Tid, c: Choice, out: Outcome)
    requires g.open != Open && out == if g.stop then To(Closed(g), Finished) else To(g, ReadIsOpened)
    ensures EndsIn(g, t, ReadIsOpenedNow, c, out)
  {
    ReadTestEnds(g, t, c);
    StepBefore(g, t, ReadIsOpenedNow, c, g, ReadTest, out);
  }

  lemma ReadOpenEnds(g: Shared, t: Tid, c: Choice, out: Outcome)
    requires g.open == Open && g.fd != -1 && out == ReadRound(g, c)
    ensures EndsIn(g, t, ReadIsOpenedNow, c, out)
  {
    if g.stop {
      ReadTestEnds(g, t, c);
      StepBefore(g, t, ReadRunningNow, c, g, ReadTest, out);
    } else {
      var closed := Closed(g);
      ReadTestEnds(if c.io == IoOk then g else closed, t, c);
      if c.io == IoOk {
        StepBefore(g, t, RecvHandler(true), c, g, ReadTest, out);
      } else if c.io == IoDisconnected {
        StepBefore(closed, t, Closing(ToReadLoop), c, closed, ReadTest, out);
        StepBefore(g, t, Closing(ToReadError), c, closed, Closing(ToReadLoop), out);
        StepBefore(g, t, RecvHandler(true), c, g, Closing(ToReadError), out);
      } else {
        StepBefore(g, t, Closing(ToReadLoop), c, closed, ReadTest, out);
        StepBefore(g, t, RecvHandler(true), c, g, Closing(ToReadLoop), out);
      }
      StepBefore(g, t, RecvCopy(true), c, g, RecvHandler(true), out);
      StepBefore(g, t, ReadRunningNow, c, g, RecvCopy(true), out);
    }
    StepBefore(g, t, ReadIsOpenedNow, c, g, ReadRunningNow, out);
  }

  lemma ReconnectRoundEnds(g: Shared, t: Tid, c: Choice)
    requires Consistent(g)
    ensures EndsIn(g, t, RcRunning, c, ReconnectRound(g, c))
  {
    var out := ReconnectRound(g, c);
    if g.rcStop {
      LastStep(g, t, RcRunning, c, out);
    } else if g.rc == NotReconnecting {
      LastStep(g, t, RcState, c, out);
      StepBefore(g, t, RcRunning, c, g, RcState, out);
    } else {
      var g1 := g.(rc := InProgress);
      ReopenEnds(g1, t, c, out);
      StepBefore(g, t, RcState, c, g1, RcIsOpened, out);
      StepBefore(g, t, RcRunning, c, g, RcState, out);
    }
  }

  lemma ReopenEnds(g: Shared, t: Tid, c: Choice, out: Outcome)
    requires Consistent(g) && g.rc == InProgress && !g.rcStop && out == ReconnectRound(g, c)
    ensures EndsIn(g, t, RcIsOpened, c, out)
  {
    if g.open == Open {
      LastStep(g, t, RcResult(Success), c, out);
      StepBefore(g, t, RcIsOpened, c, g, RcResult(Success), out);
    } else {
      if !g.auto {
        LastStep(g, t, RcResult(AutoConnectDisabled), c, out);
        StepBefore(g, t, RcAuto, c, g, RcResult(AutoConnectDisabled), out);
      } else {
        if g.open == Opening {
          LastStep(g, t, RcResult(Success), c, out);
          StepBefore(g, t, OpenClaim(FromReopen), c, g, RcResult(Success), out);
        } else {
          var g1 := if c.openOk then g.(open := Open, fd := c.newFd) else Closed(g);
          var status := if c.openOk then Success else OpenFailed;
          LastStep(g1, t, RcResult(status), c, out);
          OpenEnds(g, t, c, FromReopen, out);
        }
        StepBefore(g, t, RcAuto, c, g, OpenClaim(FromReopen), out);
      }
      StepBefore(g, t, RcIsOpened, c, g, RcAuto, out);
    }
  }

  /** The run so far, then m steps of one thread. */
  function Then(es: seq<Event>, i: nat, e: Event, m: nat): seq<Event>
    requires i <= |es|
  {
    es[..i] + seq(m, _ => e)
  }

  lemma {:induction false} ExecPrefix(es: seq<Event>, fs: seq<Event>, n: nat)
    requires n <= |es| && n <= |fs| && es[..n] == fs[..n]
    ensures Exec(es, n) == Exec(fs, n)
  {
    hide Step;
    if n > 0 {
      assert es[..n - 1] == es[..n][..n - 1] && fs[..n - 1] == fs[..n][..n - 1];
      assert es[n - 1] == es[..n][n - 1] && fs[n - 1] == fs[..n][n - 1];
      ExecPrefix(es, fs, n - 1);
    }
  }

  lemma {:induction false} ReachesIsSolo(g: Shared, t: Tid, pc: Pc, c: Choice, out: Outcome, m: nat)
    requires Reaches(g, t, pc, c, out, m)
    ensures Solo(g, t, pc, c, m) == out
    ensures forall l :: 0 < l < m ==> !Resting(Solo(g, t, pc, c, l).pc)
    decreases m
  {
    hide Act;
    var next := Act(g, t, pc, c);
    if m > 1 {
      ReachesIsSolo(next.sh, t, next.pc, c, out, m - 1);
      forall l | 0 < l < m ensures !Resting(Solo(g, t, pc, c, l).pc) {
        assert Solo(g, t, pc, c, l) == Solo(next.sh, t, next.pc, c, l - 1);
      }
    } else {
      assert Solo(g, t, pc, c, 1) == Solo(next.sh, t, next.pc, c, 0);
    }
  }

  /** From step i of a run on, thread e.t alone comes to rest after m steps, with this outcome. */
  ghost predicate AloneFrom(es: seq<Event>, i: nat, e: Event, m: nat, out: Outcome)
    requires i <= |es|
  {
    var fs := Then(es, i, e, m);
    && m > 0 && Exec(fs, i) == Exec(es, i)
    && Exec(fs, i + m).sh == out.sh && At(Exec(fs, i + m), e.t) == out.pc && Resting(out.pc)
    && forall k :: i < k < i + m ==> !Resting(At(Exec(fs, k), e.t))
  }

  lemma EndsInRun(es: seq<Event>, i: nat, e: Event, out: Outcome) returns (m: nat)
    requires i <= |es| && EndsIn(Exec(es, i).sh, e.t, At(Exec(es, i), e.t), e.c, out)
    ensures AloneFrom(es, i, e, m, out)
  {
    hide Exec, At, Reaches, AloneFrom;
    m :| Reaches(Exec(es, i).sh, e.t, At(Exec(es, i), e.t), e.c, out, m);
    ReachesInRun(es, i, e, m, out);
  }

  lemma ReachesInRun(es: seq<Event>, i: nat, e: Event, m: nat, out: Outcome)
    requires i <= |es| && Reaches(Exec(es, i).sh, e.t, At(Exec(es, i), e.t), e.c, out, m)
    ensures AloneFrom(es, i, e, m, out)
  {
    hide Exec, At, Act, Solo, Resting;
    var g, pc := Exec(es, i).sh, At(Exec(es, i), e.t);
    ReachesIsSolo(g, e.t, pc, e.c, out, m);
    ReachesResting(g, e.t, pc, e.c, out, m);
    assert m > 0;
    hide Reaches;
    ExecPrefix(es, Then(es, i, e, m), i);
    SoloFrom(es, i, m, m, e);
    forall k | i < k < i + m ensures !Resting(At(Exec(Then(es, i, e, m), k), e.t)) {
      SoloFrom(es, i, k - i, m, e);
    }
  }

  lemma SoloFrom(es: seq<Event>, i: nat, l: nat, m: nat, e: Event)
    requires i <= |es| && l <= m
    ensures var out, fs := Solo(Exec(es, i).sh, e.t, At(Exec(es, i), e.t), e.c, l), Then(es, i, e, m);
      Exec(fs, i + l).sh == out.sh && At(Exec(fs, i + l), e.t) == out.pc
  {
    hide Exec, At, Act, Solo, SoloHarmless, CloseHitsOpening;
    var fs := Then(es, i, e, m);
    ExecPrefix(es, fs, i);
    SoloRun(fs, i, l, e, Exec(es, i).sh, At(Exec(es, i), e.t));
  }

  lemma {:induction false} ReachesResting(g: Shared, t: Tid, pc: Pc, c: Choice, out: Outcome, m: nat)
    requires Reaches(g, t, pc, c, out, m)
    ensures Resting(out.pc)
    decreases m
  {
    hide Act;
    if m > 1 {
      var next := Act(g, t, pc, c);
      ReachesResting(next.sh, t, next.pc, c, out, m - 1);
    }
  }

  lemma CallEnds(g: Shared, t: Tid, c: Choice)
    requires t > READ_TASK && Consistent(g) && (c.op == DoSend ==> WaitEnds(g, c.timeout))
    ensures EndsIn(g, t, Idle, c, To(CallResult(g, c), Idle))
  {
    hide EndsIn, CallResult;
    if c.op.DoSend? {
      SendEnds(g, t, c);
    } else if c.op.DoRecv? {
      RecvEnds(g, t, c);
    } else {
      SimpleCallEnds(g, t, c);
    }
  }

  /** In every reachable state a public operation that nobody disturbs ends, and changes the shared members as
      CallResult says and in no other way. */
  lemma CallAlone(es: seq<Event>, i: nat, e: Event) returns (m: nat)
    requires i <= |es| && NoCloseWhileOpening(es, i) && e.t > READ_TASK && At(Exec(es, i), e.t) == Idle
    requires e.c.op == DoSend ==> WaitEnds(Exec(es, i).sh, e.c.timeout)
    ensures AloneFrom(es, i, e, m, To(CallResult(Exec(es, i).sh, e.c), Idle))
  {
    RunsAreSafe(es, i);
    var g := Exec(es, i).sh;
    hide Exec, At, EndsIn, CallResult, AloneFrom;
    CallEnds(g, e.t, e.c);
    m := EndsInRun(es, i, e, To(CallResult(g, e.c), Idle));
  }

  /** A task that is started runs its loop, and is no longer stopped. */
  lemma TaskStarts(es: seq<Event>, i: nat, e: Event) returns (m: nat)
    requires i <= |es| && At(Exec(es, i), e.t) == Idle && e.c.op == DoTask
    ensures AloneFrom(es, i, e, m,
      if e.t == RECONNECT_TASK then To(Exec(es, i).sh.(rcStop := false), RcRunning)
      else if e.t == READ_TASK then To(Exec(es, i).sh.(stop := false), ReadIsOpened)
      else To(Exec(es, i).sh, Idle))
  {
    var g := Exec(es, i).sh;
    var out := Act(g, e.t, Idle, e.c);
    LastStep(g, e.t, Idle, e.c, out);
    hide Exec, At, EndsIn, AloneFrom;
    m := EndsInRun(es, i, e, out);
  }

  /** And so does a round of the read loop or of the reconnect loop. */
  lemma RoundAlone(es: seq<Event>, i: nat, e: Event) returns (m: nat)
    requires i <= |es| && NoCloseWhileOpening(es, i)
    requires At(Exec(es, i), e.t) == ReadIsOpened || At(Exec(es, i), e.t) == RcRunning
    requires At(Exec(es, i), e.t) == ReadIsOpened ==> WaitEnds(Exec(es, i).sh, e.c.timeout)
    ensures AloneFrom(es, i, e, m, if At(Exec(es, i), e.t) == ReadIsOpened then ReadRound(Exec(es, i).sh, e.c)
                                   else ReconnectRound(Exec(es, i).sh, e.c))
  {
    RunsAreSafe(es, i);
    var g, pc := Exec(es, i).sh, At(Exec(es, i), e.t);
    hide Exec, At, EndsIn, ReadRound, ReconnectRound, AloneFrom;
    if pc == ReadIsOpened {
      ReadRoundEnds(g, e.t, e.c);
      m := EndsInRun(es, i, e, ReadRound(g, e.c));
    } else {
      ReconnectRoundEnds(g, e.t, e.c);
      m := EndsInRun(es, i, e, ReconnectRound(g, e.c));
    }
  }
}
