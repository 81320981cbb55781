/** What each call of the SX128x driver does in every interleaving: its effects in order, the operating mode it
    leaves, its transfers and the interrupt flags it clears. */
module RadioCalls {
  import opened Common
  import opened RadioDriver

  // ------------------------------------------------------------------ what a call does, whoever else is moving

  /** What an instruction does outside the two locks, whether IOLock2 was held meanwhile, and whether the chip was
      ready after a busy wait. */
  datatype Effect =
    | Waited(ready: bool)
    | Sent(command: Command, guarded: bool)
    | Drove(line: Line, guarded: bool)
    | Assigned(mode: OperatingMode, guarded: bool)
    | Dispatched

  /** Thread t executes its next instruction at step k. */
  predicate Executes(es: seq<Event>, k: nat, t: Tid)
    requires k < |es|
  {
    es[k].Run? && es[k].t == t && Enabled(Exec(es, k), t)
  }

  function Effects(head: Instr, guarded: bool): seq<Effect> {
    match head
    case Acquire(_) => []
    case Release(_) => []
    case WaitOnBusy => [Waited(true)]
    case Spi(command) => [Sent(command, guarded)]
    case Local(line) => [Drove(line, guarded)]
    case SetMode(mode) => [Assigned(mode, guarded)]
    case Dispatch => [Effect.Dispatched]
  }

  /** The effects of thread t's next instruction, with the lock and the BUSY pin as they really are. */
  function StepEffects(s: State, t: Tid): seq<Effect>
    requires At(s, t).todo.Do?
  {
    if At(s, t).todo.head == WaitOnBusy then [Waited(!s.busy)]
    else Effects(At(s, t).todo.head, s.io2 == Some(t))
  }

  /** The effects thread t had in steps i .. n - 1. */
  function Trace(es: seq<Event>, i: nat, n: nat, t: Tid): seq<Effect>
    requires i <= n <= |es|
  {
    if i == n then [] else
      Trace(es, i, n - 1, t)
      + if Executes(es, n - 1, t) then StepEffects(Exec(es, n - 1), t) else []
  }

  function Exchange(command: Command, guarded: bool): seq<Effect> {
    [Waited(true), Sent(command, guarded), Waited(true)]
  }

  function Exchanges(n: nat): seq<Effect> {
    if n == 0 then [] else Exchange(OtherCommand, false) + Exchanges(n - 1)
  }

  /** Taking the radio to this mode: old flags are cleared first, the line of the amplifier is turned while
      nobody else changes the mode, and the mode is assigned after the command. */
  function SwitchEffects(mode: OperatingMode, off: Line, on: Line, ranging: bool): seq<Effect> {
    Exchange(ClearIrqStatus, true) + (if ranging then Exchange(OtherCommand, true) else [])
    + [Drove(off, true), Drove(on, true)] + Exchange(OtherCommand, true) + [Assigned(mode, true)]
  }

  /** What each call of the driver does, in order. */
  function CallEffects(call: Call): seq<Effect> {
    match call
    case Transactions(n) => Exchanges(n)
    case TransactionThen(mode) => Exchange(OtherCommand, false) + [Assigned(mode, false)]
    case ClearFlags => Exchange(ClearIrqStatus, false)
    case SetSleep => [Assigned(SleepMode, false), Waited(true), Sent(OtherCommand, false)]
    case Reset => [Drove(ResetLow, false), Drove(ResetHigh, false)]
    case Wakeup => [Sent(OtherCommand, false), Waited(true)]
    case SetStandby => Exchange(OtherCommand, true) + [Assigned(StandbyMode, true)]
    case SetTx(ranging) => SwitchEffects(TxMode, PostRx, PreTx, ranging)
    case SetRx(ranging) => SwitchEffects(RxMode, PostTx, PreRx, ranging)
    case SetRxDutyCycle =>
      [Drove(PostTx, false), Drove(PreRx, false)] + Exchange(OtherCommand, false) + [Assigned(RxMode, false)]
    case SetCad =>
      [Drove(PostTx, true), Drove(PreRx, true)] + Exchange(OtherCommand, true) + [Assigned(CadMode, true)]
    case SetTxContinuous => [Drove(PostRx, true), Drove(PreTx, true)] + Exchange(OtherCommand, true)
    case SendPayload(ranging) =>
      Exchange(OtherCommand, false) + SwitchEffects(TxMode, PostRx, PreTx, ranging)
    case ProcessIrqs => Exchange(GetIrqStatus, true) + Exchange(ClearIrqStatus, true) + [Effect.Dispatched]
  }

  /** The effects a program has from a point where IOLock2 is held or not, if its callbacks make no calls. */
  function Owed(p: Program, io2: bool): seq<Effect> {
    match p
    case Done => []
    case Do(head, rest) =>
      Effects(head, io2)
      + Owed(rest, if head == Acquire(IOLock2) then true else if head == Release(IOLock2) then false else io2)
  }

  lemma OwedDo(head: Instr, rest: Program, io2: bool)
    ensures Owed(Do(head, rest), io2) ==
      match head
      case Acquire(l) => Owed(rest, io2 || l == IOLock2)
      case Release(l) => Owed(rest, io2 && l != IOLock2)
      case _ => Effects(head, io2) + Owed(rest, io2)
  {
  }

  lemma TransactionOwes(command: Command, k: Program, io2: bool)
    ensures Owed(Transaction(command, k), io2) == Exchange(command, io2) + Owed(k, io2)
  {
    hide Owed;
    var r := Do(WaitOnBusy, Do(Release(IOLock), k));
    OwedDo(Release(IOLock), k, io2);
    OwedDo(WaitOnBusy, Do(Release(IOLock), k), io2);
    OwedDo(Spi(command), r, io2);
    OwedDo(WaitOnBusy, Do(Spi(command), r), io2);
    OwedDo(Acquire(IOLock), Do(WaitOnBusy, Do(Spi(command), r)), io2);
  }

  lemma Regroup(a: seq<Effect>, b: seq<Effect>, c: seq<Effect>)
    ensures a + (b + c) == a + b + c
  {
  }

  lemma {:induction false} RepeatOwes(n: nat, k: Program)
    ensures Owed(Repeat(n, k), false) == Exchanges(n) + Owed(k, false)
  {
    hide Owed, Transaction, Exchange;
    if n > 0 {
      RepeatOwes(n - 1, k);
      TransactionOwes(OtherCommand, Repeat(n - 1, k), false);
      Regroup(Exchange(OtherCommand, false), Exchanges(n - 1), Owed(k, false));
    }
  }

  lemma TurnOwes(tx: bool, k: Program, io2: bool)
    ensures Owed(Turn(tx, k), io2)
         == [Drove(if tx then PostRx else PostTx, io2), Drove(if tx then PreTx else PreRx, io2)] + Owed(k, io2)
  {
    hide Owed;
    var first, second := if tx then PostRx else PostTx, if tx then PreTx else PreRx;
    OwedDo(Local(first), Do(Local(second), k), io2);
    OwedDo(Local(second), k, io2);
  }

  /** The command that ends a call under IOLock2, and the assignment after it, if any. */
  lemma EndOwes(assign: bool, mode: OperatingMode, k: Program)
    ensures var r := Do(Release(IOLock2), k);
      Owed(Transaction(OtherCommand, if assign then Do(SetMode(mode), r) else r), true)
      == Exchange(OtherCommand, true) + (if assign then [Assigned(mode, true)] else []) + Owed(k, false)
  {
    hide Owed, Transaction, Exchange;
    var r := Do(Release(IOLock2), k);
    OwedDo(Release(IOLock2), k, true);
    OwedDo(SetMode(mode), r, true);
    TransactionOwes(OtherCommand, if assign then Do(SetMode(mode), r) else r, true);
  }

  lemma TurnEndOwes(mode: OperatingMode, k: Program)
    ensures var tx := mode == TxMode;
      Owed(Turn(tx, Transaction(OtherCommand, Do(SetMode(mode), Do(Release(IOLock2), k)))), true)
      == [Drove(if tx then PostRx else PostTx, true), Drove(if tx then PreTx else PreRx, true)]
         + Exchange(OtherCommand, true) + [Assigned(mode, true)] + Owed(k, false)
  {
    hide Owed, Transaction, Turn, Exchange;
    TurnOwes(mode == TxMode, Transaction(OtherCommand, Do(SetMode(mode), Do(Release(IOLock2), k))), true);
    EndOwes(true, mode, k);
  }

  lemma TransmitOwes(mode: OperatingMode, ranging: bool, k: Program)
    requires mode == TxMode || mode == RxMode
    ensures Owed(Transmit(mode, ranging, k), false)
         == SwitchEffects(mode, if mode == TxMode then PostRx else PostTx, if mode == TxMode then PreTx else PreRx,
                          ranging) + Owed(k, false)
  {
    var hooks := Turn(mode == TxMode, Transaction(OtherCommand, Do(SetMode(mode), Do(Release(IOLock2), k))));
    var all := if ranging then Transaction(OtherCommand, hooks) else hooks;
    assert Transmit(mode, ranging, k) == Do(Acquire(IOLock2), Transaction(ClearIrqStatus, all));
    hide Owed, Transaction, Turn, Transmit, Exchange;
    OwedDo(Acquire(IOLock2), Transaction(ClearIrqStatus, all), false);
    TransactionOwes(ClearIrqStatus, all, true);
    var role := if ranging then Exchange(OtherCommand, true) else [];
    var turned := if mode == TxMode then [Drove(PostRx, true), Drove(PreTx, true)]
                  else [Drove(PostTx, true), Drove(PreRx, true)];
    var last := [Assigned(mode, true)];
    TurnEndOwes(mode, k);
    assert Owed(all, true) == role + Owed(hooks, true) by {
      if ranging {
        TransactionOwes(OtherCommand, hooks, true);
      }
    }
    Gather(Exchange(ClearIrqStatus, true), role, turned, Exchange(OtherCommand, true), last, Owed(k, false));
  }

  lemma Gather(a: seq<Effect>, b: seq<Effect>, c: seq<Effect>, d: seq<Effect>, e: seq<Effect>, k: seq<Effect>)
    ensures a + (b + (c + d + e + k)) == a + b + c + d + e + k
  {
    Regroup(b, c + d + e, k);
    Regroup(b, c + d, e);
    Regroup(b, c, d);
    Regroup(a, b + c + d + e, k);
    Regroup(a, b + c + d, e);
    Regroup(a, b + c, d);
    Regroup(a, b, c);
  }

  lemma ProcessIrqsOwes(k: Program)
    ensures Owed(Body(ProcessIrqs, k), false) == CallEffects(ProcessIrqs) + Owed(k, false)
  {
    var end := Do(Release(IOLock2), Do(Dispatch, k));
    var all := Transaction(GetIrqStatus, Transaction(ClearIrqStatus, end));
    hide Owed, Transaction;
    OwedDo(Dispatch, k, false);
    OwedDo(Release(IOLock2), Do(Dispatch, k), true);
    TransactionOwes(ClearIrqStatus, end, true);
    TransactionOwes(GetIrqStatus, Transaction(ClearIrqStatus, end), true);
    OwedDo(Acquire(IOLock2), all, false);
  }

  lemma SleepOwes(k: Program)
    ensures Owed(Body(SetSleep, k), false) == CallEffects(SetSleep) + Owed(k, false)
  {
    var p := Do(Spi(OtherCommand), Do(Release(IOLock), k));
    hide Owed;
    OwedDo(Release(IOLock), k, false);
    OwedDo(Spi(OtherCommand), Do(Release(IOLock), k), false);
    OwedDo(WaitOnBusy, p, false);
    OwedDo(Acquire(IOLock), Do(WaitOnBusy, p), false);
    OwedDo(SetMode(SleepMode), Do(Acquire(IOLock), Do(WaitOnBusy, p)), false);
  }

  lemma ResetOwes(k: Program)
    ensures Owed(Body(Reset, k), false) == CallEffects(Reset) + Owed(k, false)
  {
    var p := Do(Local(ResetHigh), Do(Release(IOLock), k));
    hide Owed;
    OwedDo(Release(IOLock), k, false);
    OwedDo(Local(ResetHigh), Do(Release(IOLock), k), false);
    OwedDo(Local(ResetLow), p, false);
    OwedDo(Acquire(IOLock), Do(Local(ResetLow), p), false);
  }

  lemma WakeupOwes(k: Program)
    ensures Owed(Body(Wakeup, k), false) == CallEffects(Wakeup) + Owed(k, false)
  {
    var p := Do(WaitOnBusy, Do(Release(IOLock), k));
    hide Owed;
    OwedDo(Release(IOLock), k, false);
    OwedDo(WaitOnBusy, Do(Release(IOLock), k), false);
    OwedDo(Spi(OtherCommand), p, false);
    OwedDo(Acquire(IOLock), Do(Spi(OtherCommand), p), false);
  }

  /** SetFs, SetCadParams and SetRxDutyCycle assign the mode with no lock held. */
  lemma UnlockedOwes(call: Call, k: Program)
    requires call.TransactionThen? || call.SetRxDutyCycle?
    ensures Owed(Body(call, k), false) == CallEffects(call) + Owed(k, false)
  {
    hide Owed, Transaction, Turn, Exchange;
    var mode := if call.TransactionThen? then call.mode else RxMode;
    var end := Do(SetMode(mode), k);
    OwedDo(SetMode(mode), k, false);
    TransactionOwes(OtherCommand, end, false);
    TurnOwes(false, Transaction(OtherCommand, end), false);
  }

  /** SetStandby, SetCad and SetTxContinuous. */
  lemma LockedOwes(call: Call, k: Program)
    requires call.SetStandby? || call.SetCad? || call.SetTxContinuous?
    ensures Owed(Body(call, k), false) == CallEffects(call) + Owed(k, false)
  {
    hide Owed, Transaction, Turn, Exchange;
    var mode := if call.SetCad? then CadMode else StandbyMode;
    var r := Do(Release(IOLock2), k);
    var end := Transaction(OtherCommand, if call.SetTxContinuous? then r else Do(SetMode(mode), r));
    EndOwes(!call.SetTxContinuous?, mode, k);
    TurnOwes(call.SetTxContinuous?, end, true);
    OwedDo(Acquire(IOLock2), if call.SetStandby? then end else Turn(call.SetTxContinuous?, end), false);
  }

  lemma CallOwes(call: Call, k: Program)
    ensures Owed(Body(call, k), false) == CallEffects(call) + Owed(k, false)
  {
    hide Owed;
    match call
    case Transactions(n) => RepeatOwes(n, k);
    case ClearFlags => TransactionOwes(ClearIrqStatus, k, false);
    case SetTx(ranging) => TransmitOwes(TxMode, ranging, k);
    case SetRx(ranging) => TransmitOwes(RxMode, ranging, k);
    case SendPayload(ranging) =>
      TransmitOwes(TxMode, ranging, k);
      TransactionOwes(OtherCommand, Transmit(TxMode, ranging, k), false);
    case ProcessIrqs => ProcessIrqsOwes(k);
    case SetSleep => SleepOwes(k);
    case Reset => ResetOwes(k);
    case Wakeup => WakeupOwes(k);
    case TransactionThen(_) => UnlockedOwes(call, k);
    case SetRxDutyCycle => UnlockedOwes(call, k);
    case _ => LockedOwes(call, k);
  }

  /** The dispatches that thread t executes in steps i .. n - 1 call back no one who calls the driver. */
  ghost predicate CallbacksMakeNoCalls(es: seq<Event>, i: nat, n: nat, t: Tid)
    requires n <= |es|
  {
    forall k :: i <= k < n && Executes(es, k, t) && At(Exec(es, k), t).todo.head == Dispatch ==> es[k].calls == []
  }

  /** What thread t has left to do at step n. */
  function Left(es: seq<Event>, n: nat, t: Tid): seq<Effect>
    requires n <= |es|
  {
    Owed(At(Exec(es, n), t).todo, Exec(es, n).io2 == Some(t))
  }

  lemma OwnStepPays(s: State, t: Tid, calls: seq<Call>)
    requires Inv(s) && Enabled(s, t) && (At(s, t).todo.head == Dispatch ==> calls == [])
    ensures var s' := Execute(s, t, calls);
      Owed(At(s, t).todo, s.io2 == Some(t))
      == Effects(At(s, t).todo.head, s.io2 == Some(t)) + Owed(At(s', t).todo, s'.io2 == Some(t))
  {
    assert Obeys(At(s, t).todo, s.io == Some(t), s.io2 == Some(t), At(s, t).phase);
    hide Obeys, Inv, Unread, Body;
  }

  lemma OtherStepPays(s: State, e: Event, t: Tid)
    requires Inv(s) && !(e.Run? && e.t == t && Enabled(s, t)) && (e.Invoke? ==> e.t != t || At(s, t).todo.Do?)
    ensures At(Step(s, e), t).todo == At(s, t).todo && (Step(s, e).io2 == Some(t) <==> s.io2 == Some(t))
  {
    hide Body;
    if e.Run? && Enabled(s, e.t) {
      hide Execute;
      OthersHoldTheSame(s, e.t, e.calls, t);
    }
  }

  /** In every interleaving, what a thread has done and what it has left to do make up what it had to do. */
  lemma {:induction false} TraceIsOwed(es: seq<Event>, i: nat, n: nat, t: Tid)
    requires i <= n <= |es| && CallbacksMakeNoCalls(es, i, n, t)
    requires forall k :: i <= k < n ==> At(Exec(es, k), t).todo.Do?
    ensures Trace(es, i, n, t) + Left(es, n, t) == Left(es, i, t)
  {
    hide Step, Inv, Owed, Effects, Enabled, At;
    if i < n {
      TraceIsOwed(es, i, n - 1, t);
      RunsKeepInv(es, n - 1);
      var s := Exec(es, n - 1);
      TraceStep(es, i, n, t);
    }
  }

  lemma TraceGrows(es: seq<Event>, i: nat, n: nat, t: Tid)
    requires i < n <= |es|
    ensures Executes(es, n - 1, t) ==>
      && At(Exec(es, n - 1), t).todo.Do?
      && Trace(es, i, n, t) == Trace(es, i, n - 1, t)
                               + Effects(At(Exec(es, n - 1), t).todo.head, Exec(es, n - 1).io2 == Some(t))
    ensures !Executes(es, n - 1, t) ==> Trace(es, i, n, t) == Trace(es, i, n - 1, t)
  {
    hide Exec, At;
  }

  lemma OwnStepInRun(es: seq<Event>, n: nat, t: Tid)
    requires n < |es| && Executes(es, n, t) && Inv(Exec(es, n))
    requires At(Exec(es, n), t).todo.head == Dispatch ==> es[n].calls == []
    ensures Left(es, n, t) == Effects(At(Exec(es, n), t).todo.head, Exec(es, n).io2 == Some(t)) + Left(es, n + 1, t)
  {
    OwnStepPays(Exec(es, n), t, es[n].calls);
    hide Inv, Owed, Effects, Execute, Enabled, At;
    assert Exec(es, n + 1) == Execute(Exec(es, n), t, es[n].calls);
  }

  lemma OtherStepInRun(es: seq<Event>, n: nat, t: Tid)
    requires n < |es| && !Executes(es, n, t) && Inv(Exec(es, n)) && At(Exec(es, n), t).todo.Do?
    ensures Left(es, n, t) == Left(es, n + 1, t)
  {
    OtherStepPays(Exec(es, n), es[n], t);
    hide Inv, Owed, Effects, Step, Enabled, At;
  }

  lemma TraceStep(es: seq<Event>, i: nat, n: nat, t: Tid)
    requires i < n <= |es| && At(Exec(es, n - 1), t).todo.Do? && Inv(Exec(es, n - 1))
    requires Executes(es, n - 1, t) && At(Exec(es, n - 1), t).todo.head == Dispatch ==> es[n - 1].calls == []
    ensures Trace(es, i, n, t) + Left(es, n, t) == Trace(es, i, n - 1, t) + Left(es, n - 1, t)
  {
    hide Trace, Left, Executes, Exec, At, Effects, Inv;
    TraceGrows(es, i, n, t);
    if Executes(es, n - 1, t) {
      OwnStepInRun(es, n - 1, t);
      Regroup(Trace(es, i, n - 1, t), Effects(At(Exec(es, n - 1), t).todo.head, Exec(es, n - 1).io2 == Some(t)),
              Left(es, n, t));
    } else {
      OtherStepInRun(es, n - 1, t);
    }
  }

  /** Thread t is called at step i and its call is over at step n, for the first time; nobody whom it calls back
      calls the driver. */
  ghost predicate CallRuns(es: seq<Event>, i: nat, n: nat, t: Tid, call: Call) {
    && i < n <= |es| && es[i] == Invoke(t, call)
    && At(Exec(es, i), t).todo.Done? && At(Exec(es, n), t).todo.Done?
    && (forall k :: i < k < n ==> At(Exec(es, k), t).todo.Do?)
    && CallbacksMakeNoCalls(es, i, n, t)
  }

  lemma NoLocksWhenDone(es: seq<Event>, n: nat, t: Tid)
    requires n <= |es| && At(Exec(es, n), t).todo.Done?
    ensures Exec(es, n).io != Some(t) && Exec(es, n).io2 != Some(t) && At(Exec(es, n), t).phase == NoFlags
  {
    RunsKeepInv(es, n);
    var s := Exec(es, n);
    assert Obeys(At(s, t).todo, s.io == Some(t), s.io2 == Some(t), At(s, t).phase);
  }

  lemma InvokeStarts(es: seq<Event>, i: nat, t: Tid, call: Call)
    requires i < |es| && es[i] == Invoke(t, call) && At(Exec(es, i), t).todo.Done?
    ensures At(Exec(es, i + 1), t) == At(Exec(es, i), t).(todo := Body(call, Done))
    ensures Exec(es, i + 1) == Put(Exec(es, i), t, At(Exec(es, i + 1), t))
  {
    hide Body;
  }

  /** A stretch of thread t's program, from the start of a call to what comes after it, has the call's effects. */
  lemma StretchDoes(es: seq<Event>, i: nat, n: nat, t: Tid, call: Call, k: Program)
    requires i <= n <= |es| && CallbacksMakeNoCalls(es, i, n, t)
    requires forall l :: i <= l < n ==> At(Exec(es, l), t).todo.Do?
    requires At(Exec(es, i), t).todo == Body(call, k) && At(Exec(es, n), t).todo == k
    requires Exec(es, i).io2 != Some(t) && Exec(es, n).io2 != Some(t)
    ensures Trace(es, i, n, t) == CallEffects(call)
  {
    hide Exec, At, Trace, Owed, Body, CallEffects;
    TraceIsOwed(es, i, n, t);
    CallOwes(call, k);
    Cancel(Trace(es, i, n, t), CallEffects(call), Owed(k, false));
  }

  lemma Cancel(a: seq<Effect>, b: seq<Effect>, c: seq<Effect>)
    requires a + c == b + c
    ensures a == b
  {
    assert a == (a + c)[..|a|] && b == (b + c)[..|b|];
  }

  /** In every interleaving a call has exactly its effects, in order and under the lock it should hold. */
  lemma CallDoes(es: seq<Event>, i: nat, n: nat, t: Tid, call: Call)
    requires CallRuns(es, i, n, t, call)
    ensures Trace(es, i, n, t) == CallEffects(call)
  {
    hide Exec, At, Owed, Body, CallEffects;
    InvokeStarts(es, i, t, call);
    NoLocksWhenDone(es, i, t);
    NoLocksWhenDone(es, n, t);
    StretchDoes(es, i + 1, n, t, call, Done);
    hide Trace;
    TraceJoins(es, i, i + 1, n, t);
  }

  lemma {:induction false} TraceJoins(es: seq<Event>, i: nat, j: nat, n: nat, t: Tid)
    requires i <= j <= n <= |es|
    ensures Trace(es, i, n, t) == Trace(es, i, j, t) + Trace(es, j, n, t)
  {
    hide Executes, StepEffects, Exec, At;
    if j < n {
      TraceJoins(es, i, j, n - 1, t);
    }
  }

  // The mode.

  /** The last mode assigned, or the one before. */
  function LastAssigned(effects: seq<Effect>, mode: OperatingMode): OperatingMode {
    if effects == [] then mode
    else if effects[|effects| - 1].Assigned? then effects[|effects| - 1].mode
    else LastAssigned(effects[..|effects| - 1], mode)
  }

  lemma {:induction false} LastAssignedJoins(a: seq<Effect>, b: seq<Effect>, mode: OperatingMode)
    ensures LastAssigned(a + b, mode) == LastAssigned(b, LastAssigned(a, mode))
  {
    if b == [] {
      assert a + b == a;
    } else {
      assert (a + b)[..|a + b| - 1] == a + b[..|b| - 1];
      LastAssignedJoins(a, b[..|b| - 1], mode);
    }
  }

  /** No thread but t assigns the mode in steps i .. n - 1. */
  ghost predicate OnlyAssigns(es: seq<Event>, i: nat, n: nat, t: Tid)
    requires n <= |es|
  {
    forall k :: i <= k < n && SetsMode(es, k) ==> es[k].t == t
  }

  lemma {:induction false} ModeIsLastAssigned(es: seq<Event>, i: nat, n: nat, t: Tid)
    requires i <= n <= |es| && OnlyAssigns(es, i, n, t)
    ensures Exec(es, n).mode == LastAssigned(Trace(es, i, n, t), Exec(es, i).mode)
  {
    hide Step, Exec, At, Trace, SetsMode, ModeSet, LastAssigned;
    if i < n {
      ModeIsLastAssigned(es, i, n - 1, t);
      ModeStep(es, n - 1);
      AssignedLast(es, i, n, t, Exec(es, i).mode);
    } else {
      NothingTraced(es, i, t, Exec(es, i).mode);
    }
  }

  lemma NothingTraced(es: seq<Event>, i: nat, t: Tid, mode: OperatingMode)
    requires i <= |es|
    ensures LastAssigned(Trace(es, i, i, t), mode) == mode
  {
  }

  lemma AssignedLast(es: seq<Event>, i: nat, n: nat, t: Tid, mode: OperatingMode)
    requires i < n <= |es| && (SetsMode(es, n - 1) ==> es[n - 1].t == t)
    ensures LastAssigned(Trace(es, i, n, t), mode)
         == if SetsMode(es, n - 1) then ModeSet(es, n - 1) else LastAssigned(Trace(es, i, n - 1, t), mode)
  {
    hide Exec, At, LastAssigned, Effects, Trace, SetsMode, ModeSet, Executes;
    TraceGrows(es, i, n, t);
    AssignsByExecuting(es, n - 1, t);
    if Executes(es, n - 1, t) {
      LastOfMore(Trace(es, i, n - 1, t), At(Exec(es, n - 1), t).todo.head, Exec(es, n - 1).io2 == Some(t), mode);
    }
  }

  lemma AssignsByExecuting(es: seq<Event>, k: nat, t: Tid)
    requires k < |es| && (SetsMode(es, k) ==> es[k].t == t)
    ensures Executes(es, k, t) ==> At(Exec(es, k), t).todo.Do?
    ensures SetsMode(es, k) <==> Executes(es, k, t) && At(Exec(es, k), t).todo.head.SetMode?
    ensures SetsMode(es, k) ==> ModeSet(es, k) == At(Exec(es, k), t).todo.head.mode
  {
    hide Exec, At;
  }

  lemma LastOfMore(trace: seq<Effect>, head: Instr, guarded: bool, mode: OperatingMode)
    ensures LastAssigned(trace + Effects(head, guarded), mode)
         == if head.SetMode? then head.mode else LastAssigned(trace, mode)
  {
    var e := Effects(head, guarded);
    LastAssignedJoins(trace, e, mode);
    if |e| == 1 {
      assert e[..0] == [];
    }
  }

  /** The mode in which each call leaves a driver that was in this mode. */
  function ModeAfter(call: Call, mode: OperatingMode): OperatingMode {
    match call
    case SendPayload(_) => TxMode
    case SetTx(_) => TxMode
    case SetRx(_) => RxMode
    case SetRxDutyCycle => RxMode
    case SetStandby => StandbyMode
    case SetCad => CadMode
    case SetSleep => SleepMode
    case TransactionThen(m) => m
    case _ => mode
  }

  lemma {:induction false} ExchangesAssignNothing(n: nat, mode: OperatingMode)
    ensures LastAssigned(Exchanges(n), mode) == mode
  {
    if n > 0 {
      ExchangesAssignNothing(n - 1, mode);
      ExchangeAssigns(OtherCommand, false, mode);
      LastAssignedJoins(Exchange(OtherCommand, false), Exchanges(n - 1), mode);
    }
  }

  lemma ExchangeAssigns(command: Command, guarded: bool, mode: OperatingMode)
    ensures LastAssigned(Exchange(command, guarded), mode) == mode
  {
    NothingAssigned(Exchange(command, guarded), mode);
  }

  lemma CallAssigns(call: Call, mode: OperatingMode)
    ensures LastAssigned(CallEffects(call), mode) == ModeAfter(call, mode)
  {
    hide LastAssigned;
    match call
    case Transactions(n) => ExchangesAssignNothing(n, mode);
    case ClearFlags => ExchangeAssigns(ClearIrqStatus, false, mode);
    case SetSleep => SleepAssigns(mode);
    case Reset => NothingAssigned(CallEffects(call), mode);
    case Wakeup => NothingAssigned(CallEffects(call), mode);
    case SetTxContinuous => NothingAssigned(CallEffects(call), mode);
    case ProcessIrqs => NothingAssigned(CallEffects(call), mode);
    case _ => LastIsAssigned(call, mode);
  }

  lemma {:induction false} NothingAssigned(e: seq<Effect>, mode: OperatingMode)
    requires forall x <- e :: !x.Assigned?
    ensures LastAssigned(e, mode) == mode
  {
    if e != [] {
      NothingAssigned(e[..|e| - 1], mode);
    }
  }

  lemma SleepAssigns(mode: OperatingMode)
    ensures LastAssigned(CallEffects(SetSleep), mode) == SleepMode
  {
    var rest := [Waited(true), Sent(OtherCommand, false)];
    assert [] + [Assigned(SleepMode, false)] == [Assigned(SleepMode, false)];
    LastAssignedJoins([Assigned(SleepMode, false)], rest, mode);
    NothingAssigned(rest, SleepMode);
    assert CallEffects(SetSleep) == [Assigned(SleepMode, false)] + rest;
  }

  lemma LastIsAssigned(call: Call, mode: OperatingMode)
    requires !call.Transactions? && !call.ClearFlags? && !call.SetSleep? && !call.Reset? && !call.Wakeup?
    requires !call.SetTxContinuous? && !call.ProcessIrqs?
    ensures LastAssigned(CallEffects(call), mode) == ModeAfter(call, mode)
  {
    hide Exchange;
    var e := CallEffects(call);
    assert e[|e| - 1].Assigned?;
  }

  /** Every call, in every interleaving: when no other thread assigns the mode meanwhile, the call leaves the
      driver in its mode. */
  lemma CallLeavesMode(es: seq<Event>, i: nat, n: nat, t: Tid, call: Call)
    requires CallRuns(es, i, n, t, call) && OnlyAssigns(es, i, n, t)
    ensures Exec(es, n).mode == ModeAfter(call, Exec(es, i).mode)
  {
    hide Exec, LastAssigned, CallEffects, ModeAfter;
    CallDoes(es, i, n, t, call);
    ModeIsLastAssigned(es, i, n, t);
    CallAssigns(call, Exec(es, i).mode);
  }

  // The transfers.

  /** Thread t transfers at step k. */
  predicate Transfers(es: seq<Event>, k: nat, t: Tid)
    requires k < |es|
  {
    Executes(es, k, t) && At(Exec(es, k), t).todo.head.Spi?
  }

  function TransfersMade(es: seq<Event>, i: nat, n: nat, t: Tid): nat
    requires i <= n <= |es|
  {
    if i == n then 0 else TransfersMade(es, i, n - 1, t) + One(Transfers(es, n - 1, t))
  }

  function SentIn(effects: seq<Effect>): nat {
    if effects == [] then 0 else SentIn(effects[..|effects| - 1]) + One(effects[|effects| - 1].Sent?)
  }

  lemma {:induction false} SentJoins(a: seq<Effect>, b: seq<Effect>)
    ensures SentIn(a + b) == SentIn(a) + SentIn(b)
  {
    if b == [] {
      assert a + b == a;
    } else {
      assert (a + b)[..|a + b| - 1] == a + b[..|b| - 1];
      SentJoins(a, b[..|b| - 1]);
    }
  }

  lemma {:induction false} TransfersAreSent(es: seq<Event>, i: nat, n: nat, t: Tid)
    requires i <= n <= |es|
    ensures TransfersMade(es, i, n, t) == SentIn(Trace(es, i, n, t))
  {
    hide Exec, At, SentIn;
    if i < n {
      TransfersAreSent(es, i, n - 1, t);
      TraceGrows(es, i, n, t);
      hide Trace;
      if Executes(es, n - 1, t) {
        var head, guarded := At(Exec(es, n - 1), t).todo.head, Exec(es, n - 1).io2 == Some(t);
        SentJoins(Trace(es, i, n - 1, t), Effects(head, guarded));
        SentOfOne(head, guarded);
      }
    } else {
      SentOfNone();
    }
  }

  lemma SentOfNone()
    ensures SentIn([]) == 0
  {
  }

  lemma SentOfOne(head: Instr, guarded: bool)
    ensures SentIn(Effects(head, guarded)) == One(head.Spi?)
  {
    var e := Effects(head, guarded);
    if |e| == 1 {
      assert e[..0] == [];
    }
  }

  /** How many SPI transfers each call makes. */
  function TransferCount(call: Call): nat {
    match call
    case Transactions(n) => n
    case Reset => 0
    case SetTx(ranging) => 2 + One(ranging)
    case SetRx(ranging) => 2 + One(ranging)
    case SendPayload(ranging) => 3 + One(ranging)
    case ProcessIrqs => 2
    case _ => 1
  }

  lemma SentExchange(command: Command, guarded: bool)
    ensures SentIn(Exchange(command, guarded)) == 1
  {
    SentOnce([Waited(true)], Sent(command, guarded), [Waited(true)], Exchange(command, guarded));
  }

  lemma {:induction false} SentExchanges(n: nat)
    ensures SentIn(Exchanges(n)) == n
  {
    hide SentIn, Exchange;
    if n > 0 {
      SentExchanges(n - 1);
      SentExchange(OtherCommand, false);
      SentJoins(Exchange(OtherCommand, false), Exchanges(n - 1));
    } else {
      SentOfNone();
    }
  }

  lemma {:induction false} SentNone(e: seq<Effect>)
    requires forall x <- e :: !x.Sent?
    ensures SentIn(e) == 0
  {
    if e != [] {
      SentNone(e[..|e| - 1]);
    }
  }

  lemma SentSwitch(mode: OperatingMode, off: Line, on: Line, ranging: bool)
    ensures SentIn(SwitchEffects(mode, off, on, ranging)) == 2 + One(ranging)
  {
    hide SentIn, Exchange;
    var clear, other := Exchange(ClearIrqStatus, true), Exchange(OtherCommand, true);
    var role := if ranging then other else [];
    var turned, last := [Drove(off, true), Drove(on, true)], [Assigned(mode, true)];
    SentExchange(ClearIrqStatus, true);
    SentExchange(OtherCommand, true);
    SentOfNone();
    SentNone(turned);
    SentNone(last);
    SentJoins(clear, role);
    SentJoins(clear + role, turned);
    SentJoins(clear + role + turned, other);
    SentJoins(clear + role + turned + other, last);
  }

  lemma SentByCall(call: Call)
    ensures SentIn(CallEffects(call)) == TransferCount(call)
  {
    hide SentIn, Exchange, Exchanges, SwitchEffects;
    SentExchange(OtherCommand, false);
    SentExchange(OtherCommand, true);
    match call
    case Transactions(n) => SentExchanges(n);
    case ClearFlags => SentExchange(ClearIrqStatus, false);
    case TransactionThen(mode) =>
      SentNone([Assigned(mode, false)]);
      SentJoins(Exchange(OtherCommand, false), [Assigned(mode, false)]);
    case SetSleep =>
      SentOnce([Assigned(SleepMode, false), Waited(true)], Sent(OtherCommand, false), [], CallEffects(SetSleep));
    case Reset => SentNone(CallEffects(Reset));
    case Wakeup => SentOnce([], Sent(OtherCommand, false), [Waited(true)], CallEffects(Wakeup));
    case SetStandby =>
      SentNone([Assigned(StandbyMode, true)]);
      SentJoins(Exchange(OtherCommand, true), [Assigned(StandbyMode, true)]);
    case SetTx(ranging) => SentSwitch(TxMode, PostRx, PreTx, ranging);
    case SetRx(ranging) => SentSwitch(RxMode, PostTx, PreRx, ranging);
    case SetRxDutyCycle => SentAround([Drove(PostTx, false), Drove(PreRx, false)], false, [Assigned(RxMode, false)]);
    case SetCad => SentAround([Drove(PostTx, true), Drove(PreRx, true)], true, [Assigned(CadMode, true)]);
    case SetTxContinuous =>
      SentNone([Drove(PostRx, true), Drove(PreTx, true)]);
      SentJoins([Drove(PostRx, true), Drove(PreTx, true)], Exchange(OtherCommand, true));
    case SendPayload(ranging) =>
      SentSwitch(TxMode, PostRx, PreTx, ranging);
      SentJoins(Exchange(OtherCommand, false), SwitchEffects(TxMode, PostRx, PreTx, ranging));
    case ProcessIrqs =>
      SentExchange(GetIrqStatus, true);
      SentExchange(ClearIrqStatus, true);
      SentNone([Effect.Dispatched]);
      SentJoins(Exchange(GetIrqStatus, true), Exchange(ClearIrqStatus, true));
      SentJoins(Exchange(GetIrqStatus, true) + Exchange(ClearIrqStatus, true), [Effect.Dispatched]);
  }

  lemma SentOnce(a: seq<Effect>, sent: Effect, b: seq<Effect>, e: seq<Effect>)
    requires (forall x <- a + b :: !x.Sent?) && sent.Sent? && e == a + [sent] + b
    ensures SentIn(e) == 1
  {
    var one := [sent];
    assert one[..0] == [] && SentIn(one) == 1;
    SentNone(a);
    SentNone(b);
    SentJoins(a, one);
    SentJoins(a + one, b);
  }

  lemma SentAround(a: seq<Effect>, guarded: bool, b: seq<Effect>)
    requires forall x <- a + b :: !x.Sent?
    ensures SentIn(a + Exchange(OtherCommand, guarded) + b) == 1
  {
    SentExchange(OtherCommand, guarded);
    hide SentIn, Exchange;
    SentNone(a);
    SentNone(b);
    SentJoins(a, Exchange(OtherCommand, guarded));
    SentJoins(a + Exchange(OtherCommand, guarded), b);
  }

  /** Every call, in every interleaving, makes this many SPI transfers. */
  lemma CallTransfers(es: seq<Event>, i: nat, n: nat, t: Tid, call: Call)
    requires CallRuns(es, i, n, t, call)
    ensures TransfersMade(es, i, n, t) == TransferCount(call)
  {
    hide Exec, SentIn, CallEffects, TransferCount;
    CallDoes(es, i, n, t, call);
    TransfersAreSent(es, i, n, t);
    SentByCall(call);
  }

  // The flags.

  /** Thread t clears the chip's flags at step k. */
  predicate Clears(es: seq<Event>, k: nat, t: Tid)
    requires k < |es|
  {
    Executes(es, k, t) && At(Exec(es, k), t).todo.head == Spi(ClearIrqStatus)
  }

  predicate ClearEffect(e: Effect) {
    e.Sent? && e.command == ClearIrqStatus
  }

  lemma {:induction false} ClearsAreTraced(es: seq<Event>, i: nat, n: nat, t: Tid)
    requires i <= n <= |es|
    ensures (exists k :: i <= k < n && Clears(es, k, t)) <==> exists e <- Trace(es, i, n, t) :: ClearEffect(e)
  {
    hide Exec, At;
    if i < n {
      ClearsAreTraced(es, i, n - 1, t);
      TraceGrows(es, i, n, t);
      hide Trace;
      var a := Trace(es, i, n - 1, t);
      if Executes(es, n - 1, t) {
        var head := At(Exec(es, n - 1), t).todo.head;
        var b := Effects(head, Exec(es, n - 1).io2 == Some(t));
        assert (exists e <- b :: ClearEffect(e)) <==> head == Spi(ClearIrqStatus) by {
          if head == Spi(ClearIrqStatus) { assert ClearEffect(b[0]); }
        }
        assert (exists e <- a + b :: ClearEffect(e))
          <==> (exists e <- a :: ClearEffect(e)) || exists e <- b :: ClearEffect(e);
        assert (exists k :: i <= k < n && Clears(es, k, t))
          <==> (exists k :: i <= k < n - 1 && Clears(es, k, t)) || Clears(es, n - 1, t);
      } else {
        assert !Clears(es, n - 1, t);
      }
    }
  }

  predicate ClearsFlags(call: Call) {
    call.SetTx? || call.SetRx? || call.SendPayload? || call.ClearFlags? || call.ProcessIrqs?
  }

  lemma {:induction false} ExchangesClearNothing(n: nat)
    ensures forall e <- Exchanges(n) :: !ClearEffect(e)
  {
    if n > 0 {
      ExchangesClearNothing(n - 1);
    }
  }

  lemma CallClears(call: Call)
    ensures (exists e <- CallEffects(call) :: ClearEffect(e)) <==> ClearsFlags(call)
  {
    if call.Transactions? {
      ExchangesClearNothing(call.n);
    } else if ClearsFlags(call) {
      var at := if call.ClearFlags? || call.SetTx? || call.SetRx? then 1 else 4;
      assert ClearEffect(CallEffects(call)[at]);
    }
  }

  /** The flags raised after a clear are newer than the clear. */
  lemma {:induction false} RaisedAfterClear(es: seq<Event>, k: nat, n: nat, t: Tid)
    requires k < n <= |es| && Clears(es, k, t)
    ensures Exec(es, k).count <= Exec(es, n).count
    ensures forall f <- Exec(es, n).raised :: f >= Exec(es, k).count
  {
    FlagsStep(Exec(es, n - 1), es[n - 1]);
    hide Step, At, Enabled;
    if n > k + 1 {
      RaisedAfterClear(es, k, n - 1, t);
    }
  }

  /** What a step does to the raised flags. */
  lemma FlagsStep(s: State, e: Event)
    ensures var s' := Step(s, e);
      && s'.count == s.count + One(e == Raise)
      && s'.raised ==
        if e == Raise then s.raised + {s.count}
        else if e.Run? && Enabled(s, e.t) && At(s, e.t).todo.head == Spi(ClearIrqStatus) then {}
        else s.raised
  {
    hide Body, Bodies, Unread;
  }

  lemma {:induction false} CountGrows(es: seq<Event>, i: nat, n: nat)
    requires i <= n <= |es|
    ensures Exec(es, i).count <= Exec(es, n).count
  {
    if i < n {
      CountGrows(es, i, n - 1);
      FlagsStep(Exec(es, n - 1), es[n - 1]);
    }
  }

  /** SetTx, SetRx, SendPayload, ProcessIrqs and a plain clear, and no other calls, clear the raised flags; none
      that was raised before such a call is left after it. */
  lemma CallClearsExactly(es: seq<Event>, i: nat, n: nat, t: Tid, call: Call)
    requires CallRuns(es, i, n, t, call)
    ensures (exists k :: i <= k < n && Clears(es, k, t)) <==> ClearsFlags(call)
    ensures ClearsFlags(call) ==> forall f <- Exec(es, n).raised :: f >= Exec(es, i).count
  {
    hide Exec, CallEffects, Clears, ClearEffect;
    CallDoes(es, i, n, t, call);
    ClearsAreTraced(es, i, n, t);
    CallClears(call);
    if ClearsFlags(call) {
      var k :| i <= k < n && Clears(es, k, t);
      RaisedAfterClear(es, k, n, t);
      CountGrows(es, i, k);
    }
  }

  // A call that nobody disturbs.

  /** Nobody else holds a lock, and the chip is ready. */
  predicate FreeFor(s: State, t: Tid) {
    && (s.io == None || s.io == Some(t)) && (s.io2 == None || s.io2 == Some(t)) && !s.busy
  }

  lemma FreeStep(s: State, t: Tid)
    requires Inv(s) && FreeFor(s, t) && At(s, t).todo.Do?
    ensures Enabled(s, t) && FreeFor(Step(s, Run(t, [])), t)
    ensures At(Step(s, Run(t, [])), t).todo == At(s, t).todo.rest
  {
    assert Obeys(At(s, t).todo, s.io == Some(t), s.io2 == Some(t), At(s, t).phase);
    hide Obeys, Unread, Inv;
  }

  /** The call at step i, then m instructions of the same thread. */
  function CallThen(es: seq<Event>, i: nat, t: Tid, call: Call, m: nat): seq<Event>
    requires i <= |es|
  {
    es[..i] + [Invoke(t, call)] + seq(m, _ => Run(t, []))
  }

  lemma {:induction false} ExecPrefix(es: seq<Event>, fs: seq<Event>, n: nat)
    requires n <= |es| && n <= |fs| && es[..n] == fs[..n]
    ensures Exec(es, n) == Exec(fs, n)
  {
    hide Step;
    if n > 0 {
      assert es[..n - 1] == es[..n][..n - 1] && fs[..n - 1] == fs[..n][..n - 1];
      assert es[n - 1] == es[..n][n - 1] && fs[n - 1] == fs[..n][n - 1];
      ExecPrefix(es, fs, n - 1);
    }
  }

  function Length(p: Program): nat {
    if p.Done? then 0 else 1 + Length(p.rest)
  }

  lemma {:induction false} RunsOut(es: seq<Event>, i: nat, n: nat, t: Tid)
    requires i <= n <= |es| && FreeFor(Exec(es, i), t) && n - i <= Length(At(Exec(es, i), t).todo)
    requires forall k :: i <= k < n ==> es[k] == Run(t, [])
    ensures FreeFor(Exec(es, n), t) && Length(At(Exec(es, n), t).todo) == Length(At(Exec(es, i), t).todo) - (n - i)
  {
    hide Step, Inv, At, Enabled, FreeFor;
    if i < n {
      RunsOut(es, i, n - 1, t);
      RunsKeepInv(es, n - 1);
      assert At(Exec(es, n - 1), t).todo.Do?;
      FreeStep(Exec(es, n - 1), t);
    }
  }

  /** With nobody else in the driver, every call ends, with both locks free, in its mode, with the flags cleared
      if it clears them and as they were otherwise. */
  lemma CallAlone(es: seq<Event>, i: nat, t: Tid, call: Call) returns (m: nat)
    requires i <= |es| && At(Exec(es, i), t).todo.Done?
    requires Exec(es, i).io == None && Exec(es, i).io2 == None && !Exec(es, i).busy
    ensures var fs, n := CallThen(es, i, t, call, m), i + 1 + m;
      && Exec(fs, i) == Exec(es, i) && CallRuns(fs, i, n, t, call)
      && Exec(fs, n).io == None && Exec(fs, n).io2 == None
      && Exec(fs, n).mode == ModeAfter(call, Exec(es, i).mode)
      && Exec(fs, n).raised == if ClearsFlags(call) then {} else Exec(es, i).raised
  {
    hide Exec, At, Body, ModeAfter, ClearsFlags;
    m := Length(Body(call, Done));
    var fs, n := CallThen(es, i, t, call, m), i + 1 + m;
    assert es[..i] == fs[..i];
    ExecPrefix(es, fs, i);
    InvokeStarts(fs, i, t, call);
    hide CallThen;
    CallRunsAlone(fs, i, n, t, call);
    RaisedAlone(fs, i, n, t);
    CallClearsExactly(fs, i, n, t, call);
    CallLeavesMode(fs, i, n, t, call);
  }

  lemma CallRunsAlone(fs: seq<Event>, i: nat, n: nat, t: Tid, call: Call)
    requires i < n == |fs| == i + 1 + Length(Body(call, Done)) && fs[i] == Invoke(t, call)
    requires forall k :: i < k < n ==> fs[k] == Run(t, [])
    requires At(Exec(fs, i), t).todo.Done? && At(Exec(fs, i + 1), t).todo == Body(call, Done)
    requires FreeFor(Exec(fs, i + 1), t)
    ensures CallRuns(fs, i, n, t, call) && OnlyAssigns(fs, i, n, t)
    ensures Exec(fs, n).io == None && Exec(fs, n).io2 == None
  {
    hide Exec, At, Body, Enabled;
    RunsOut(fs, i + 1, n, t);
    forall k | i < k < n ensures At(Exec(fs, k), t).todo.Do? {
      RunsOut(fs, i + 1, k, t);
    }
    NoLocksWhenDone(fs, n, t);
  }

  lemma {:induction false} RaisedAlone(fs: seq<Event>, i: nat, n: nat, t: Tid)
    requires i < n <= |fs| && fs[i].Invoke? && forall k :: i < k < n ==> fs[k] == Run(t, [])
    ensures Exec(fs, n).count == Exec(fs, i).count
    ensures Exec(fs, n).raised == if exists k :: i <= k < n && Clears(fs, k, t) then {} else Exec(fs, i).raised
  {
    hide Step, At, Enabled;
    FlagsStep(Exec(fs, n - 1), fs[n - 1]);
    if i + 1 < n {
      RaisedAlone(fs, i, n - 1, t);
      assert fs[n - 1] == Run(t, []);
      if Clears(fs, n - 1, t) {
        assert exists k :: i <= k < n && Clears(fs, k, t);
      }
    } else {
      assert !Clears(fs, i, t);
    }
  }
}
