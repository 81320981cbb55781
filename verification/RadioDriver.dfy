/** Threads calling one SX128x driver object: its two mutexes, its SPI transactions and its interrupt flags.

    A call is the list of its lock operations, busy waits, SPI transfers and hooks, in program order.
    Any number of threads run such lists, interleaved instruction by instruction, while the chip raises
    interrupt flags and moves its BUSY pin at any moment.  Each raised flag carries its own number, so
    that two raisings of the same flag can be told apart. */
module RadioDriver {
  import opened Common

  type Tid = nat

  datatype Lock = IOLock | IOLock2

  datatype Command = GetIrqStatus | ClearIrqStatus | OtherCommand

  datatype OperatingMode = SleepMode | StandbyMode | FsMode | TxMode | RxMode | CadMode

  /** The four HAL hooks, and the two levels of the reset line. */
  datatype Line = PostRx | PreTx | PostTx | PreRx | ResetLow | ResetHigh

  datatype Instr =
    | Acquire(lock: Lock)
    | Release(lock: Lock)
    | WaitOnBusy
    | Spi(command: Command)
    | Local(line: Line)
    | SetMode(mode: OperatingMode)
    | Dispatch               // ProcessIrqs after its unlock: hooks and callbacks, by the operating mode then

  /** What a thread still has to do. */
  datatype Program = Done | Do(head: Instr, rest: Program)

  // ------------------------------------------------------------------ the calls

  /** WriteCommand, ReadCommand, WriteRegister, ReadRegister, WriteBuffer, ReadBuffer. */
  function Transaction(command: Command, k: Program): Program {
    Do(Acquire(IOLock), Do(WaitOnBusy, Do(Spi(command), Do(WaitOnBusy, Do(Release(IOLock), k)))))
  }

  datatype Call =
    | Transactions(n: nat)   // every method that is a row of transactions, such as SetModulationParams
    | TransactionThen(mode: OperatingMode)   // SetFs and SetCadParams
    | ClearFlags             // ClearIrqStatus called from outside
    | SetSleep
    | Reset
    | Wakeup
    | SetStandby
    | SetTx(ranging: bool)
    | SetRx(ranging: bool)
    | SetRxDutyCycle
    | SetCad
    | SetTxContinuous        // wave or preamble
    | SendPayload(ranging: bool)
    | ProcessIrqs

  function Repeat(n: nat, k: Program): Program {
    if n == 0 then k else Transaction(OtherCommand, Repeat(n - 1, k))
  }

  /** The two hooks that turn to transmitting, or to receiving. */
  function Turn(tx: bool, k: Program): Program {
    if tx then Do(Local(PostRx), Do(Local(PreTx), k)) else Do(Local(PostTx), Do(Local(PreRx), k))
  }

  /** SetTx and SetRx: clear the flags, set the ranging role if ranging, run the two hooks, command. */
  function Transmit(mode: OperatingMode, ranging: bool, k: Program): Program {
    var hooks := Turn(mode == TxMode, Transaction(OtherCommand, Do(SetMode(mode), Do(Release(IOLock2), k))));
    Do(Acquire(IOLock2),
       Transaction(ClearIrqStatus, if ranging then Transaction(OtherCommand, hooks) else hooks))
  }

  function Body(call: Call, k: Program): Program {
    match call
    case Transactions(n) => Repeat(n, k)
    case ClearFlags => Transaction(ClearIrqStatus, k)
    case TransactionThen(mode) => Transaction(OtherCommand, Do(SetMode(mode), k))
    case SetSleep =>
      Do(SetMode(SleepMode), Do(Acquire(IOLock), Do(WaitOnBusy, Do(Spi(OtherCommand), Do(Release(IOLock), k)))))
    case Reset => Do(Acquire(IOLock), Do(Local(ResetLow), Do(Local(ResetHigh), Do(Release(IOLock), k))))
    case Wakeup => Do(Acquire(IOLock), Do(Spi(OtherCommand), Do(WaitOnBusy, Do(Release(IOLock), k))))
    case SetStandby =>
      Do(Acquire(IOLock2), Transaction(OtherCommand, Do(SetMode(StandbyMode), Do(Release(IOLock2), k))))
    case SetTx(ranging) => Transmit(TxMode, ranging, k)
    case SetRx(ranging) => Transmit(RxMode, ranging, k)
    case SetRxDutyCycle => Turn(false, Transaction(OtherCommand, Do(SetMode(RxMode), k)))
    case SetCad =>
      Do(Acquire(IOLock2),
         Turn(false, Transaction(OtherCommand, Do(SetMode(CadMode), Do(Release(IOLock2), k)))))
    case SetTxContinuous =>
      Do(Acquire(IOLock2), Turn(true, Transaction(OtherCommand, Do(Release(IOLock2), k))))
    case SendPayload(ranging) => Transaction(OtherCommand, Transmit(TxMode, ranging, k))
    case ProcessIrqs =>
      Do(Acquire(IOLock2),
         Transaction(GetIrqStatus, Transaction(ClearIrqStatus, Do(Release(IOLock2), Do(Dispatch, k)))))
  }

  /** Calls made one after the other, as a callback may make them. */
  function Bodies(calls: seq<Call>, k: Program): Program {
    if calls == [] then k else Body(calls[0], Bodies(calls[1..], k))
  }

  // ------------------------------------------------------------------ the locking discipline

  /** How far a thread is with the flags it read in ProcessIrqs. */
  datatype Phase = NoFlags | ReadNotCleared | ReadAndCleared

  /** A thread in this situation may run p: IOLock2 is taken only with no lock held, IOLock only when
      not held, transfers and busy waits run under IOLock, callbacks run with no lock held, and flags
      read under IOLock2 are cleared before it is released. */
  predicate Obeys(p: Program, io: bool, io2: bool, phase: Phase) {
    && (phase == ReadNotCleared ==> io2)
    && match p
       case Done => !io && !io2 && phase == NoFlags
       case Do(head, rest) =>
         match head
         case Acquire(l) =>
           if l == IOLock2 then !io && !io2 && Obeys(rest, io, true, phase) else !io && Obeys(rest, true, io2, phase)
         case Release(l) =>
           if l == IOLock2 then !io && io2 && phase != ReadNotCleared && Obeys(rest, io, false, phase)
           else io && Obeys(rest, false, io2, phase)
         case WaitOnBusy => io && Obeys(rest, io, io2, phase)
         case Spi(command) => io && SpiAllowed(command, io2, phase) && Obeys(rest, io, io2, PhaseAfter(command, phase))
         case Local(_) => Obeys(rest, io, io2, phase)
         case SetMode(_) => Obeys(rest, io, io2, phase)
         case Dispatch => !io && !io2 && phase == ReadAndCleared && Obeys(rest, io, io2, NoFlags)
  }

  predicate SpiAllowed(command: Command, io2: bool, phase: Phase) {
    command == GetIrqStatus ==> io2 && phase == NoFlags
  }

  function PhaseAfter(command: Command, phase: Phase): Phase {
    match command
    case GetIrqStatus => ReadNotCleared
    case ClearIrqStatus => if phase == ReadNotCleared then ReadAndCleared else phase
    case OtherCommand => phase
  }

  lemma TransactionObeys(command: Command, k: Program, io2: bool, phase: Phase)
    requires SpiAllowed(command, io2, phase) && (phase == ReadNotCleared ==> io2)
    requires Obeys(k, false, io2, PhaseAfter(command, phase))
    ensures Obeys(Transaction(command, k), false, io2, phase)
  {
    var after := PhaseAfter(command, phase);
    assert Obeys(Do(Release(IOLock), k), true, io2, after);
    assert Obeys(Do(WaitOnBusy, Do(Release(IOLock), k)), true, io2, after);
    assert Obeys(Do(Spi(command), Do(WaitOnBusy, Do(Release(IOLock), k))), true, io2, phase);
    assert Obeys(Do(WaitOnBusy, Do(Spi(command), Do(WaitOnBusy, Do(Release(IOLock), k)))), true, io2, phase);
  }

  lemma {:induction false} RepeatObeys(n: nat, k: Program)
    requires Obeys(k, false, false, NoFlags)
    ensures Obeys(Repeat(n, k), false, false, NoFlags)
  {
    if n > 0 {
      RepeatObeys(n - 1, k);
      TransactionObeys(OtherCommand, Repeat(n - 1, k), false, NoFlags);
    }
  }

  lemma LocalObeys(line: Line, k: Program, io: bool, io2: bool)
    requires Obeys(k, io, io2, NoFlags)
    ensures Obeys(Do(Local(line), k), io, io2, NoFlags)
  {
  }

  lemma TransmitObeys(mode: OperatingMode, ranging: bool, k: Program)
    requires Obeys(k, false, false, NoFlags)
    ensures Obeys(Transmit(mode, ranging, k), false, false, NoFlags)
  {
    var k1 := Do(SetMode(mode), Do(Release(IOLock2), k));
    assert Obeys(Do(Release(IOLock2), k), false, true, NoFlags);
    assert Obeys(k1, false, true, NoFlags);
    TransactionObeys(OtherCommand, k1, true, NoFlags);
    var hooks := Turn(mode == TxMode, Transaction(OtherCommand, k1));
    TransactionObeys(OtherCommand, hooks, true, NoFlags);
    var k2 := if ranging then Transaction(OtherCommand, hooks) else hooks;
    TransactionObeys(ClearIrqStatus, k2, true, NoFlags);
  }

  lemma ProcessIrqsObeys(k: Program)
    requires Obeys(k, false, false, NoFlags)
    ensures Obeys(Body(ProcessIrqs, k), false, false, NoFlags)
  {
    var k1 := Do(Release(IOLock2), Do(Dispatch, k));
    assert Obeys(Do(Dispatch, k), false, false, ReadAndCleared);
    assert Obeys(k1, false, true, ReadAndCleared);
    TransactionObeys(ClearIrqStatus, k1, true, ReadNotCleared);
    TransactionObeys(GetIrqStatus, Transaction(ClearIrqStatus, k1), true, NoFlags);
  }

  /** SetStandby, SetCad, SetTxContinuousWave, SetTxContinuousPreamble. */
  lemma ModeCallObeys(call: Call, k: Program)
    requires call.SetStandby? || call.SetCad? || call.SetTxContinuous?
    requires Obeys(k, false, false, NoFlags)
    ensures Obeys(Body(call, k), false, false, NoFlags)
  {
    var r := Do(Release(IOLock2), k);
    assert Obeys(r, false, true, NoFlags);
    var mode := if call.SetCad? then CadMode else StandbyMode;
    var k1 := if call.SetTxContinuous? then r else Do(SetMode(mode), r);
    TransactionObeys(OtherCommand, k1, true, NoFlags);
  }

  /** SetFs, SetCadParams, SetSleep, Reset, Wakeup, SetRxDutyCycle. */
  lemma ChipCallObeys(call: Call, k: Program)
    requires call.TransactionThen? || call.SetSleep? || call.Reset? || call.Wakeup? || call.SetRxDutyCycle?
    requires Obeys(k, false, false, NoFlags)
    ensures Obeys(Body(call, k), false, false, NoFlags)
  {
    var r := Do(Release(IOLock), k);
    assert Obeys(r, true, false, NoFlags);
    match call
    case TransactionThen(mode) =>
      assert Obeys(Do(SetMode(mode), k), false, false, NoFlags);
      TransactionObeys(OtherCommand, Do(SetMode(mode), k), false, NoFlags);
    case SetSleep =>
      assert Obeys(Do(Spi(OtherCommand), r), true, false, NoFlags);
      assert Obeys(Do(WaitOnBusy, Do(Spi(OtherCommand), r)), true, false, NoFlags);
      assert Obeys(Do(Acquire(IOLock), Do(WaitOnBusy, Do(Spi(OtherCommand), r))), false, false, NoFlags);
    case Reset =>
      LocalObeys(ResetHigh, r, true, false);
      LocalObeys(ResetLow, Do(Local(ResetHigh), r), true, false);
    case Wakeup =>
      assert Obeys(Do(WaitOnBusy, r), true, false, NoFlags);
      assert Obeys(Do(Spi(OtherCommand), Do(WaitOnBusy, r)), true, false, NoFlags);
    case SetRxDutyCycle =>
      assert Obeys(Do(SetMode(RxMode), k), false, false, NoFlags);
      TransactionObeys(OtherCommand, Do(SetMode(RxMode), k), false, NoFlags);
  }

  /** Every call of the driver obeys the discipline. */
  lemma CallObeys(call: Call, k: Program)
    requires Obeys(k, false, false, NoFlags)
    ensures Obeys(Body(call, k), false, false, NoFlags)
  {
    hide Obeys;
    match call
    case Transactions(n) => RepeatObeys(n, k);
    case ClearFlags => TransactionObeys(ClearIrqStatus, k, false, NoFlags);
    case SetTx(ranging) => TransmitObeys(TxMode, ranging, k);
    case SetRx(ranging) => TransmitObeys(RxMode, ranging, k);
    case SendPayload(ranging) =>
      TransmitObeys(TxMode, ranging, k);
      TransactionObeys(OtherCommand, Transmit(TxMode, ranging, k), false, NoFlags);
    case ProcessIrqs => ProcessIrqsObeys(k);
    case SetStandby => ModeCallObeys(call, k);
    case SetCad => ModeCallObeys(call, k);
    case SetTxContinuous => ModeCallObeys(call, k);
    case _ => ChipCallObeys(call, k);
  }

  lemma {:induction false} CallsObey(calls: seq<Call>, k: Program)
    requires Obeys(k, false, false, NoFlags)
    ensures Obeys(Bodies(calls, k), false, false, NoFlags)
  {
    hide Body, Obeys;
    if calls != [] {
      CallsObey(calls[1..], k);
      CallObeys(calls[0], Bodies(calls[1..], k));
    }
  }

  // ------------------------------------------------------------------ the thread system

  datatype Thread = Thread(todo: Program, phase: Phase, flags: set<nat>)

  const IDLE := Thread(Done, NoFlags, {})

  /** Holders of the two locks, the chip (BUSY pin, raised flags, flags raised so far), the threads, the
      flags handed to hooks and callbacks, one set per dispatching ProcessIrqs, and the flags cleared in
      the chip that no thread had read; and the driver's operating mode. */
  datatype State = State(
    io: Option<Tid>,
    io2: Option<Tid>,
    busy: bool,
    raised: set<nat>,
    count: nat,
    threads: map<Tid, Thread>,
    dispatched: seq<set<nat>>,
    dropped: set<nat>,
    mode: OperatingMode)

  const INIT := State(None, None, false, {}, 0, map[], [], {}, StandbyMode)

  function At(s: State, t: Tid): Thread {
    if t in s.threads then s.threads[t] else IDLE
  }

  function Holder(s: State, l: Lock): Option<Tid> {
    if l == IOLock then s.io else s.io2
  }

  function SetHolder(s: State, l: Lock, h: Option<Tid>): State {
    if l == IOLock then s.(io := h) else s.(io2 := h)
  }

  /** Some thread has read the flag and not dispatched it yet. */
  predicate InHand(s: State, f: nat) {
    exists t :: t in s.threads && s.threads[t].phase != NoFlags && f in s.threads[t].flags
  }

  /** The flags that a clear loses: raised, and in nobody's hand. */
  function Unread(s: State): set<nat> {
    set f | f in s.raised && !InHand(s, f)
  }

  function Put(s: State, t: Tid, th: Thread): State {
    s.(threads := s.threads[t := th])
  }

  /** The thread's next instruction does not have to wait. */
  predicate Enabled(s: State, t: Tid) {
    var p := At(s, t).todo;
    p.Do? && (p.head.Acquire? ==> Holder(s, p.head.lock) == None) && (p.head.WaitOnBusy? ==> !s.busy)
  }

  /** calls is what the callbacks do, should the instruction be a dispatch. */
  function Execute(s: State, t: Tid, calls: seq<Call>): State
    requires Enabled(s, t)
  {
    var th := At(s, t);
    var next := th.(todo := th.todo.rest);
    match th.todo.head
    case Acquire(l) => Put(SetHolder(s, l, Some(t)), t, next)
    case Release(l) => Put(SetHolder(s, l, None), t, next)
    case WaitOnBusy => Put(s, t, next)
    case Local(_) => Put(s, t, next)
    case SetMode(mode) => Put(s.(mode := mode), t, next)
    case Spi(command) =>
      var after := next.(phase := PhaseAfter(command, th.phase));
      if command == GetIrqStatus then Put(s, t, after.(flags := s.raised))
      else if command == ClearIrqStatus then Put(s.(raised := {}, dropped := s.dropped + Unread(s)), t, after)
      else Put(s, t, after)
    case Dispatch =>
      Put(s.(dispatched := s.dispatched + [th.flags]), t, Thread(Bodies(calls, th.todo.rest), NoFlags, {}))
  }

  datatype Event =
    | Invoke(t: Tid, call: Call)
    | Run(t: Tid, calls: seq<Call>)
    | Raise
    | Busy(pin: bool)

  /** A thread that cannot go on, or a call on a thread still inside one, changes nothing. */
  function Step(s: State, e: Event): State {
    match e
    case Invoke(t, call) => if At(s, t).todo.Done? then Put(s, t, At(s, t).(todo := Body(call, Done))) else s
    case Run(t, calls) => if Enabled(s, t) then Execute(s, t, calls) else s
    case Raise => s.(raised := s.raised + {s.count}, count := s.count + 1)
    case Busy(pin) => s.(busy := pin)
  }

  function Exec(es: seq<Event>, n: nat): State
    requires n <= |es|
  {
    if n == 0 then INIT else Step(Exec(es, n - 1), es[n - 1])
  }

  // ------------------------------------------------------------------ invariants of every run

  /** Each thread obeys the discipline from where it stands, with the locks it really holds. */
  ghost predicate Disciplined(s: State) {
    forall t: Tid :: Obeys(At(s, t).todo, s.io == Some(t), s.io2 == Some(t), At(s, t).phase)
  }

  ghost predicate Below(flags: set<nat>, n: nat) {
    forall f :: f in flags ==> f < n
  }

  /** Flags in the chip and flags in the hands of a thread. */
  ghost predicate FlagsApart(s: State) {
    && Below(s.raised, s.count)
    && (forall t: Tid :: At(s, t).phase != NoFlags ==> Below(At(s, t).flags, s.count))
    && (forall t: Tid :: At(s, t).phase == ReadAndCleared ==> At(s, t).flags !! s.raised)
    && (forall t: Tid, u: Tid :: t != u && At(s, t).phase != NoFlags && At(s, u).phase != NoFlags ==>
          At(s, t).flags !! At(s, u).flags)
  }

  /** Dispatched flags are in no other place and were dispatched once. */
  ghost predicate DispatchedApart(s: State) {
    && (forall i :: 0 <= i < |s.dispatched| ==> Below(s.dispatched[i], s.count) && s.dispatched[i] !! s.raised)
    && (forall i, t: Tid :: 0 <= i < |s.dispatched| && At(s, t).phase != NoFlags ==>
          s.dispatched[i] !! At(s, t).flags)
    && (forall i, j :: 0 <= i < j < |s.dispatched| ==> s.dispatched[i] !! s.dispatched[j])
  }

  ghost predicate Inv(s: State) {
    Disciplined(s) && FlagsApart(s) && DispatchedApart(s)
  }

  predicate Dispatched(s: State, f: nat) {
    exists i :: 0 <= i < |s.dispatched| && f in s.dispatched[i]
  }

  /** Other threads hold what they held. */
  lemma OthersHoldTheSame(s: State, t: Tid, calls: seq<Call>, u: Tid)
    requires Disciplined(s) && Enabled(s, t) && u != t
    ensures var s' := Execute(s, t, calls);
      && At(s', u) == At(s, u) && (s'.io == Some(u) <==> s.io == Some(u)) && (s'.io2 == Some(u) <==> s.io2 == Some(u))
  {
    assert Obeys(At(s, t).todo, s.io == Some(t), s.io2 == Some(t), At(s, t).phase);
  }

  lemma MoverObeys(s: State, t: Tid, calls: seq<Call>)
    requires Disciplined(s) && Enabled(s, t)
    ensures var s' := Execute(s, t, calls);
      Obeys(At(s', t).todo, s'.io == Some(t), s'.io2 == Some(t), At(s', t).phase)
  {
    var th := At(s, t);
    assert Obeys(th.todo, s.io == Some(t), s.io2 == Some(t), th.phase);
    if th.todo.head.Dispatch? {
      CallsObey(calls, th.todo.rest);
    }
  }

  lemma ExecuteKeepsDiscipline(s: State, t: Tid, calls: seq<Call>)
    requires Disciplined(s) && Enabled(s, t)
    ensures Disciplined(Execute(s, t, calls))
  {
    hide Obeys, Execute;
    var s' := Execute(s, t, calls);
    forall u: Tid ensures Obeys(At(s', u).todo, s'.io == Some(u), s'.io2 == Some(u), At(s', u).phase) {
      if u == t {
        MoverObeys(s, t, calls);
      } else {
        OthersHoldTheSame(s, t, calls, u);
        assert Obeys(At(s, u).todo, s.io == Some(u), s.io2 == Some(u), At(s, u).phase);
      }
    }
  }

  lemma SpiKeepsFlagsApart(s: State, t: Tid, calls: seq<Call>)
    requires Inv(s) && Enabled(s, t) && At(s, t).todo.head.Spi?
    ensures FlagsApart(Execute(s, t, calls)) && DispatchedApart(Execute(s, t, calls))
  {
    var s' := Execute(s, t, calls);
    assert forall u :: u != t ==> At(s', u) == At(s, u);
    assert Obeys(At(s, t).todo, s.io == Some(t), s.io2 == Some(t), At(s, t).phase);
    if At(s, t).todo.head.command == GetIrqStatus {
      forall u | u != t && At(s, u).phase != NoFlags ensures At(s, u).flags !! s.raised {
        assert Obeys(At(s, u).todo, s.io == Some(u), s.io2 == Some(u), At(s, u).phase);
      }
    }
  }

  lemma DispatchKeepsFlagsApart(s: State, t: Tid, calls: seq<Call>)
    requires Inv(s) && Enabled(s, t) && At(s, t).todo.head.Dispatch?
    ensures FlagsApart(Execute(s, t, calls)) && DispatchedApart(Execute(s, t, calls))
  {
    var s' := Execute(s, t, calls);
    assert At(s, t).phase == ReadAndCleared by {
      assert Obeys(At(s, t).todo, s.io == Some(t), s.io2 == Some(t), At(s, t).phase);
    }
    hide Obeys, Bodies, Disciplined;
    assert forall u :: u != t ==> At(s', u) == At(s, u);
    assert At(s', t).phase == NoFlags;
  }

  lemma LockOrLocalKeepsFlags(s: State, t: Tid, calls: seq<Call>)
    requires Enabled(s, t) && !At(s, t).todo.head.Spi? && !At(s, t).todo.head.Dispatch?
    ensures var s' := Execute(s, t, calls);
      && s'.raised == s.raised && s'.count == s.count && s'.dispatched == s.dispatched
      && forall u: Tid :: At(s', u).phase == At(s, u).phase && At(s', u).flags == At(s, u).flags
  {
  }

  lemma InvokeKeepsInv(s: State, t: Tid, call: Call)
    requires Inv(s) && At(s, t).todo.Done?
    ensures Inv(Step(s, Invoke(t, call)))
  {
    hide Body;
    var s' := Step(s, Invoke(t, call));
    assert forall u :: u != t ==> At(s', u) == At(s, u);
    assert Obeys(At(s, t).todo, s.io == Some(t), s.io2 == Some(t), At(s, t).phase);
    CallObeys(call, Done);
    assert At(s', t).todo == Body(call, Done) && At(s', t).phase == NoFlags;
    assert forall u {:trigger At(s', u)} :: At(s', u).phase == At(s, u).phase && At(s', u).flags == At(s, u).flags;
    assert Disciplined(s');
  }

  lemma StepKeepsInv(s: State, e: Event)
    requires Inv(s)
    ensures Inv(Step(s, e))
  {
    hide Execute, Body;
    match e
    case Invoke(t, call) =>
      if At(s, t).todo.Done? { InvokeKeepsInv(s, t, call); }
    case Run(t, calls) =>
      if Enabled(s, t) {
        hide Obeys, Enabled;
        ExecuteKeepsDiscipline(s, t, calls);
        if At(s, t).todo.head.Spi? {
          SpiKeepsFlagsApart(s, t, calls);
        } else if At(s, t).todo.head.Dispatch? {
          DispatchKeepsFlagsApart(s, t, calls);
        } else {
          LockOrLocalKeepsFlags(s, t, calls);
        }
      }
    case Raise =>
      assert forall u {:trigger At(Step(s, e), u)} :: At(Step(s, e), u) == At(s, u);
    case Busy(_) =>
      assert forall u {:trigger At(Step(s, e), u)} :: At(Step(s, e), u) == At(s, u);
  }

  lemma {:induction false} RunsKeepInv(es: seq<Event>, n: nat)
    requires n <= |es|
    ensures Inv(Exec(es, n))
  {
    hide Step, Obeys;
    if n == 0 {
      assert forall t :: At(INIT, t) == IDLE;
      IdleObeys();
    } else {
      RunsKeepInv(es, n - 1);
      StepKeepsInv(Exec(es, n - 1), es[n - 1]);
    }
  }

  lemma IdleObeys()
    ensures Obeys(Done, false, false, NoFlags)
  {
  }

  // ------------------------------------------------------------------ what follows for every run

  /** Read off the program alone: the thread is inside a section of the lock when the next operation on
      that lock is its release. */
  predicate Inside(p: Program, l: Lock) {
    p.Do? && (p.head == Release(l) || (p.head != Acquire(l) && !p.head.Dispatch? && Inside(p.rest, l)))
  }

  lemma {:induction false} InsideMeansHolding(p: Program, io: bool, io2: bool, phase: Phase)
    requires Obeys(p, io, io2, phase)
    ensures Inside(p, IOLock) <==> io
    ensures Inside(p, IOLock2) <==> io2
  {
    match p
    case Done =>
    case Do(head, rest) =>
      match head
      case Acquire(l) => InsideMeansHolding(rest, io || l == IOLock, io2 || l == IOLock2, phase);
      case Release(l) => InsideMeansHolding(rest, io && l != IOLock, io2 && l != IOLock2, phase);
      case WaitOnBusy => InsideMeansHolding(rest, io, io2, phase);
      case Spi(command) => InsideMeansHolding(rest, io, io2, PhaseAfter(command, phase));
      case Local(_) => InsideMeansHolding(rest, io, io2, phase);
      case SetMode(_) => InsideMeansHolding(rest, io, io2, phase);
      case Dispatch => InsideMeansHolding(rest, io, io2, NoFlags);
  }

  /** At most one thread is inside the sections of each lock. */
  lemma SectionsExclude(es: seq<Event>, n: nat, t: Tid, u: Tid, l: Lock)
    requires n <= |es| && Inside(At(Exec(es, n), t).todo, l) && Inside(At(Exec(es, n), u).todo, l)
    ensures t == u
  {
    hide Obeys, Inside;
    RunsKeepInv(es, n);
    var s := Exec(es, n);
    InsideMeansHolding(At(s, t).todo, s.io == Some(t), s.io2 == Some(t), At(s, t).phase);
    InsideMeansHolding(At(s, u).todo, s.io == Some(u), s.io2 == Some(u), At(s, u).phase);
  }

  /** A transfer starts only inside the thread's own IOLock section, hence in no other thread's. */
  lemma TransferInOwnSection(es: seq<Event>, n: nat, t: Tid)
    requires n <= |es| && At(Exec(es, n), t).todo.Do? && At(Exec(es, n), t).todo.head.Spi?
    ensures Inside(At(Exec(es, n), t).todo, IOLock)
    ensures forall u :: u != t ==> !Inside(At(Exec(es, n), u).todo, IOLock)
  {
    RunsKeepInv(es, n);
    var s := Exec(es, n);
    assert Obeys(At(s, t).todo, s.io == Some(t), s.io2 == Some(t), At(s, t).phase);
    InsideMeansHolding(At(s, t).todo, s.io == Some(t), s.io2 == Some(t), At(s, t).phase);
    hide Obeys, Inside;
    forall u | u != t ensures !Inside(At(s, u).todo, IOLock) {
      if Inside(At(s, u).todo, IOLock) { SectionsExclude(es, n, t, u, IOLock); }
    }
  }

  /** Lock order: a thread about to take a lock is not inside a section of that lock, and one about to
      take IOLock2 is inside no section at all. */
  lemma LocksTakenInOrder(es: seq<Event>, n: nat, t: Tid, l: Lock)
    requires n <= |es| && At(Exec(es, n), t).todo.Do? && At(Exec(es, n), t).todo.head == Acquire(l)
    ensures Holder(Exec(es, n), l) != Some(t)
    ensures l == IOLock2 ==> Exec(es, n).io != Some(t)
  {
    RunsKeepInv(es, n);
    var s := Exec(es, n);
    assert Obeys(At(s, t).todo, s.io == Some(t), s.io2 == Some(t), At(s, t).phase);
  }

  /** No reachable state is deadlocked: while some call is unfinished, some thread can go on, or the
      holder of IOLock only waits for the BUSY pin to fall. */
  lemma NoDeadlock(es: seq<Event>, n: nat, t: Tid) returns (u: Tid)
    requires n <= |es| && At(Exec(es, n), t).todo.Do?
    ensures At(Exec(es, n), u).todo.Do?
    ensures
      || Enabled(Exec(es, n), u)
      || (Exec(es, n).io == Some(u) && At(Exec(es, n), u).todo.head == WaitOnBusy && Exec(es, n).busy)
  {
    RunsKeepInv(es, n);
    var s := Exec(es, n);
    u := if s.io.Some? then s.io.value else if s.io2.Some? then s.io2.value else t;
    assert Obeys(At(s, u).todo, s.io == Some(u), s.io2 == Some(u), At(s, u).phase);
  }

  /** Each raised flag is dispatched by at most one ProcessIrqs. */
  lemma FlagsDispatchedAtMostOnce(es: seq<Event>, n: nat, i: nat, j: nat, f: nat)
    requires n <= |es| && i < |Exec(es, n).dispatched| && j < |Exec(es, n).dispatched|
    requires f in Exec(es, n).dispatched[i] && f in Exec(es, n).dispatched[j]
    ensures i == j && f < Exec(es, n).count
  {
    hide Obeys, Step;
    RunsKeepInv(es, n);
    var d := Exec(es, n).dispatched;
    assert Below(d[i], Exec(es, n).count);
  }

  // ------------------------------------------------------------------ where every flag ends up

  /** A dropped flag is nowhere else, and no raised flag gets lost without being dropped. */
  ghost predicate AccountedFor(s: State, f: nat) {
    && (f in s.dropped ==> f < s.count && f !in s.raised && !InHand(s, f) && !Dispatched(s, f))
    && (f < s.count ==> f in s.raised || InHand(s, f) || Dispatched(s, f) || f in s.dropped)
  }

  lemma InHandBy(s: State, f: nat) returns (t: Tid)
    requires InHand(s, f)
    ensures At(s, t).phase != NoFlags && f in At(s, t).flags
  {
    t :| t in s.threads && s.threads[t].phase != NoFlags && f in s.threads[t].flags;
  }

  lemma HeldBy(s: State, t: Tid, f: nat)
    requires At(s, t).phase != NoFlags && f in At(s, t).flags
    ensures InHand(s, f)
  {
    assert t in s.threads;
  }

  /** When only thread t moved, a flag is in hand if it is in t's, or was in another's. */
  lemma HandsAfter(s: State, s': State, t: Tid, f: nat)
    requires forall u :: u != t ==> At(s', u) == At(s, u)
    ensures InHand(s', f) ==> (At(s', t).phase != NoFlags && f in At(s', t).flags) || InHand(s, f)
    ensures InHand(s, f) ==> (At(s, t).phase != NoFlags && f in At(s, t).flags) || InHand(s', f)
  {
    hide InHand, At;
    if InHand(s', f) {
      var u := InHandBy(s', f);
      if u != t { HeldBy(s, u, f); }
    }
    if InHand(s, f) {
      var u := InHandBy(s, f);
      if u != t { HeldBy(s', u, f); }
    }
  }

  /** The read: nothing was in t's hand, and everything raised is now. */
  lemma ReadAccounts(s: State, t: Tid, calls: seq<Call>, f: nat)
    requires Inv(s) && AccountedFor(s, f) && Enabled(s, t) && At(s, t).todo.head == Spi(GetIrqStatus)
    ensures AccountedFor(Execute(s, t, calls), f)
  {
    var s' := Execute(s, t, calls);
    assert At(s, t).phase == NoFlags by {
      assert Obeys(At(s, t).todo, s.io == Some(t), s.io2 == Some(t), At(s, t).phase);
    }
    assert At(s', t).flags == s.raised;
    assert s'.raised == s.raised && s'.count == s.count && s'.dropped == s.dropped && s'.dispatched == s.dispatched;
    assert forall u :: u != t ==> At(s', u) == At(s, u);
    hide Obeys, Inv, Execute, InHand;
    HandsAfter(s, s', t, f);
  }

  /** The clear: what is in hand stays there, what is not is dropped. */
  lemma ClearAccounts(s: State, t: Tid, calls: seq<Call>, f: nat)
    requires Inv(s) && AccountedFor(s, f) && Enabled(s, t) && At(s, t).todo.head == Spi(ClearIrqStatus)
    ensures AccountedFor(Execute(s, t, calls), f)
  {
    var s' := Execute(s, t, calls);
    assert s'.raised == {} && s'.count == s.count && s'.dropped == s.dropped + Unread(s);
    assert s'.dispatched == s.dispatched;
    assert At(s', t).flags == At(s, t).flags && (At(s', t).phase == NoFlags <==> At(s, t).phase == NoFlags);
    assert forall u :: u != t ==> At(s', u) == At(s, u);
    hide Obeys, Inv, Execute, InHand;
    SameHands(s, s', f);
  }

  lemma SameHands(s: State, s': State, f: nat)
    requires forall u: Tid {:trigger At(s', u)} ::
      At(s', u).flags == At(s, u).flags && (At(s', u).phase == NoFlags <==> At(s, u).phase == NoFlags)
    ensures InHand(s', f) <==> InHand(s, f)
  {
    hide InHand, At;
    if InHand(s', f) {
      var u := InHandBy(s', f);
      HeldBy(s, u, f);
    }
    if InHand(s, f) {
      var u := InHandBy(s, f);
      assert At(s', u).flags == At(s, u).flags;
      HeldBy(s', u, f);
    }
  }

  /** The dispatch: what was in t's hand, and in nobody else's, is dispatched. */
  lemma DispatchAccounts(s: State, t: Tid, calls: seq<Call>, f: nat)
    requires Inv(s) && AccountedFor(s, f) && Enabled(s, t) && At(s, t).todo.head == Dispatch
    ensures AccountedFor(Execute(s, t, calls), f)
  {
    var s' := Execute(s, t, calls);
    assert At(s, t).phase == ReadAndCleared by {
      assert Obeys(At(s, t).todo, s.io == Some(t), s.io2 == Some(t), At(s, t).phase);
    }
    hide Obeys, Bodies, Disciplined;
    assert s'.raised == s.raised && s'.count == s.count && s'.dropped == s.dropped;
    assert s'.dispatched == s.dispatched + [At(s, t).flags] && At(s', t).phase == NoFlags;
    assert forall u :: u != t ==> At(s', u) == At(s, u);
    hide Execute, Inv;
    DispatchedMore(s, s', At(s, t).flags, f);
    if f in At(s, t).flags {
      HeldBy(s, t, f);
    }
    hide InHand, Dispatched;
    HandsAfter(s, s', t, f);
  }

  lemma DispatchedMore(s: State, s': State, flags: set<nat>, f: nat)
    requires s'.dispatched == s.dispatched + [flags]
    ensures Dispatched(s', f) <==> Dispatched(s, f) || f in flags
  {
    if Dispatched(s, f) {
      var i :| 0 <= i < |s.dispatched| && f in s.dispatched[i];
      assert s'.dispatched[i] == s.dispatched[i];
    }
    if f in flags {
      assert s'.dispatched[|s.dispatched|] == flags;
    }
  }

  /** Steps that touch no flags. */
  lemma OthersAccount(s: State, s': State, f: nat)
    requires AccountedFor(s, f) && s'.raised == s.raised && s'.count == s.count
    requires s'.dispatched == s.dispatched && s'.dropped == s.dropped
    requires forall u: Tid :: At(s', u).phase == At(s, u).phase && At(s', u).flags == At(s, u).flags
    ensures AccountedFor(s', f)
  {
    hide InHand;
    SameHands(s, s', f);
  }

  lemma ExecuteAccounts(s: State, t: Tid, calls: seq<Call>, f: nat)
    requires Inv(s) && AccountedFor(s, f) && Enabled(s, t)
    ensures AccountedFor(Execute(s, t, calls), f)
  {
    hide Inv, AccountedFor;
    var head := At(s, t).todo.head;
    if head == Spi(GetIrqStatus) {
      ReadAccounts(s, t, calls, f);
    } else if head == Spi(ClearIrqStatus) {
      ClearAccounts(s, t, calls, f);
    } else if head == Dispatch {
      DispatchAccounts(s, t, calls, f);
    } else {
      OthersAccount(s, Execute(s, t, calls), f);
    }
  }

  lemma StepAccounts(s: State, e: Event, f: nat)
    requires Inv(s) && AccountedFor(s, f)
    ensures AccountedFor(Step(s, e), f)
  {
    hide Execute, Inv, InHand;
    var s' := Step(s, e);
    match e
    case Invoke(t, call) =>
      hide Body, AccountedFor;
      OthersAccount(s, s', f);
    case Run(t, calls) =>
      hide AccountedFor;
      if Enabled(s, t) { ExecuteAccounts(s, t, calls, f); }
    case Raise =>
      SameHands(s, s', f);
    case Busy(_) =>
      SameHands(s, s', f);
  }

  lemma {:induction false} RunsAccount(es: seq<Event>, n: nat, f: nat)
    requires n <= |es|
    ensures AccountedFor(Exec(es, n), f)
  {
    hide Step, Inv;
    if n > 0 {
      RunsAccount(es, n - 1, f);
      RunsKeepInv(es, n - 1);
      hide AccountedFor;
      StepAccounts(Exec(es, n - 1), es[n - 1], f);
    }
  }

  function One(b: bool): nat {
    if b then 1 else 0
  }

  /** In every run each flag raised so far is in exactly one place: still raised and unread, in the hand
      of a ProcessIrqs, dispatched, or dropped. */
  lemma FlagInOnePlace(es: seq<Event>, n: nat, f: nat)
    requires n <= |es| && f < Exec(es, n).count
    ensures var s := Exec(es, n);
      One(f in Unread(s)) + One(InHand(s, f)) + One(Dispatched(s, f)) + One(f in s.dropped) == 1
  {
    hide Step, Exec;
    RunsAccount(es, n, f);
    RunsKeepInv(es, n);
    var s := Exec(es, n);
    if InHand(s, f) {
      var t := InHandBy(s, f);
    }
  }

  /** Step k clears the chip's flags while this one is raised and in nobody's hand. */
  predicate ClearsUnread(es: seq<Event>, k: nat, f: nat)
    requires k < |es|
  {
    var s := Exec(es, k);
    && es[k].Run? && Enabled(s, es[k].t) && At(s, es[k].t).todo.head == Spi(ClearIrqStatus)
    && f in Unread(s)
  }

  lemma DroppedByStep(s: State, e: Event, f: nat)
    ensures f in Step(s, e).dropped <==>
      || f in s.dropped
      || (e.Run? && Enabled(s, e.t) && At(s, e.t).todo.head == Spi(ClearIrqStatus) && f in Unread(s))
  {
    hide Unread, Body, Bodies;
  }

  /** A flag is dropped exactly by such a clear. */
  lemma {:induction false} DroppedExactly(es: seq<Event>, n: nat, f: nat)
    requires n <= |es|
    ensures f in Exec(es, n).dropped <==> exists k :: 0 <= k < n && ClearsUnread(es, k, f)
  {
    hide Step, Unread;
    if n > 0 {
      DroppedExactly(es, n - 1, f);
      DroppedByStep(Exec(es, n - 1), es[n - 1], f);
      assert f in Exec(es, n).dropped <==> f in Exec(es, n - 1).dropped || ClearsUnread(es, n - 1, f);
    }
  }

  /** A flag that the chip and the threads are done with was dispatched, and then once, exactly when no
      clear met it raised and unread. */
  lemma DispatchedOnceUnlessCleared(es: seq<Event>, n: nat, f: nat)
    requires n <= |es| && f < Exec(es, n).count && f !in Exec(es, n).raised && !InHand(Exec(es, n), f)
    ensures Dispatched(Exec(es, n), f) <==> !exists k :: 0 <= k < n && ClearsUnread(es, k, f)
  {
    hide InHand, Exec, Dispatched, ClearsUnread;
    FlagInOnePlace(es, n, f);
    DroppedExactly(es, n, f);
  }

  /** Such a clear happens inside ProcessIrqs itself, with one thread and one flag: the chip raises it
      between the read and the clear, and nobody ever hears of it. */
  lemma FlagLostInProcessIrqs()
    ensures exists es: seq<Event> ::
      && (forall e <- es :: e == Invoke(0, ProcessIrqs) || e == Run(0, []) || e == Raise)
      && Exec(es, |es|).count == 1 && At(Exec(es, |es|), 0) == IDLE
      && 0 in Exec(es, |es|).dropped && Exec(es, |es|).dispatched == [{}]
  {
    hide Exec;
    var run := Run(0, []);
    var es := [Invoke(0, ProcessIrqs), run, run, run, run, Raise, run, run, run, run, run, run, run, run, run];
    FlagRead(es);
    FlagCleared(es);
    FlagForgotten(es);
    assert At(Exec(es, |es|), 0) == IDLE;
  }

  /** One instruction of thread 0. */
  lemma OneMore(es: seq<Event>, n: nat)
    requires n < |es| && es[n] == Run(0, []) && Enabled(Exec(es, n), 0)
    ensures Exec(es, n + 1) == Execute(Exec(es, n), 0, [])
  {
  }

  /** The two transactions of ProcessIrqs, and what follows them. */
  const UNLOCK := Do(Release(IOLock2), Do(Dispatch, Done))
  const CLEAR := Transaction(ClearIrqStatus, UNLOCK)
  const AFTER_READ := Do(WaitOnBusy, Do(Release(IOLock), CLEAR))
  const AFTER_CLEAR := Do(WaitOnBusy, Do(Release(IOLock), UNLOCK))

  /** Thread 0 alone, in standby. */
  function Single(io: Option<Tid>, io2: Option<Tid>, raised: set<nat>, count: nat, th: Thread,
                  dispatched: seq<set<nat>>, dropped: set<nat>): State {
    State(io, io2, false, raised, count, map[0 := th], dispatched, dropped, StandbyMode)
  }

  lemma FlagRead(es: seq<Event>)
    requires |es| == 15 && es[0] == Invoke(0, ProcessIrqs) && forall i :: 1 <= i < 5 ==> es[i] == Run(0, [])
    ensures Exec(es, 5)
         == Single(Some(0), Some(0), {}, 0, Thread(AFTER_READ, ReadNotCleared, {}), [], {})
  {
    var p := Transaction(GetIrqStatus, CLEAR);
    assert Exec(es, 0) == INIT;
    assert Exec(es, 1) == Single(None, None, {}, 0, Thread(Do(Acquire(IOLock2), p), NoFlags, {}), [], {});
    hide Exec, Step;
    OneMore(es, 1);
    assert Exec(es, 2) == Single(None, Some(0), {}, 0, Thread(p, NoFlags, {}), [], {});
    OneMore(es, 2);
    assert Exec(es, 3) == Single(Some(0), Some(0), {}, 0, Thread(p.rest, NoFlags, {}), [], {});
    OneMore(es, 3);
    OneMore(es, 4);
  }

  lemma FlagCleared(es: seq<Event>)
    requires |es| == 15 && es[5] == Raise && forall i :: 6 <= i < 11 ==> es[i] == Run(0, [])
    requires Exec(es, 5)
          == Single(Some(0), Some(0), {}, 0, Thread(AFTER_READ, ReadNotCleared, {}), [], {})
    ensures Exec(es, 11)
         == Single(Some(0), Some(0), {}, 1, Thread(AFTER_CLEAR, ReadAndCleared, {}), [], {0})
  {
    assert Exec(es, 6)
        == Single(Some(0), Some(0), {0}, 1, Thread(AFTER_READ, ReadNotCleared, {}), [], {});
    hide Exec, Step;
    OneMore(es, 6);
    OneMore(es, 7);
    assert Exec(es, 8)
        == Single(None, Some(0), {0}, 1, Thread(CLEAR, ReadNotCleared, {}), [], {});
    OneMore(es, 8);
    OneMore(es, 9);
    assert Exec(es, 10)
        == Single(Some(0), Some(0), {0}, 1, Thread(CLEAR.rest.rest, ReadNotCleared, {}), [], {});
    OneMore(es, 10);
    assert Unread(Exec(es, 10)) == {0};
  }

  lemma FlagForgotten(es: seq<Event>)
    requires |es| == 15 && forall i :: 11 <= i < 15 ==> es[i] == Run(0, [])
    requires Exec(es, 11)
          == Single(Some(0), Some(0), {}, 1, Thread(AFTER_CLEAR, ReadAndCleared, {}), [], {0})
    ensures Exec(es, 15) == Single(None, None, {}, 1, IDLE, [{}], {0})
  {
    hide Exec, Step;
    OneMore(es, 11);
    OneMore(es, 12);
    assert Exec(es, 13)
        == Single(None, Some(0), {}, 1, Thread(UNLOCK, ReadAndCleared, {}), [], {0});
    OneMore(es, 13);
    OneMore(es, 14);
  }

  // ------------------------------------------------------------------ the mode a dispatch acts by

  /** Step k is thread t's read of the flags. */
  predicate ReadsFlags(es: seq<Event>, k: nat, t: Tid)
    requires k < |es|
  {
    es[k].Run? && es[k].t == t && Enabled(Exec(es, k), t) && At(Exec(es, k), t).todo.head == Spi(GetIrqStatus)
  }

  /** Flags come into a thread's hand by its read, and stay as they were read. */
  lemma HandStep(s: State, e: Event, t: Tid)
    requires At(Step(s, e), t).phase != NoFlags
    ensures
      || (At(s, t).phase != NoFlags && At(Step(s, e), t).flags == At(s, t).flags)
      || (&& e.Run? && e.t == t && Enabled(s, t) && At(s, t).todo.head == Spi(GetIrqStatus)
          && At(Step(s, e), t).flags == s.raised)
  {
    hide Body, Bodies, Unread;
  }

  lemma {:induction false} ReadBefore(es: seq<Event>, n: nat, t: Tid) returns (k: nat)
    requires n <= |es| && At(Exec(es, n), t).phase != NoFlags
    ensures k < n && ReadsFlags(es, k, t) && At(Exec(es, n), t).flags == Exec(es, k).raised
  {
    hide Step, Inv, Enabled;
    if n == 0 {
      assert false;
    } else {
      HandStep(Exec(es, n - 1), es[n - 1], t);
      if At(Exec(es, n - 1), t).phase != NoFlags && At(Exec(es, n), t).flags == At(Exec(es, n - 1), t).flags {
        k := ReadBefore(es, n - 1, t);
      } else {
        k := n - 1;
      }
    }
  }

  /** Step j assigns the operating mode. */
  predicate SetsMode(es: seq<Event>, j: nat)
    requires j < |es|
  {
    es[j].Run? && Enabled(Exec(es, j), es[j].t) && At(Exec(es, j), es[j].t).todo.head.SetMode?
  }

  function ModeSet(es: seq<Event>, j: nat): OperatingMode
    requires j < |es| && SetsMode(es, j)
  {
    At(Exec(es, j), es[j].t).todo.head.mode
  }

  /** The last assignment of steps k .. n - 1, if any, is of another mode than m. */
  ghost predicate ChangedFrom(es: seq<Event>, k: nat, n: nat, m: OperatingMode)
    requires n <= |es|
  {
    exists j :: k <= j < n && SetsMode(es, j) && ModeSet(es, j) != m && forall i :: j < i < n ==> !SetsMode(es, i)
  }

  lemma ChangedStep(es: seq<Event>, k: nat, n: nat, m: OperatingMode)
    requires k <= n < |es|
    ensures ChangedFrom(es, k, n + 1, m) <==>
      if SetsMode(es, n) then ModeSet(es, n) != m else ChangedFrom(es, k, n, m)
  {
    hide SetsMode, ModeSet;
    if ChangedFrom(es, k, n + 1, m) {
      var j :| && k <= j < n + 1 && SetsMode(es, j) && ModeSet(es, j) != m
               && forall i :: j < i < n + 1 ==> !SetsMode(es, i);
      if j < n {
        assert !SetsMode(es, n) && ChangedFrom(es, k, n, m);
      }
    }
    if SetsMode(es, n) && ModeSet(es, n) != m {
      assert ChangedFrom(es, k, n + 1, m);
    }
    if !SetsMode(es, n) && ChangedFrom(es, k, n, m) {
      var j :| k <= j < n && SetsMode(es, j) && ModeSet(es, j) != m && forall i :: j < i < n ==> !SetsMode(es, i);
      assert ChangedFrom(es, k, n + 1, m);
    }
  }

  lemma ModeStep(es: seq<Event>, n: nat)
    requires n < |es|
    ensures Exec(es, n + 1).mode == if SetsMode(es, n) then ModeSet(es, n) else Exec(es, n).mode
  {
    hide Body, Bodies, Unread;
  }

  lemma {:induction false} ModeChanged(es: seq<Event>, k: nat, n: nat)
    requires k <= n <= |es|
    ensures Exec(es, n).mode != Exec(es, k).mode <==> ChangedFrom(es, k, n, Exec(es, k).mode)
  {
    hide Exec, SetsMode, ModeSet, ChangedFrom;
    if n == k {
      NothingChanged(es, k, Exec(es, k).mode);
    } else {
      ModeChanged(es, k, n - 1);
      ChangedStep(es, k, n - 1, Exec(es, k).mode);
      ModeStep(es, n - 1);
    }
  }

  lemma NothingChanged(es: seq<Event>, k: nat, m: OperatingMode)
    requires k <= |es|
    ensures !ChangedFrom(es, k, k, m)
  {
  }

  datatype Kind = TxDone | RxDone

  /** The switch of ProcessIrqs heeds TX_DONE in transmit mode only and RX_DONE in receive mode only. */
  predicate Heeds(mode: OperatingMode, kind: Kind) {
    match kind
    case TxDone => mode == TxMode
    case RxDone => mode == RxMode
  }

  /** ProcessIrqs looks at the operating mode only after it has released its lock.  So a TX_DONE or RX_DONE
      that belongs to the mode at its read, at step k, is heeded at its dispatch, at step n, exactly when no
      assignment in between left another mode. */
  lemma HeededExactly(es: seq<Event>, n: nat, kind: Kind) returns (k: nat)
    requires n < |es| && es[n].Run? && Enabled(Exec(es, n), es[n].t) && At(Exec(es, n), es[n].t).todo.head == Dispatch
    ensures k < n && ReadsFlags(es, k, es[n].t)
    ensures Exec(es, n + 1).dispatched == Exec(es, n).dispatched + [Exec(es, k).raised]
    ensures Heeds(Exec(es, k).mode, kind) ==>
      (Heeds(Exec(es, n).mode, kind) <==> !ChangedFrom(es, k, n, Exec(es, k).mode))
  {
    DispatchHasFlags(es, n);
    k := ReadBefore(es, n, es[n].t);
    hide Exec, ChangedFrom, ReadsFlags;
    ModeChanged(es, k, n);
  }

  lemma DispatchHasFlags(es: seq<Event>, n: nat)
    requires n < |es| && es[n].Run? && Enabled(Exec(es, n), es[n].t) && At(Exec(es, n), es[n].t).todo.head == Dispatch
    ensures At(Exec(es, n), es[n].t).phase != NoFlags
    ensures Exec(es, n + 1).dispatched == Exec(es, n).dispatched + [At(Exec(es, n), es[n].t).flags]
  {
    RunsKeepInv(es, n);
    var s, t := Exec(es, n), es[n].t;
    assert Obeys(At(s, t).todo, s.io == Some(t), s.io2 == Some(t), At(s, t).phase);
  }

  // ------------------------------------------------------------------ and a run in which it is not

  /** m instructions of one thread, with nobody else moving. */
  function Alone(s: State, t: Tid, m: nat): State
    decreases m
  {
    if m == 0 then s else Alone(Step(s, Run(t, [])), t, m - 1)
  }

  lemma {:induction false} AloneRuns(es: seq<Event>, i: nat, m: nat, t: Tid)
    requires i + m <= |es| && forall k :: i <= k < i + m ==> es[k] == Run(t, [])
    ensures Exec(es, i + m) == Alone(Exec(es, i), t, m)
    decreases m
  {
    hide Step;
    if m > 0 {
      assert Exec(es, i + 1) == Step(Exec(es, i), es[i]);
      AloneRuns(es, i + 1, m - 1, t);
    }
  }

  lemma {:induction false} AloneSplits(s: State, t: Tid, a: nat, b: nat)
    ensures Alone(s, t, a + b) == Alone(Alone(s, t, a), t, b)
    decreases a
  {
    hide Step;
    if a > 0 {
      AloneSplits(Step(s, Run(t, [])), t, a - 1, b);
    }
  }

  /** From s to s' only thread t has moved, with no SPI section open at the end. */
  ghost predicate Leads(s: State, s': State, t: Tid, th: Thread,
                        io2: Option<Tid>, raised: set<nat>, mode: OperatingMode) {
    && s'.io == None && s'.io2 == io2 && !s'.busy && s'.raised == raised && s'.count == s.count && s'.mode == mode
    && At(s', t) == th && forall u :: u != t ==> At(s', u) == At(s, u)
  }

  predicate Quiet(s: State) {
    s.io == None && !s.busy
  }

  lemma TransactionRuns(s: State, t: Tid, command: Command, k: Program)
    requires Quiet(s) && At(s, t).todo == Transaction(command, k)
    ensures var th := At(s, t);
      Leads(s, Alone(s, t, 5), t,
            Thread(k, PhaseAfter(command, th.phase), if command == GetIrqStatus then s.raised else th.flags),
            s.io2, if command == ClearIrqStatus then {} else s.raised, s.mode)
  {
    hide Unread, Body, Bodies;
    var s1 := Step(s, Run(t, []));
    var s2 := Step(s1, Run(t, []));
    assert At(s2, t).todo == Do(Spi(command), Do(WaitOnBusy, Do(Release(IOLock), k))) && s2.io == Some(t);
    var s3 := Step(s2, Run(t, []));
    assert At(s3, t).todo == Do(WaitOnBusy, Do(Release(IOLock), k)) && s3.io == Some(t);
    var s4 := Step(s3, Run(t, []));
    assert At(s4, t).todo == Do(Release(IOLock), k);
    assert Alone(s, t, 5) == Alone(s4, t, 1) == Step(s4, Run(t, []));
  }

  /** Instructions that take or free IOLock2, call a hook or assign the mode. */
  predicate Simple(i: Instr) {
    i.Local? || i.SetMode? || i == Acquire(IOLock2) || i == Release(IOLock2)
  }

  lemma SimpleRuns(s: State, t: Tid)
    requires Quiet(s) && At(s, t).todo.Do? && Simple(At(s, t).todo.head)
    requires At(s, t).todo.head == Acquire(IOLock2) ==> s.io2 == None
    ensures var th := At(s, t);
      Leads(s, Alone(s, t, 1), t, th.(todo := th.todo.rest),
            match th.todo.head case Acquire(_) => Some(t) case Release(_) => None case _ => s.io2,
            s.raised, if th.todo.head.SetMode? then th.todo.head.mode else s.mode)
  {
    assert Alone(s, t, 1) == Step(s, Run(t, []));
  }

  /** b more instructions after a. */
  lemma LeadsOn(s: State, t: Tid, a: nat, b: nat, th: Thread, io2: Option<Tid>, raised: set<nat>, mode: OperatingMode)
    requires var s1 := Alone(s, t, a); Leads(s, s1, t, At(s1, t), s1.io2, s1.raised, s1.mode)
    requires Leads(Alone(s, t, a), Alone(Alone(s, t, a), t, b), t, th, io2, raised, mode)
    ensures Leads(s, Alone(s, t, a + b), t, th, io2, raised, mode)
  {
    hide Alone;
    AloneSplits(s, t, a, b);
  }

  lemma TransmitStarts(s: State, t: Tid, mode: OperatingMode)
    requires Quiet(s) && s.io2 == None && At(s, t).todo == Transmit(mode, false, Done)
    ensures Leads(s, Alone(s, t, 8), t,
                  Thread(Transaction(OtherCommand, Do(SetMode(mode), Do(Release(IOLock2), Done))),
                         PhaseAfter(ClearIrqStatus, At(s, t).phase), At(s, t).flags),
                  Some(t), {}, s.mode)
  {
    hide Alone, Step, Transaction, At;
    var hooks := Turn(mode == TxMode, Transaction(OtherCommand, Do(SetMode(mode), Do(Release(IOLock2), Done))));
    var th := Thread(hooks, PhaseAfter(ClearIrqStatus, At(s, t).phase), At(s, t).flags);
    SimpleRuns(s, t);
    TransactionRuns(Alone(s, t, 1), t, ClearIrqStatus, hooks);
    LeadsOn(s, t, 1, 5, th, Some(t), {}, s.mode);
    SimpleRuns(Alone(s, t, 6), t);
    LeadsOn(s, t, 6, 1, th.(todo := hooks.rest), Some(t), {}, s.mode);
    SimpleRuns(Alone(s, t, 7), t);
    LeadsOn(s, t, 7, 1, th.(todo := hooks.rest.rest), Some(t), {}, s.mode);
  }

  /** SetTx or SetRx from start to end. */
  lemma TransmitRuns(s: State, t: Tid, mode: OperatingMode)
    requires Quiet(s) && s.io2 == None && At(s, t) == Thread(Transmit(mode, false, Done), NoFlags, {})
    ensures Leads(s, Alone(s, t, 15), t, IDLE, None, {}, mode)
  {
    TransmitStarts(s, t, mode);
    hide Alone, Step, Transaction, At;
    var end := Do(SetMode(mode), Do(Release(IOLock2), Done));
    TransactionRuns(Alone(s, t, 8), t, OtherCommand, end);
    LeadsOn(s, t, 8, 5, Thread(end, NoFlags, {}), Some(t), {}, s.mode);
    SimpleRuns(Alone(s, t, 13), t);
    LeadsOn(s, t, 13, 1, Thread(end.rest, NoFlags, {}), Some(t), {}, mode);
    SimpleRuns(Alone(s, t, 14), t);
    LeadsOn(s, t, 14, 1, IDLE, None, {}, mode);
  }

  /** ProcessIrqs up to its dispatch. */
  lemma ProcessIrqsRuns(s: State, t: Tid)
    requires Quiet(s) && s.io2 == None && At(s, t) == Thread(Body(ProcessIrqs, Done), NoFlags, {})
    ensures Leads(s, Alone(s, t, 12), t, Thread(Do(Dispatch, Done), ReadAndCleared, s.raised), None, {}, s.mode)
  {
    assert Body(ProcessIrqs, Done) == Do(Acquire(IOLock2), Transaction(GetIrqStatus, CLEAR));
    hide Alone, Step, Transaction, At;
    SimpleRuns(s, t);
    TransactionRuns(Alone(s, t, 1), t, GetIrqStatus, CLEAR);
    LeadsOn(s, t, 1, 5, Thread(CLEAR, ReadNotCleared, s.raised), Some(t), s.raised, s.mode);
    TransactionRuns(Alone(s, t, 6), t, ClearIrqStatus, UNLOCK);
    LeadsOn(s, t, 6, 5, Thread(UNLOCK, ReadAndCleared, s.raised), Some(t), {}, s.mode);
    SimpleRuns(Alone(s, t, 11), t);
    LeadsOn(s, t, 11, 1, Thread(UNLOCK.rest, ReadAndCleared, s.raised), None, {}, s.mode);
  }

  /** A radio receives and raises RX_DONE; thread 0 reads and clears it in ProcessIrqs, thread 1 calls SetTx,
      and thread 0 dispatches the flag in transmit mode, where nobody heeds it. */
  lemma NotHeededRun()
    ensures exists es: seq<Event>, n: nat ::
      && n < |es| && es[n] == Run(0, []) && At(Exec(es, n), 0).todo == Do(Dispatch, Done)
      && At(Exec(es, n), 0).flags == {0} && Exec(es, n).mode == TxMode
      && exists k :: 0 <= k < n && es[k] == Raise && Exec(es, k).mode == RxMode
  {
    hide Exec, Body, At;
    var es := seq(47, k requires 0 <= k < 47 => NotHeededEvent(k));
    FirstReceives(es);
    ThenRaises(es);
    ReadsInReceive(es);
    ThenTransmits(es);
    assert es[46] == Run(0, []) && es[16] == Raise;
  }

  function NotHeededEvent(k: nat): Event {
    if k == 0 then Invoke(1, SetRx(false))
    else if k == 16 then Raise
    else if k == 17 then Invoke(0, ProcessIrqs)
    else if k == 30 then Invoke(1, SetTx(false))
    else if 18 <= k < 30 || k == 46 then Run(0, [])
    else Run(1, [])
  }

  lemma CallBegins(es: seq<Event>, n: nat)
    requires n < |es| && es[n].Invoke? && At(Exec(es, n), es[n].t) == IDLE && Quiet(Exec(es, n))
    ensures var s := Exec(es, n);
      Leads(s, Exec(es, n + 1), es[n].t, Thread(Body(es[n].call, Done), NoFlags, {}), s.io2, s.raised, s.mode)
  {
    hide Body;
  }

  lemma AllIdleAtStart(es: seq<Event>)
    ensures var s := Exec(es, 0);
      Quiet(s) && s.io2 == None && s.count == 0 && forall t :: At(s, t) == IDLE
  {
    assert Exec(es, 0) == INIT;
  }

  /** Thread 1 runs SetRx. */
  lemma FirstReceives(es: seq<Event>)
    requires |es| > 16 && es[0] == Invoke(1, SetRx(false)) && forall k :: 1 <= k < 16 ==> es[k] == Run(1, [])
    ensures var s := Exec(es, 16);
      && Quiet(s) && s.io2 == None && s.raised == {} && s.count == 0 && s.mode == RxMode
      && forall t :: At(s, t) == IDLE
  {
    SetRxTransmits();
    hide Exec, Body, Transmit, At, Alone, Step;
    AllIdleAtStart(es);
    CallBegins(es, 0);
    AloneRuns(es, 1, 15, 1);
    TransmitRuns(Exec(es, 1), 1, RxMode);
  }

  lemma SetRxTransmits()
    ensures Body(SetRx(false), Done) == Transmit(RxMode, false, Done)
  {
  }

  lemma ThenRaises(es: seq<Event>)
    requires |es| > 16 && es[16] == Raise
    requires var s := Exec(es, 16);
      && Quiet(s) && s.io2 == None && s.raised == {} && s.count == 0 && s.mode == RxMode
      && forall t :: At(s, t) == IDLE
    ensures var s := Exec(es, 17);
      Quiet(s) && s.io2 == None && s.raised == {0} && s.mode == RxMode && forall t :: At(s, t) == IDLE
  {
    hide Exec, At, Step;
    RaiseRuns(es, 16);
  }

  lemma RaiseRuns(es: seq<Event>, n: nat)
    requires n < |es| && es[n] == Raise
    ensures var s, s' := Exec(es, n), Exec(es, n + 1);
      s' == s.(raised := s.raised + {s.count}, count := s.count + 1) && forall t :: At(s', t) == At(s, t)
  {
  }

  /** Thread 0 runs ProcessIrqs up to its dispatch. */
  lemma ReadsInReceive(es: seq<Event>)
    requires |es| > 30 && es[17] == Invoke(0, ProcessIrqs) && forall k :: 18 <= k < 30 ==> es[k] == Run(0, [])
    requires var s := Exec(es, 17);
      Quiet(s) && s.io2 == None && s.raised == {0} && s.mode == RxMode && forall t :: At(s, t) == IDLE
    ensures var s := Exec(es, 30);
      && Quiet(s) && s.io2 == None && At(s, 1) == IDLE
      && At(s, 0) == Thread(Do(Dispatch, Done), ReadAndCleared, {0})
  {
    hide Exec, Body, At, Alone;
    CallBegins(es, 17);
    AloneRuns(es, 18, 12, 0);
    ProcessIrqsRuns(Exec(es, 18), 0);
    assert At(Exec(es, 30), 1) == At(Exec(es, 18), 1) == At(Exec(es, 17), 1);
  }

  /** Thread 1 runs SetTx. */
  lemma ThenTransmits(es: seq<Event>)
    requires |es| > 46 && es[30] == Invoke(1, SetTx(false)) && forall k :: 31 <= k < 46 ==> es[k] == Run(1, [])
    requires var s := Exec(es, 30); Quiet(s) && s.io2 == None && At(s, 1) == IDLE
    ensures At(Exec(es, 46), 0) == At(Exec(es, 30), 0) && Exec(es, 46).mode == TxMode
  {
    assert Body(SetTx(false), Done) == Transmit(TxMode, false, Done);
    hide Exec, Body, Transmit, At, Alone;
    CallBegins(es, 30);
    AloneRuns(es, 31, 15, 1);
    TransmitRuns(Exec(es, 31), 1, TxMode);
    assert At(Exec(es, 46), 0) == At(Exec(es, 31), 0) == At(Exec(es, 30), 0);
  }
}
