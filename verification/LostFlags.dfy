/** What a flag lost in the driver does to the amplifier line of the transmitting radio: the driver's runs
    of RadioDriver under the node's runs of RadioNode. */
module LostFlags {
  import opened NodeConfig
  import opened RadioNode
  import RadioDriver

  /** What a numbered flag of the driver is. */
  datatype Kind = TxDone | Timeout | Other

  type Kinds = nat -> Kind

  /** A poll sees what its ProcessIrqs dispatches. */
  ghost predicate Shows(flags: Flags, dispatched: set<nat>, kinds: Kinds) {
    && (flags.txDone <==> exists f :: f in dispatched && kinds(f) == TxDone)
    && (flags.timeout <==> exists f :: f in dispatched && kinds(f) == Timeout)
  }

  /** Calls i + 1 .. n - 1 neither stop the node nor send again. */
  predicate OnlyPolls(es: seq<Event>, i: nat, n: nat)
    requires n <= |es|
  {
    forall j :: i < j < n ==> !es[j].Stop? && !es[j].Send?
  }

  predicate SeesEnd(e: Event) {
    e.Poll? && (e.txFlags.txDone || e.txFlags.timeout)
  }

  /** After an accepted send the transmission is in flight exactly as long as no poll sees its end. */
  lemma {:induction false} InFlightExactly(cfg: Config, es: seq<Event>, i: nat, n: nat)
    requires i < n <= |es| && StartedAfter(cfg, es, i) && es[i].Send? && Transmits(es[i].payload) && OnlyPolls(es, i, n)
    ensures StartedAfter(cfg, es, n)
    ensures InFlight(cfg, es, n) <==> forall j :: i < j < n ==> !SeesEnd(es[j])
  {
    if n > i + 1 {
      InFlightExactly(cfg, es, i, n - 1);
    }
  }

  /** The flags this radio has dispatched, as the polls after call i saw them: poll j is dispatch at(j). */
  ghost predicate PollsShow(es: seq<Event>, i: nat, n: nat, dispatched: seq<set<nat>>, kinds: Kinds, at: nat -> nat)
    requires n <= |es|
  {
    forall j :: i < j < n && es[j].Poll? ==>
      at(j) < |dispatched| && Shows(es[j].txFlags, dispatched[at(j)], kinds)
  }

  /** A dropped flag is in no dispatch. */
  lemma DroppedNotDispatched(ds: seq<RadioDriver.Event>, m: nat, f: nat, d: nat)
    requires m <= |ds| && d < |RadioDriver.Exec(ds, m).dispatched|
    requires f < RadioDriver.Exec(ds, m).count && f in RadioDriver.Exec(ds, m).dropped
    ensures f !in RadioDriver.Exec(ds, m).dispatched[d]
  {
    hide RadioDriver.Exec;
    RadioDriver.FlagInOnePlace(ds, m, f);
  }

  lemma DispatchedWasRaised(ds: seq<RadioDriver.Event>, m: nat, f: nat, d: nat)
    requires m <= |ds| && d < |RadioDriver.Exec(ds, m).dispatched| && f in RadioDriver.Exec(ds, m).dispatched[d]
    ensures f < RadioDriver.Exec(ds, m).count
  {
    hide RadioDriver.Exec;
    RadioDriver.FlagsDispatchedAtMostOnce(ds, m, d, d, f);
  }

  /** If every flag that ends a transmission was dropped in the driver, the amplifier line of a radio with
      AssertDuringTxOnly stays asserted after an accepted send, however often the node polls. */
  lemma LostEndKeepsLine(ds: seq<RadioDriver.Event>, m: nat, kinds: Kinds,
                         cfg: Config, es: seq<Event>, ns: seq<Node>, i: nat, n: nat, at: nat -> nat)
    requires m <= |ds| && i < n <= |es| && Run(cfg, es, ns) && OnlyPolls(es, i, n)
    requires StartedAfter(cfg, es, i) && es[i].Send? && Transmits(es[i].payload)
    requires cfg.tx.pins.hasTxEnable && cfg.tx.pins.txEnableBehavior == AssertDuringTxOnly
    requires PollsShow(es, i, n, RadioDriver.Exec(ds, m).dispatched, kinds, at)
    requires forall f :: 0 <= f < RadioDriver.Exec(ds, m).count && kinds(f) != Other ==>
      f in RadioDriver.Exec(ds, m).dropped
    ensures InFlight(cfg, es, n) && ns[n].On? && Asserted(ns[n].tx)
  {
    hide RadioDriver.Exec, Run, StartedAfter, InFlight;
    forall j | i < j < n ensures !SeesEnd(es[j]) {
      if SeesEnd(es[j]) {
        var d := RadioDriver.Exec(ds, m).dispatched;
        var f :| f in d[at(j)] && kinds(f) != Other;
        DispatchedWasRaised(ds, m, f, at(j));
        DroppedNotDispatched(ds, m, f, at(j));
      }
    }
    InFlightExactly(cfg, es, i, n);
    LinesFollowTransmissions(cfg, es, ns, n);
  }
}
