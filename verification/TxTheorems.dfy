/** The promises of the send side, for any number of sends and every interleaving. */
module TxTheorems {
  import opened Bytes
  import opened XskRing
  import opened TxProtocol
  import opened TxSafety

  lemma ReachableInv(s0: State, es: seq<Event>)
    requires IsStart(s0)
    ensures Inv(Run(s0, es))
  {
    StartInv(s0);
    RunInv(s0, es);
  }

  /** Conservation: every submitted packet is on the TX ring, with the kernel, on the
      completion ring or released, releases never pass completions, and completed
      addresses are those taken. */
  lemma Conservation(s0: State, es: seq<Event>)
    requires IsStart(s0)
    ensures var s := Run(s0, es);
            var t, c := s.txQ, s.compQ;
            && t.taken <= t.submitted <= |t.log| && c.released <= |c.log|
            && t.submitted == (t.submitted - t.taken) + |s.held| + (|c.log| - c.released) + c.released
            && AddrBag(t.log[..t.taken]) == s.held + multiset(c.log)
            && t.reserved <= t.taken + Pow2(s.cfg.txOrder) && |c.log| <= c.released + Pow2(s.cfg.compOrder)
  {
    ReachableInv(s0, es);
    var s := Run(s0, es);
    assert s.txQ.Valid(Pow2(s.tx.order)) && s.compQ.Valid(Pow2(s.comp.order));
    hide Run, ProdCoupled, ConsCoupled, Initialised, AddrBag, Batches, Faithful;
  }

  /** All that was ever put on the TX ring is `sends` whole batches and the part
      written so far, and all that was ever transmitted is the initialised packet. */
  lemma SendsBatches(s0: State, es: seq<Event>)
    requires IsStart(s0)
    ensures var s := Run(s0, es);
            && Written(s) <= s.cfg.batch
            && s.txQ.log == Repeat(Batch(s.cfg), s.sends) + Batch(s.cfg)[..Written(s)]
            && |s.sent| == s.txQ.taken && forall k :: 0 <= k < |s.sent| ==> s.sent[k] == s.cfg.packet
  {
    ReachableInv(s0, es);
    hide Run, Rings, Control, Conserved, Repeat, Batch;
  }

  /** The descriptors of one send name distinct frames in range, each holding exactly
      the packet they announce. */
  lemma BatchIsSound(cfg: TxConfig, umem: seq<byte>)
    requires cfg.Valid() && Initialised(umem, cfg)
    ensures forall i :: 0 <= i < |Batch(cfg)| ==> OwnFrame(umem, cfg, Batch(cfg)[i])
    ensures forall i, j :: 0 <= i < j < |Batch(cfg)| ==> Batch(cfg)[i].addr / FRAME != Batch(cfg)[j].addr / FRAME
  {
    forall i | 0 <= i < |Batch(cfg)| ensures OwnFrame(umem, cfg, Batch(cfg)[i]) {
      assert FrameHolds(umem, i, cfg.packet);
    }
  }

  predicate OwnFrame(umem: seq<byte>, cfg: TxConfig, d: Desc) {
    && d.addr / FRAME < cfg.frames && d.addr % FRAME + d.len <= FRAME && d.addr + d.len <= |umem|
    && umem[d.addr..d.addr + d.len] == cfg.packet
  }

  // No deadlock in the reserve loop.

  /** The application is in the reserve loop of send_packets. */
  predicate Waiting(s: State) {
    s.pc.Reserving? || (s.pc.Draining? && s.pc.retry) || (s.pc.Releasing? && s.pc.retry)
  }

  /** The next reserve would succeed. */
  predicate CanReserve(s: State) {
    s.txQ.reserved + s.cfg.batch <= s.txQ.taken + Pow2(s.cfg.txOrder)
  }

  /** Work outstanding: an entry has to be taken, completed and released. */
  function Work(s: State): int {
    3 * (s.txQ.submitted - s.txQ.taken) + 2 * |s.held| + (|s.compQ.log| - s.compQ.released)
  }

  /** Some step of the kernel is enabled. */
  predicate KernelReady(s: State) {
    CanTake(s) || (s.held != multiset{} && s.comp.HasRoom())
  }

  /** As long as work is outstanding, the kernel can step or a completion waits to be
      released. */
  lemma WorkLeft(s: State)
    requires s.Typed() && Inv(s) && Work(s) > 0
    ensures KernelReady(s) || s.compQ.released < |s.compQ.log|
  {
    hide ProdCoupled, Initialised, CanTake, Ring.HasRoom, Ring.Publish, AddrBag, Batches, Faithful, Window;
    CanTakeIs(s);
    PublishAgrees(s.comp, s.compQ, 0);
    assert |s.held| > 0 ==> s.held != multiset{};
  }

  /** Whenever the reserve would fail, one of these steps is there: the application and
      the kernel never wait for each other. */
  lemma NeverStuck(s: State)
    requires s.Typed() && Inv(s) && Waiting(s) && !CanReserve(s)
    ensures KernelReady(s) || s.compQ.released < |s.compQ.log|
  {
    hide Initialised, AddrBag, Batches, Faithful, Window, KernelReady, Pow2;
    WorkLeft(s);
  }

  lemma WorkIsNatural(s: State)
    requires Inv(s)
    ensures Work(s) >= 0
  {
    assert s.txQ.Valid(Pow2(s.tx.order)) && s.compQ.Valid(Pow2(s.comp.order));
  }

  /** A kernel step that is enabled does work. */
  lemma KernelWorks(s: State, e: Event)
    requires s.Typed() && Inv(s) && !e.App?
    ensures Next(s, e) != s ==> Work(Next(s, e)) == Work(s) - 1
    ensures Work(Next(s, e)) <= Work(s) && Next(s, e).pc == s.pc && Next(s, e).cfg == s.cfg
    ensures Next(s, e).compQ.released == s.compQ.released && Next(s, e).txQ.reserved == s.txQ.reserved
    ensures s.txQ.taken <= Next(s, e).txQ.taken && s.compQ.log <= Next(s, e).compQ.log
    ensures s.compQ.claimed == Next(s, e).compQ.claimed
  {
    hide Inv, CanTake, Ring.Take, Ring.HasRoom, Ring.Publish, Transmitted;
    if e.KComplete? && e.addr in s.held {
      assert |s.held| == |s.held - multiset{e.addr}| + 1;
    }
  }

  // In the reserve loop the application adds no work, and a release does some.

  lemma ReserveWorks(s: State)
    requires s.Typed() && Inv(s) && s.pc.Reserving?
    ensures var s' := AppStep(s);
            && Work(s') == Work(s) && s'.cfg == s.cfg
            && (if CanReserve(s) then s'.pc.Writing? && s'.pc.i == 0 else s'.pc == Draining(true))
            && (!CanReserve(s) ==> s'.txQ.reserved == s.txQ.reserved) && s'.txQ.taken == s.txQ.taken
            && s'.compQ == s.compQ
  {
    hide ConsCoupled, Initialised, Data, Ring.Reserve, Window, Pow2;
    ReserveAgrees(s.tx, s.txQ, s.cfg.batch);
  }

  lemma DrainWorks(s: State)
    requires s.Typed() && Inv(s) && s.pc.Draining?
    ensures var s' := AppStep(s);
            && Work(s') == Work(s) && s'.cfg == s.cfg && s'.txQ == s.txQ && s'.held == s.held
            && s'.compQ.log == s.compQ.log && s'.compQ.released == s.compQ.released
            && s.compQ.released == s.compQ.claimed <= s.compQ.seen <= |s.compQ.log|
            && s'.compQ.seen == (if s.compQ.seen != s.compQ.claimed then s.compQ.seen else |s.compQ.log|)
            && s'.compQ.claimed == s.compQ.claimed + Min(s.cfg.batch, s'.compQ.seen - s.compQ.claimed)
            && (s'.pc.Releasing? ==> s'.pc.n == s'.compQ.claimed - s.compQ.claimed)
            && if s.compQ.released < |s.compQ.log| then s'.pc.Releasing? && s'.pc.retry == s.pc.retry
               else s'.pc == After(s.pc.retry)
  {
    hide ProdCoupled, Initialised, Data, Ring.Peek, Window, Pow2;
    PeekAgrees(s.comp, s.compQ, s.cfg.batch);
  }

  lemma ReleaseWorks(s: State)
    requires s.Typed() && Inv(s) && s.pc.Releasing?
    ensures var s' := AppStep(s);
            && Work(s') < Work(s) && s'.cfg == s.cfg && s'.txQ == s.txQ && s'.pc == After(s.pc.retry)
            && s'.compQ == s.compQ.(released := s.compQ.released + s.pc.n)
  {
    hide ProdCoupled, ConsCoupled, Initialised, Data, Ring.Release;
  }

  /** A waiting state stays waiting, or goes on to write descriptors, and no step of
      either side adds work. */
  lemma WaitingStep(s: State, e: Event)
    requires s.Typed() && Inv(s) && Waiting(s)
    ensures var s' := Next(s, e);
            Work(s') <= Work(s) && (Waiting(s') || (e.App? && s.pc.Reserving? && CanReserve(s) && s'.pc.Writing?))
  {
    hide Inv, Work, KernelTake, KernelComplete, CanReserve, AppStep;
    if e.App? {
      match s.pc {
        case Reserving => ReserveWorks(s);
        case Draining(_) => DrainWorks(s);
        case Releasing(_, _) => ReleaseWorks(s);
      }
    } else {
      KernelWorks(s, e);
    }
  }

  /** How many of these steps do work. */
  function WorkingSteps(s: State, es: seq<Event>): nat
    requires s.Typed()
    decreases |es|
  {
    if es == [] then 0
    else
      var before := Run(s, es[..|es| - 1]);
      WorkingSteps(s, es[..|es| - 1]) + (if Work(Next(before, es[|es| - 1])) < Work(before) then 1 else 0)
  }

  /** The reserve loop cannot spin for ever against a kernel that works: as long as
      the application waits, at most Work(s) steps can do work. */
  lemma {:induction false} WaitingIsBounded(s: State, es: seq<Event>)
    requires s.Typed() && Inv(s)
    requires forall n :: 0 <= n < |es| ==> Waiting(Run(s, es[..n]))
    ensures WorkingSteps(s, es) + Work(Run(s, es)) <= Work(s)
    ensures WorkingSteps(s, es) <= Work(s)
    decreases |es|
  {
    hide Inv, Work, Next;
    if es != [] {
      var most := es[..|es| - 1];
      assert forall n :: 0 <= n < |most| ==> most[..n] == es[..n];
      WaitingIsBounded(s, most);
      RunInv(s, most);
      WaitingStep(Run(s, most), es[|es| - 1]);
    }
    RunInv(s, es);
    WorkIsNatural(Run(s, es));
  }

  lemma {:induction false} RunCons(s: State, e: Event, es: seq<Event>)
    requires s.Typed()
    ensures Run(s, [e] + es) == Run(Next(s, e), es)
    decreases |es|
  {
    hide Next;
    if es == [] {
      assert [e] + es == [e] && [e][..0] == [];
    } else {
      var most := es[..|es| - 1];
      RunCons(s, e, most);
      assert ([e] + es)[..|es|] == [e] + most;
    }
  }

  /** Rank of a waiting state among those with the same work. */
  function Phase(s: State): nat {
    match s.pc
    case Releasing(_, _) => 1
    case Draining(_) => 2
    case _ => if CanReserve(s) then 0 else 3
  }

  /** With the kernel idle, the application's next step does work, moves to a later
      phase, or leaves the loop. */
  lemma StepsDown(s: State)
    requires s.Typed() && Inv(s) && Waiting(s) && !KernelReady(s)
    ensures var s' := AppStep(s);
            s'.pc.Writing? || Work(s') < Work(s) || (Work(s') == Work(s) && Phase(s') < Phase(s))
  {
    hide Inv, Work, KernelReady, AppStep, Pow2;
    if !CanReserve(s) {
      NeverStuck(s);
    }
    match s.pc {
      case Reserving => ReserveWorks(s);
      case Draining(_) => DrainWorks(s);
      case Releasing(_, _) => ReleaseWorks(s);
    }
  }

  /** An enabled kernel step. */
  lemma ReadyEvent(s: State) returns (e: Event)
    requires s.Typed() && Inv(s) && KernelReady(s)
    ensures !e.App? && Work(Next(s, e)) == Work(s) - 1 && Next(s, e).pc == s.pc
  {
    if CanTake(s) {
      e := KTake;
    } else {
      var a :| a in s.held;
      e := KComplete(a);
    }
    ReadyChanges(s, e);
    hide Next, Work, Inv, CanTake;
    KernelWorks(s, e);
  }

  lemma ReadyChanges(s: State, e: Event)
    requires s.Typed()
    requires (e.KTake? && CanTake(s)) || (e.KComplete? && e.addr in s.held && s.comp.HasRoom())
    ensures Next(s, e) != s
  {
    hide CanTake, Ring.HasRoom, Ring.Take, Ring.Publish;
    assert e.KComplete? ==> s.held - multiset{e.addr} != s.held by {
      if e.KComplete? {
        assert (s.held - multiset{e.addr})[e.addr] == s.held[e.addr] - 1;
      }
    }
  }

  /** No deadlock: from every reachable waiting state some continuation gets the
      descriptors reserved. The steps are found by following enabled ones. */
  lemma {:induction false} WaitingCanEnd(s: State) returns (es: seq<Event>)
    requires s.Typed() && Inv(s) && Waiting(s)
    ensures Run(s, es).pc.Writing?
    decreases Work(s), Phase(s)
  {
    hide Inv, AppStep, KernelTake, KernelComplete, Work, KernelReady, CanReserve, Phase;
    WorkIsNatural(s);
    var e := App;
    if KernelReady(s) {
      e := ReadyEvent(s);
    } else {
      StepsDown(s);
    }
    NextInv(s, e);
    WaitingStep(s, e);
    var rest := [];
    if Waiting(Next(s, e)) {
      rest := WaitingCanEnd(Next(s, e));
    }
    RunCons(s, e, rest);
    es := [e] + rest;
  }
}
