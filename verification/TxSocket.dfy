/** The program text of af_xdp/xdp-sock-tx.c on mutable rings. Between any two steps
    the kernel does whatever `schedule` says; the wakeup in complete_send lets it make
    at least one step if one is enabled. Every method keeps the socket in a reachable
    state of the protocol. */
module TxSocket {
  import opened Bytes
  import opened XskRing
  import opened TxProtocol
  import opened TxSafety
  import opened TxTheorems

  class Socket {
    const cfg: TxConfig
    const schedule: nat -> seq<Event>
    var tick: nat

    var tx: Ring<Desc>
    var comp: Ring<nat>
    var umem: seq<byte>
    var held: multiset<nat>
    var sent: seq<seq<byte>>

    ghost var pc: Pc
    ghost var txQ: ProdLog<Desc>
    ghost var compQ: ConsLog<nat>
    ghost var sends: nat

    ghost const start: State
    ghost var events: seq<Event>

    ghost function Now(): State
      reads this
    {
      State(cfg, tx, comp, umem, held, sent, pc, txQ, compQ, sends)
    }

    /** The socket is where these events lead from the start. */
    ghost predicate Valid()
      reads this
    {
      start.Typed() && IsStart(start) && Now() == Run(start, events)
    }

    lemma ValidInv()
      requires Valid()
      ensures Inv(Now()) && Now().Typed()
    {
      hide IsStart, Inv, Run;
      StartInv(start);
      RunInv(start, events);
    }

    lemma Did(e: Event, was: State, es: seq<Event>)
      requires start.Typed() && IsStart(start) && was == Run(start, es)
      ensures Run(start, es + [e]) == Next(was, e)
    {
      assert (es + [e])[..|es|] == es;
    }

    /** Copy the packet to the first `batch` frames; both rings are empty. */
    constructor (cfg: TxConfig, tx0: Ring<Desc>, comp0: Ring<nat>, bufs: seq<byte>, schedule: nat -> seq<Event>)
      requires cfg.Valid() && |bufs| == cfg.frames * FRAME
      requires tx0.Valid() && tx0.order == cfg.txOrder && comp0.Valid() && comp0.order == cfg.compOrder
      requires tx0.producer == tx0.consumer == tx0.cachedProd == 0 && tx0.cachedCons == Pow2(cfg.txOrder) % U32
      requires comp0.producer == comp0.consumer == comp0.cachedProd == comp0.cachedCons == 0
      ensures Valid() && pc == Idle && this.cfg == cfg && this.schedule == schedule
      ensures sends == 0 && txQ.log == [] && sent == [] && Initialised(umem, cfg)
    {
      var area := bufs;
      var i := 0;
      while i < cfg.batch
        invariant i <= cfg.batch && |area| == |bufs|
        invariant forall k :: 0 <= k < i ==> FrameHolds(area, k, cfg.packet)
      {
        ghost var before := area;
        area := PutBytes(area, i * FRAME, cfg.packet);
        forall k | 0 <= k < i ensures FrameHolds(area, k, cfg.packet) {
          LowerFrameKept(before, i, k, cfg.packet);
        }
        assert area[i * FRAME..i * FRAME + |cfg.packet|] == cfg.packet;
        i := i + 1;
      }
      this.cfg, this.schedule, tick := cfg, schedule, 0;
      tx, comp, umem, held, sent := tx0, comp0, area, multiset{}, [];
      pc, txQ, compQ, sends := Idle, ProdLog([], 0, 0, 0, 0), ConsLog([], 0, 0, 0), 0;
      start := State(cfg, tx0, comp0, area, multiset{}, [], Idle, ProdLog([], 0, 0, 0, 0), ConsLog([], 0, 0, 0), 0);
      events := [];
    }

    // The kernel.

    method Take()
      requires Now().Typed()
      modifies this`tx, this`held, this`txQ, this`sent
      ensures Now() == KernelTake(old(Now()))
    {
      hide Ring.HasEntry, Ring.Take, Transmitted;
      if tx.HasEntry() && |held| + Sub32(comp.producer, comp.consumer) < Pow2(comp.order) {
        var (ring, d) := tx.Take();
        tx, held, sent := ring, held + multiset{d.addr}, sent + [Transmitted(umem, d)];
        txQ := txQ.(taken := txQ.taken + 1);
      }
    }

    method Complete(addr: nat)
      requires Now().Typed()
      modifies this`comp, this`held, this`compQ
      ensures Now() == KernelComplete(old(Now()), addr)
    {
      hide Ring.HasRoom, Ring.Publish;
      if addr in held && comp.HasRoom() {
        comp, held := comp.Publish(addr), held - multiset{addr};
        compQ := compQ.(log := compQ.log + [addr]);
      }
    }

    method KernelStep(e: Event)
      requires Valid()
      modifies this`tx, this`comp, this`held, this`sent, this`txQ, this`compQ, this`events
      ensures Valid() && Now() == if e.App? then old(Now()) else Next(old(Now()), e)
    {
      hide Run, IsStart, KernelTake, KernelComplete, AppStep;
      ghost var was, es := Now(), events;
      assert was.Typed();
      match e {
        case App => return;
        case KTake => Take();
        case KComplete(addr) => Complete(addr);
      }
      events := events + [e];
      Did(e, was, es);
    }

    /** Let the kernel run as scheduled. */
    method Interfere()
      requires Valid()
      modifies this`tick, this`tx, this`comp, this`held, this`sent, this`txQ, this`compQ, this`events
      ensures Valid() && OnlyKernel(old(Now()), Now())
    {
      hide Run, IsStart, Next;
      var steps := schedule(tick);
      tick := tick + 1;
      var k := 0;
      while k < |steps|
        invariant Valid() && OnlyKernel(old(Now()), Now())
      {
        ValidInv();
        if !steps[k].App? {
          KernelKeeps(Now(), steps[k]);
        }
        KernelStep(steps[k]);
        k := k + 1;
      }
    }

    /** The wakeup: the kernel runs, and makes a step if one is enabled. */
    method Wakeup()
      requires Valid()
      modifies this`tick, this`tx, this`comp, this`held, this`sent, this`txQ, this`compQ, this`events
      ensures Valid() && OnlyKernel(old(Now()), Now())
      ensures Work(Now()) < Work(old(Now())) || !KernelReady(Now())
    {
      hide Run, IsStart, Inv, Work, CanTake, Next;
      Interfere();
      ValidInv();
      ghost var before := Now();
      var e := App;
      if tx.HasEntry() && |held| + Sub32(comp.producer, comp.consumer) < Pow2(comp.order) {
        e := KTake;
      } else if held != multiset{} && comp.HasRoom() {
        var a :| a in held;
        e := KComplete(a);
      }
      CanTakeMeans(Now());
      if e.App? {
        return;
      }
      ReadyChanges(before, e);
      KernelWorks(before, e);
      KernelKeeps(before, e);
      KernelStep(e);
    }

    // The library calls of the program.

    method Start()
      requires Valid() && pc.Idle?
      modifies this`pc, this`events
      ensures Valid() && pc == Reserving && Work(Now()) == Work(old(Now()))
    {
      hide Run, IsStart;
      ghost var was, es := Now(), events;
      pc := Reserving;
      events := events + [App];
      Did(App, was, es);
    }

    method ReserveTx(n: u32) returns (got: u32, idx: u32)
      requires Valid() && pc.Reserving? && n == cfg.batch
      modifies this`tx, this`txQ, this`pc, this`events
      ensures Valid() && Now() == AppStep(old(Now()))
      ensures pc == if got != n then Draining(true) else Writing(0, idx)
    {
      hide Run, IsStart, Ring.Reserve;
      ghost var was, es := Now(), events;
      var (ring, granted, first) := tx.Reserve(n);
      tx, got, idx := ring, granted, first;
      txQ := txQ.Reserve(n, Pow2(was.tx.order)).0;
      pc := if got != n then Draining(true) else Writing(0, idx);
      events := events + [App];
      Did(App, was, es);
    }

    /** Fill in the descriptor at `txIndex`, for frame `i`. */
    method FillDesc(i: u32, txIndex: u32, len: nat)
      requires Valid() && pc == Writing(i, txIndex) && len == |cfg.packet|
      modifies this`tx, this`txQ, this`pc, this`events
      ensures Valid() && Now() == AppStep(old(Now()))
      ensures tx == old(tx).Write(txIndex, Desc(Shl(i, FRAME_SHIFT), len))
      ensures txQ == old(txQ).(log := old(txQ.log) + [Desc(Shl(i, FRAME_SHIFT), len)])
      ensures pc == if i + 1 >= cfg.batch then Submitting else Writing(i + 1, Add32(txIndex, 1))
    {
      hide Run, IsStart, Ring.Write, Shl, Add32;
      ghost var was, es := Now(), events;
      var d := Desc(Shl(i, FRAME_SHIFT), len);
      tx, txQ := tx.Write(txIndex, d), txQ.(log := txQ.log + [d]);
      pc := if i + 1 >= cfg.batch then Submitting else Writing(i + 1, Add32(txIndex, 1));
      events := events + [App];
      Did(App, was, es);
    }

    method SubmitTx(n: u32)
      requires Valid() && pc.Submitting? && n == cfg.batch
      modifies this`tx, this`txQ, this`pc, this`sends, this`events
      ensures Valid() && Now() == AppStep(old(Now())) && pc == Draining(false) && sends == old(sends) + 1
      ensures tx == old(tx).Submit(n) && txQ.submitted == old(txQ).submitted + n
      ensures Work(Now()) == Work(old(Now())) + 3 * n
    {
      hide Run, IsStart, Ring.Submit;
      ghost var was, es := Now(), events;
      tx, txQ := tx.Submit(n), txQ.(submitted := txQ.submitted + n);
      pc, sends := Draining(false), sends + 1;
      events := events + [App];
      Did(App, was, es);
    }

    method PeekCompletions(n: u32) returns (got: u32)
      requires Valid() && pc.Draining? && n == cfg.batch
      modifies this`comp, this`compQ, this`pc, this`events
      ensures Valid() && Now() == AppStep(old(Now()))
      ensures pc == if got > 0 then Releasing(got, old(pc).retry) else After(old(pc).retry)
      ensures old(compQ.claimed <= compQ.seen <= |compQ.log|)
      ensures got == Min(n, old(if compQ.seen != compQ.claimed then compQ.seen - compQ.claimed
                                else |compQ.log| - compQ.claimed))
    {
      hide Run, IsStart, Inv, Work, Ring.Peek;
      ValidInv();
      DrainWorks(Now());
      ghost var was, es := Now(), events;
      var (ring, available, _) := comp.Peek(n);
      comp, got, compQ := ring, available, compQ.Peek(n).0;
      pc := if got > 0 then Releasing(got, pc.retry) else After(pc.retry);
      events := events + [App];
      Did(App, was, es);
    }

    method ReleaseCompletions(n: u32)
      requires Valid() && pc.Releasing? && pc.n == n
      modifies this`comp, this`compQ, this`pc, this`events
      ensures Valid() && Now() == AppStep(old(Now()))
    {
      hide Run, IsStart, Ring.Release;
      ghost var was, es := Now(), events;
      comp, compQ := comp.Release(n), compQ.(released := compQ.released + n);
      pc := After(pc.retry);
      events := events + [App];
      Did(App, was, es);
    }

    // The program.

    /** `complete_send`: wake the kernel, then release what it completed, at most a
        batch. If work is outstanding some is done, and if that cannot be the taking of
        an entry, a completion is released that may be as recent as the wakeup. */
    method CompleteSend()
      requires Valid() && pc.Draining?
      modifies this
      ensures Valid() && pc == After(old(pc).retry) && sends == old(sends)
      ensures Work(Now()) <= Work(old(Now())) && (0 < Work(old(Now())) ==> Work(Now()) < Work(old(Now())))
      ensures txQ == old(txQ).(taken := txQ.taken) && old(txQ.taken) <= txQ.taken
      ensures Drained(old(Now()), Now())
    {
      hide Run, IsStart, Inv, Work, KernelReady, AppStep;
      ValidInv();
      ghost var before := Now();
      Wakeup();
      ValidInv();
      ghost var awake := Now();
      AfterWakeup(before, awake);
      DrainWorks(awake);
      var numComp := PeekCompletions(cfg.batch);
      Interfere();
      if numComp > 0 {
        ValidInv();
        ReleaseWorks(Now());
        ReleaseCompletions(numComp);
      }
    }

    /** `send_packets`: one more whole batch is on the TX ring and submitted, the kernel
        is woken to work on it, and it has transmitted nothing but the packet. */
    method SendPackets()
      requires Valid() && pc.Idle?
      modifies this
      ensures Valid() && pc.Idle? && sends == old(sends) + 1
      ensures txQ.log == old(txQ.log) + Batch(cfg) && txQ.submitted == |txQ.log| && compQ.released == compQ.claimed
      ensures |sent| == txQ.taken && forall k :: 0 <= k < |sent| ==> sent[k] == cfg.packet
      ensures Work(Now()) < Work(old(Now())) + 3 * cfg.batch
      ensures Work(old(Now())) == 0 ==> old(|sent|) < |sent|
    {
      hide Run, IsStart, Inv, Batch, AppStep, CanReserve, Work, Drained, Ring.Submit, Ring.Read;
      ValidInv();
      WorkIsNatural(Now());
      ghost var before := Now();
      PutBatch();
      CompleteSend();
      Interfere();
      ValidInv();
      OneMoreBatch(before, Now());
    }

    /** Reserve, write the descriptors and submit. */
    method PutBatch()
      requires Valid() && pc.Idle?
      modifies this
      ensures Valid() && pc == Draining(false) && sends == old(sends) + 1 && 0 < cfg.batch
      ensures Work(Now()) <= Work(old(Now())) + 3 * cfg.batch
    {
      hide Run, IsStart, Inv, Batch, AppStep, Work, Ring.Submit, Ring.Read;
      Start();
      Interfere();
      var txIndex := ReserveSlots();
      FillBatch(txIndex);
      SubmitTx(cfg.batch);
      Interfere();
      ValidInv();
      SomeBatch(Now());
    }

    /** The reserve loop of `send_packets`. It ends: every complete_send in it does
        some of the finite work outstanding, and without any there is room. */
    method ReserveSlots() returns (txIndex: u32)
      requires Valid() && pc.Reserving?
      modifies this
      ensures Valid() && pc == Writing(0, txIndex) && sends == old(sends)
      ensures Work(Now()) <= Work(old(Now()))
    {
      hide Run, IsStart, Inv, Work, CanReserve, AppStep, Drained;
      ValidInv();
      ReserveWorks(Now());
      var numTx;
      numTx, txIndex := ReserveTx(cfg.batch);
      Interfere();
      while numTx != cfg.batch
        invariant Valid() && sends == old(sends) && Work(Now()) <= Work(old(Now()))
        invariant pc == if numTx != cfg.batch then Draining(true) else Writing(0, txIndex)
        decreases if numTx != cfg.batch then Work(Now()) + 1 else 0
      {
        ValidInv();
        WorkIsNatural(Now());
        CompleteSend();
        ValidInv();
        ReserveWorks(Now());
        RoomWithoutWork(Now());
        numTx, txIndex := ReserveTx(cfg.batch);
        Interfere();
      }
    }

    /** The loop of `send_packets` over its descriptors. */
    method FillBatch(txIndex: u32)
      requires Valid() && pc == Writing(0, txIndex)
      modifies this
      ensures Valid() && pc == Submitting && sends == old(sends)
      ensures Work(Now()) <= Work(old(Now()))
      ensures txQ.log == old(txQ.log) + Batch(cfg)
      ensures forall k :: 0 <= k < cfg.batch ==> tx.Read(Add32(txIndex, k)) == Batch(cfg)[k]
    {
      hide Run, IsStart, Inv, Repeat, Batch, AppStep, Ring.Read;
      ValidInv();
      BatchStarts(Now());
      var idx := txIndex;
      var i := 0;
      while i < cfg.batch
        invariant 0 <= i <= cfg.batch && Valid() && sends == old(sends)
        invariant pc == if i < cfg.batch then Writing(i, idx) else Submitting
        invariant txQ.submitted == old(txQ).submitted && Work(Now()) <= Work(old(Now()))
      {
        FillDesc(i, idx, |cfg.packet|);
        idx := Add32(idx, 1);
        i := i + 1;
        Interfere();
      }
      ValidInv();
      BatchWritten(Now());
    }
  }

  /** Between two sends everything written is submitted, and everything claimed released. */
  lemma IdleFacts(s: State)
    requires Inv(s) && s.pc.Idle?
    ensures s.txQ.log == Repeat(Batch(s.cfg), s.sends)
    ensures s.txQ.submitted == |s.txQ.log| && s.compQ.released == s.compQ.claimed
    ensures |s.sent| == s.txQ.taken && forall k :: 0 <= k < |s.sent| ==> s.sent[k] == s.cfg.packet
  {
    hide Rings, Conserved, Repeat, Batch;
  }

  lemma OneMoreBatch(s: State, s': State)
    requires Inv(s) && s.pc.Idle? && Inv(s') && s'.pc.Idle? && s'.cfg == s.cfg && s'.sends == s.sends + 1
    ensures s'.txQ.log == s.txQ.log + Batch(s.cfg)
    ensures s'.txQ.submitted == |s'.txQ.log| && s'.compQ.released == s'.compQ.claimed
    ensures |s'.sent| == s'.txQ.taken && forall k :: 0 <= k < |s'.sent| ==> s'.sent[k] == s'.cfg.packet
    ensures Work(s) == 0 && Work(s') < 3 * s.cfg.batch ==> |s.sent| < |s'.sent|
  {
    hide Inv, Batch, Work;
    IdleFacts(s);
    IdleFacts(s');
    WorkAtLeast(s);
    WorkAtLeast(s');
  }

  /** What one complete_send releases: the completions known from an earlier call, or if
      there are none all that there are after the wakeup, but at most a batch. The
      wakeup comes first: with nothing to take and work outstanding, something is
      released. */
  ghost predicate Drained(s: State, s': State) {
    var c, c' := s.compQ, s'.compQ;
    && c.released <= c'.seen && c'.claimed == c'.released == c.released + Min(s.cfg.batch, c'.seen - c.released)
    && (if c.seen != c.released then c'.seen == c.seen else |c.log| <= c'.seen <= |c'.log|)
    && (0 < Work(s) && s.txQ.taken == s.txQ.submitted ==> c.released < c'.released)
  }

  /** Every entry not taken is work for three steps. */
  lemma WorkAtLeast(s: State)
    requires Inv(s)
    ensures s.txQ.taken <= s.txQ.submitted && 3 * (s.txQ.submitted - s.txQ.taken) <= Work(s)
  {
    hide Window, Pow2, Initialised, Data, Control;
  }

  /** When nothing is outstanding the whole TX ring is free. */
  lemma RoomWithoutWork(s: State)
    requires Inv(s) && s.pc.Reserving?
    ensures Work(s) <= 0 ==> CanReserve(s)
  {
    hide Inv, Work;
    WorkAtLeast(s);
    ReservedIsSubmitted(s);
  }

  lemma ReservedIsSubmitted(s: State)
    requires Inv(s) && s.pc.Reserving?
    ensures s.txQ.reserved == s.txQ.submitted && s.cfg.batch <= Pow2(s.cfg.txOrder)
  {
    hide ProdCoupled, ConsCoupled, Initialised, Data, Pow2;
  }

  /** After the wakeup some work is done or a completion waits; it waits for certain
      if there was nothing to take. */
  lemma AfterWakeup(s: State, s': State)
    requires s'.Typed() && Inv(s) && Inv(s') && OnlyKernel(s, s')
    requires Work(s') < Work(s) || !KernelReady(s')
    ensures 0 < Work(s) ==> Work(s') < Work(s) || s'.compQ.released < |s'.compQ.log|
    ensures 0 < Work(s) && s.txQ.taken == s.txQ.submitted ==> s'.compQ.released < |s'.compQ.log|
  {
    hide Inv, KernelReady;
    if Work(s') > 0 {
      WorkLeft(s');
    }
    TakenCounts(s);
    TakenCounts(s');
  }

  lemma TakenCounts(s: State)
    requires Inv(s)
    ensures s.txQ.taken <= s.txQ.submitted && s.txQ.taken == |s.held| + |s.compQ.log|
    ensures s.compQ.released <= |s.compQ.log|
  {
    hide Window, Pow2, Initialised, Control, AddrBag, Batches, Faithful;
  }

  lemma SomeBatch(s: State)
    requires Inv(s)
    ensures 0 < s.cfg.batch
  {
    hide ProdCoupled, ConsCoupled, Initialised, Control, Data;
  }

  lemma BatchStarts(s: State)
    requires Inv(s) && s.pc.Writing? && s.pc.i == 0
    ensures s.cfg.batch > 0 && s.txQ.log == Repeat(Batch(s.cfg), s.sends)
    ensures s.pc.txIndex == s.txQ.submitted % U32
  {
    hide ProdCoupled, ConsCoupled, Initialised, Conserved, Faithful, Repeat, Batch;
  }

  /** The slots from the first reserved one on hold the batch. */
  lemma BatchWritten(s: State)
    requires Inv(s) && s.pc.Submitting?
    ensures s.tx.Valid() && s.txQ.log == Repeat(Batch(s.cfg), s.sends) + Batch(s.cfg)
    ensures forall k :: 0 <= k < s.cfg.batch ==>
              s.tx.Read(Add32(s.txQ.submitted % U32, k)) == Batch(s.cfg)[k]
  {
    hide Ring.Read, ConsCoupled, Initialised, Repeat, Batch, Window, Pow2, Add32, AddrBag, Faithful;
    WindowSize(s.tx, s.txQ.log, s.txQ.taken);
    WholeBatch(s);
    var q := s.txQ;
    forall k | 0 <= k < s.cfg.batch ensures s.tx.Read(Add32(q.submitted % U32, k)) == Batch(s.cfg)[k] {
      AddWraps(q.submitted, k);
      ReadWindow(s.tx, q.log, q.taken, q.submitted + k);
    }
  }

  lemma WholeBatch(s: State)
    requires Batches(s) && s.pc.Submitting?
    ensures s.txQ.log == Repeat(Batch(s.cfg), s.sends) + Batch(s.cfg)
  {
    hide Repeat;
  }

  lemma CanTakeMeans(s: State)
    ensures CanTake(s) <==> s.tx.HasEntry() && |s.held| + Sub32(s.comp.producer, s.comp.consumer) < Pow2(s.comp.order)
  {
  }

  /** A packet copied to frame `i` leaves the frames below alone. */
  lemma LowerFrameKept(umem: seq<byte>, i: nat, k: nat, packet: seq<byte>)
    requires k < i && |packet| <= FRAME && i * FRAME + |packet| <= |umem| && FrameHolds(umem, k, packet)
    ensures FrameHolds(PutBytes(umem, i * FRAME, packet), k, packet)
  {
    assert k * FRAME + |packet| <= i * FRAME;
    assert PutBytes(umem, i * FRAME, packet)[k * FRAME..k * FRAME + |packet|]
        == umem[k * FRAME..k * FRAME + |packet|];
  }

  /** What the kernel cannot change, and that it never adds work. */
  ghost predicate OnlyKernel(s: State, s': State) {
    && s'.pc == s.pc && s'.cfg == s.cfg && s'.sends == s.sends && s'.umem == s.umem && s.sent <= s'.sent
    && s'.txQ == s.txQ.(taken := s'.txQ.taken) && s.txQ.taken <= s'.txQ.taken
    && s'.compQ == s.compQ.(log := s'.compQ.log) && s.compQ.log <= s'.compQ.log
    && Work(s') <= Work(s)
  }

  lemma KernelKeeps(s: State, e: Event)
    requires s.Typed() && Inv(s) && !e.App?
    ensures OnlyKernel(s, Next(s, e))
  {
    KernelWorks(s, e);
    hide Work, Inv, CanTake, Ring.Take, Ring.HasRoom, Ring.Publish;
  }
}
