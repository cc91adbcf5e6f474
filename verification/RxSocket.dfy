/** The program text of af_xdp/xdp-sock-rx.c on mutable rings: `main` populates the
    fill ring, `receive` handles a batch. Between any two of its steps the kernel
    does whatever `schedule` says, for an arbitrary schedule. Every method keeps the
    socket in a reachable state of the protocol, so what holds there holds here. */
module RxSocket {
  import opened Bytes
  import opened XskRing
  import opened RxProtocol
  import opened RxSafety

  class Socket {
    const cfg: Config
    const schedule: nat -> seq<Event>
    var tick: nat

    var fill: Ring<nat>
    var rx: Ring<Desc>
    var umem: seq<byte>
    var held: multiset<nat>
    var printed: seq<seq<byte>>

    ghost var pc: Pc
    ghost var fillQ: ProdLog<nat>
    ghost var rxQ: ConsLog<Desc>
    ghost var packets: seq<seq<byte>>

    ghost const start: State
    ghost var events: seq<Event>

    ghost function Now(): State
      reads this
    {
      State(cfg, fill, rx, umem, held, pc, printed, fillQ, rxQ, packets)
    }

    /** The socket is where these events lead from the start. */
    ghost predicate Valid()
      reads this
    {
      start.Typed() && IsStart(start) && Now() == Run(start, events)
    }

    lemma ValidInv()
      requires Valid()
      ensures Inv(Now()) && Now().Typed()
    {
      hide IsStart, Inv, Run;
      StartInv(start);
      RunInv(start, events);
    }

    lemma Did(e: Event, was: State, es: seq<Event>)
      requires start.Typed() && IsStart(start) && was == Run(start, es)
      ensures Run(start, es + [e]) == Next(was, e)
    {
      assert (es + [e])[..|es|] == es;
    }

    /** Populate the fill ring: reserve, write one address per slot, submit. `fill0`
        and `rx0` are the empty rings the library sets up. */
    constructor (cfg: Config, fill0: Ring<nat>, rx0: Ring<Desc>, bufs: seq<byte>, schedule: nat -> seq<Event>)
      requires cfg.Valid() && |bufs| == cfg.frames * FRAME
      requires fill0.Valid() && fill0.order == cfg.fillOrder && rx0.Valid() && rx0.order == cfg.rxOrder
      requires fill0.producer == fill0.consumer == fill0.cachedProd == 0
      requires fill0.cachedCons == Pow2(cfg.fillOrder) % U32
      requires rx0.producer == rx0.consumer == rx0.cachedProd == rx0.cachedCons == 0
      ensures Valid() && pc == Idle && printed == [] && this.cfg == cfg && this.schedule == schedule
      ensures fillQ.log == Initial(cfg.populated) && fillQ.submitted == cfg.populated
    {
      var ring, q := Populate(cfg, fill0);
      this.cfg, this.schedule, tick := cfg, schedule, 0;
      fill, rx, umem, held, printed := ring, rx0, bufs, multiset{}, [];
      pc, fillQ, rxQ, packets := Idle, q, ConsLog([], 0, 0, 0), [];
      start := State(cfg, ring, rx0, bufs, multiset{}, Idle, [], q, ConsLog([], 0, 0, 0), []);
      events := [];
    }

    // The kernel.

    method Take()
      requires Now().Typed()
      modifies this`fill, this`held, this`fillQ
      ensures Now() == KernelTake(old(Now()))
    {
      hide Ring.HasEntry, Ring.Take;
      if fill.HasEntry() {
        var (ring, addr) := fill.Take();
        fill, held := ring, held + multiset{addr / FRAME};
        fillQ := fillQ.(taken := fillQ.taken + 1);
      }
    }

    method WriteByte(addr: nat, b: byte)
      requires Now().Typed()
      modifies this`umem
      ensures Now() == KernelWrite(old(Now()), addr, b)
    {
      if addr < |umem| && addr / FRAME in held {
        umem := umem[addr := b];
      }
    }

    method Publish(frame: nat, off: nat, len: nat)
      requires Now().Typed()
      modifies this`rx, this`held, this`rxQ, this`packets
      ensures Now() == KernelPublish(old(Now()), frame, off, len)
    {
      hide Ring.HasRoom, Ring.Publish, Ring.Valid;
      var d := Desc(frame * FRAME + off, len);
      if frame in held && off + len <= FRAME && off < FRAME && d.addr + len <= |umem| && rx.HasRoom() {
        rx, held := rx.Publish(d), held - multiset{frame};
        rxQ, packets := rxQ.(log := rxQ.log + [d]), packets + [umem[d.addr..d.addr + len]];
      }
    }

    /** One kernel step; an application event in the schedule is skipped. */
    method KernelStep(e: Event)
      requires Valid()
      modifies this`fill, this`rx, this`umem, this`held, this`fillQ, this`rxQ, this`packets, this`events
      ensures Valid() && Now() == if e.App? then old(Now()) else Next(old(Now()), e)
    {
      hide Run, IsStart, KernelTake, KernelWrite, KernelPublish, AppStep;
      ghost var was, es := Now(), events;
      assert was.Typed();
      match e {
        case App => return;
        case KTake => Take();
        case KWrite(addr, b) => WriteByte(addr, b);
        case KPublish(frame, off, len) => Publish(frame, off, len);
      }
      events := events + [e];
      Did(e, was, es);
    }

    /** Let the kernel run as scheduled. */
    method Interfere()
      requires Valid()
      modifies this`tick, this`fill, this`rx, this`umem, this`held, this`fillQ, this`rxQ, this`packets, this`events
      ensures Valid() && OnlyKernel(old(Now()), Now())
    {
      hide Run, IsStart, Next;
      var steps := schedule(tick);
      tick := tick + 1;
      var k := 0;
      while k < |steps|
        invariant Valid() && OnlyKernel(old(Now()), Now())
      {
        if !steps[k].App? {
          KernelKeeps(Now(), steps[k]);
        }
        KernelStep(steps[k]);
        k := k + 1;
      }
    }

    /** The wakeup: the kernel runs, and takes a fill entry if one is left. */
    method Wakeup()
      requires Valid()
      modifies this`tick, this`fill, this`rx, this`umem, this`held, this`fillQ, this`rxQ, this`packets, this`events
      ensures Valid() && OnlyKernel(old(Now()), Now())
      ensures old(fillQ.taken) < fillQ.taken || fillQ.taken == fillQ.submitted
    {
      hide Run, IsStart, Inv, Next;
      Interfere();
      ValidInv();
      TakeFacts(Now());
      KernelKeeps(Now(), KTake);
      KernelStep(KTake);
    }

    // The library calls of `receive`.

    method PeekRx() returns (n: u32, idx: u32)
      requires Valid() && pc.Idle?
      modifies this`rx, this`rxQ, this`pc, this`events
      ensures Valid() && Now() == Peek(old(Now()))
      ensures pc == if n == 0 then Idle else Reserving(n, idx)
      ensures old(rxQ.claimed <= rxQ.seen <= |rxQ.log|)
      ensures n == Min(cfg.batch, old(if rxQ.seen != rxQ.claimed then rxQ.seen - rxQ.claimed
                                      else |rxQ.log| - rxQ.claimed))
      ensures rxQ.claimed == old(rxQ.claimed) + n && rxQ.log == old(rxQ.log)
    {
      hide Run, IsStart, Inv, Ring.Peek;
      ValidInv();
      PeekFacts(Now());
      ghost var was, es := Now(), events;
      var (ring, got, first) := rx.Peek(cfg.batch);
      rx, n, idx := ring, got, first;
      rxQ, pc := rxQ.Peek(cfg.batch).0, if n == 0 then Idle else Reserving(n, idx);
      events := events + [App];
      Did(App, was, es);
    }

    method ReserveFill(n: u32) returns (got: u32, idx: u32)
      requires Valid() && pc.Reserving? && pc.n == n
      modifies this`fill, this`fillQ, this`pc, this`events
      ensures Valid() && Now() == Reserve(old(Now()))
      ensures pc == if got == n then Handling(n, 0, old(pc).rxIndex, idx, []) else old(pc)
    {
      hide Run, IsStart, Ring.Reserve;
      ghost var was, es := Now(), events;
      var (ring, granted, first) := fill.Reserve(n);
      fill, got, idx := ring, granted, first;
      fillQ := fillQ.Reserve(n, Pow2(was.fill.order)).0;
      pc := if got == n then Handling(n, 0, pc.rxIndex, idx, []) else pc;
      events := events + [App];
      Did(App, was, es);
    }

    /** One byte of print_packet. */
    method ReadByte(d: Desc, i: nat) returns (b: byte)
      requires Valid() && pc.Handling? && d == Current(Now()) && i == |pc.out| < d.len
      modifies this`pc, this`events
      ensures Valid() && Now() == PrintByte(old(Now()))
      ensures pc == old(pc).(out := old(pc).out + [b])
    {
      hide Run, IsStart;
      ghost var was, es := Now(), events;
      b := ByteAt(umem, d.addr + i);
      pc := pc.(out := pc.out + [b]);
      events := events + [App];
      Did(App, was, es);
    }

    /** Finish the packet and put its address in the fill slot. */
    method RecycleFrame(d: Desc, packet: seq<byte>, fillIndex: u32)
      requires Valid() && pc.Handling? && d == Current(Now()) && packet == pc.out && |packet| >= d.len
      requires fillIndex == pc.fillIndex
      modifies this`printed, this`fill, this`fillQ, this`pc, this`events
      ensures Valid() && Now() == Recycle(old(Now()))
    {
      hide Run, IsStart, Ring.Write, ExtractAddr, Add32;
      ghost var was, es := Now(), events;
      printed := printed + [packet];
      fill := fill.Write(fillIndex, ExtractAddr(d.addr));
      fillQ := fillQ.(log := fillQ.log + [ExtractAddr(d.addr)]);
      pc := Recycle(was).pc;
      events := events + [App];
      Did(App, was, es);
    }

    method SubmitFill(n: u32)
      requires Valid() && pc == Submitting(n)
      modifies this`fill, this`fillQ, this`pc, this`events
      ensures Valid() && Now() == Submit(old(Now()))
    {
      hide Run, IsStart, Ring.Submit;
      ghost var was, es := Now(), events;
      fill := fill.Submit(n);
      fillQ, pc := fillQ.(submitted := fillQ.submitted + n), Releasing(n);
      events := events + [App];
      Did(App, was, es);
    }

    method ReleaseRx(n: u32)
      requires Valid() && pc == Releasing(n)
      modifies this`rx, this`rxQ, this`pc, this`events
      ensures Valid() && Now() == Release(old(Now()))
    {
      hide Run, IsStart, Ring.Release;
      ghost var was, es := Now(), events;
      rx := rx.Release(n);
      rxQ, pc := rxQ.(released := rxQ.released + n), Idle;
      events := events + [App];
      Did(App, was, es);
    }

    // The program.

    /** Print the packet of `d`, byte by byte, with the kernel running in between. */
    method PrintPacket(d: Desc) returns (packet: seq<byte>)
      requires Valid() && pc.Handling? && d == Current(Now()) && pc.out == []
      modifies this
      ensures Valid() && old(packets) <= packets && old(rxQ.log) <= rxQ.log
      ensures pc == old(pc).(out := packet) && |packet| == d.len && d == Current(Now())
      ensures printed == old(printed) && rxQ == old(rxQ).(log := rxQ.log)
    {
      hide Run, IsStart, Current;
      packet := [];
      var i := 0;
      while i < d.len
        invariant i == |packet| <= d.len && Valid()
        invariant pc == old(pc).(out := packet) && old(packets) <= packets && old(rxQ.log) <= rxQ.log
        invariant printed == old(printed) && rxQ == old(rxQ).(log := rxQ.log)
        invariant d == Current(Now())
      {
        StaysCurrent();
        var b := ReadByte(d, i);
        packet := packet + [b];
        i := i + 1;
        Interfere();
        StaysCurrent();
      }
    }

    /** `receive`: a batch is peeked, its fill slots reserved, every packet printed
        and its frame recycled, then all is submitted and released. Whatever the
        kernel does meanwhile, exactly the peeked packets are printed, as published
        and in order, and their frames go back to the fill ring. They are the packets
        known from an earlier call, or if there are none all that were published, but
        at most a batch. If there is none at all, the kernel is woken. */
    method Receive()
      requires Valid() && pc.Idle?
      modifies this
      ensures Valid() && pc.Idle? && OldEntriesKept(old(Now()), Now())
      ensures rxQ.claimed <= |packets| == |rxQ.log| && printed == packets[..rxQ.claimed] && rxQ.released == rxQ.claimed
      ensures fillQ.log == Initial(cfg.populated) + AddrsOf(rxQ.log[..rxQ.claimed])
      ensures fillQ.submitted == |fillQ.log|
      ensures old(rxQ.claimed <= rxQ.seen <= |rxQ.log|)
      ensures rxQ.claimed == old(rxQ.claimed)
                             + Min(cfg.batch, old(if rxQ.seen != rxQ.claimed then rxQ.seen - rxQ.claimed
                                                  else |rxQ.log| - rxQ.claimed))
      ensures rxQ.claimed == old(rxQ.claimed) ==> old(fillQ.taken) < fillQ.taken || fillQ.taken == |fillQ.log|
    {
      hide Run, IsStart, Inv, Peek, Reserve, Recycle, Submit, Release, Current, Initial, AddrsOf, State.Typed;
      // get the number of available packets
      ValidInv();
      PeekFacts(Now());
      var numRx, rxIndex := PeekRx();
      if numRx == 0 {
        Wakeup();
        ValidInv();
        IdleFacts(Now());
        return;
      }
      Interfere();

      // reserve as many fill slots
      var fillIndex := ReserveSlots(numRx, rxIndex);

      // handle packets
      HandlePackets(numRx, rxIndex, fillIndex);

      // submit to the fill ring and release on the RX ring
      SubmitFacts(Now());
      SubmitFill(numRx);
      Interfere();
      ReleaseFacts(Now());
      ReleaseRx(numRx);
      ValidInv();
      IdleFacts(Now());
    }

    /** The reserve loop of `receive`. */
    method ReserveSlots(numRx: u32, ghost rxIndex: u32) returns (fillIndex: u32)
      requires Valid() && pc == Reserving(numRx, rxIndex)
      modifies this
      ensures Valid() && pc == Handling(numRx, 0, rxIndex, fillIndex, []) && OldEntriesKept(old(Now()), Now())
      ensures rxQ.claimed == old(rxQ.claimed)
    {
      hide Run, IsStart, Inv, Reserve;
      ValidInv();
      ReserveFacts(Now());
      var numFill;
      numFill, fillIndex := ReserveFill(numRx);
      Interfere();
      ghost var attempts := 1;
      while numFill != numRx
        invariant Valid() && OldEntriesKept(old(Now()), Now()) && rxQ.claimed == old(rxQ.claimed)
        invariant numFill == numRx ==> pc == Handling(numRx, 0, rxIndex, fillIndex, [])
        invariant numFill != numRx ==> pc == Reserving(numRx, rxIndex) && 0 < attempts
        decreases attempts
      {
        attempts := attempts - 1;
        ValidInv();
        ReserveFacts(Now());
        numFill, fillIndex := ReserveFill(numRx);
        Interfere();
      }
    }

    /** The loop of `receive` over the packets of a batch. */
    method HandlePackets(numRx: u32, rxIndex: u32, fillIndex: u32)
      requires Valid() && 0 < numRx && pc == Handling(numRx, 0, rxIndex, fillIndex, [])
      modifies this
      ensures Valid() && pc == Submitting(numRx) && OldEntriesKept(old(Now()), Now())
      ensures rxQ.claimed == old(rxQ.claimed)
    {
      hide Run, IsStart, Recycle;
      var ri, fi := rxIndex, fillIndex;
      var i := 0;
      while i < numRx
        invariant i <= numRx && Valid() && OldEntriesKept(old(Now()), Now()) && rxQ.claimed == old(rxQ.claimed)
        invariant pc == if i < numRx then Handling(numRx, i, ri, fi, []) else Submitting(numRx)
      {
        var d := rx.Read(ri);
        ri := Add32(ri, 1);
        var packet := PrintPacket(d);
        RecycleFacts(Now());
        RecycleFrame(d, packet, fi);
        fi := Add32(fi, 1);
        i := i + 1;
        Interfere();
      }
    }

    /** The descriptor at hand is a log entry, so the kernel cannot change it. */
    lemma StaysCurrent()
      requires Valid() && pc.Handling?
      ensures rxQ.released + pc.i < |rxQ.log| && Current(Now()) == rxQ.log[rxQ.released + pc.i]
    {
      hide Run, IsStart;
      ValidInv();
      CurrentIs(Now());
    }
  }

  /** Populate the fill ring: reserve, write one address per slot, submit. */
  method Populate(cfg: Config, fill0: Ring<nat>) returns (ring: Ring<nat>, ghost q: ProdLog<nat>)
    requires cfg.Valid() && fill0.Valid() && fill0.order == cfg.fillOrder
    requires fill0.producer == fill0.consumer == fill0.cachedProd == 0
    requires fill0.cachedCons == Pow2(cfg.fillOrder) % U32
    ensures ring.Valid() && ring.order == cfg.fillOrder
    ensures ring.producer == ring.cachedProd == cfg.populated % U32
    ensures ring.consumer == 0 && ring.cachedCons == Pow2(cfg.fillOrder) % U32
    ensures forall i :: 0 <= i < cfg.populated ==> ring.slots[i] == i * FRAME
    ensures q == ProdLog(Initial(cfg.populated), cfg.populated, cfg.populated, 0, 0) && ProdCoupled(ring, q)
  {
    hide Initial, Add32;
    Pow2Bound(cfg.fillOrder);
    var n := cfg.populated;
    EmptyCoupled(fill0);
    ReserveAgrees(fill0, ProdLog([], 0, 0, 0, 0), n);
    var idx;
    var (r0, got, first) := fill0.Reserve(n);
    ring, idx := r0, first;
    q := ProdLog([], n, 0, 0, 0);
    var i := 0;
    while i < n
      invariant i <= n && q == ProdLog(Initial(i), n, 0, 0, 0)
      invariant ProdCoupled(ring, q) && ring.order == cfg.fillOrder && idx == i % U32
    {
      WriteAgrees(ring, q, i * FRAME);
      AddWraps(i, 1);
      InitialNext(i);
      ring := ring.Write(idx, i * FRAME);
      q := q.(log := q.log + [i * FRAME]);
      idx := Add32(idx, 1);
      i := i + 1;
    }
    SubmitAgrees(ring, q, n);
    ring := ring.Submit(n);
    q := q.(submitted := n);
    PopulatedSlots(ring, q, cfg);
  }

  lemma InitialNext(i: nat)
    ensures Initial(i) + [i * FRAME] == Initial(i + 1)
  {
  }

  /** What the kernel cannot change: the application's position, its claims, and
      everything published before. */
  ghost predicate OnlyKernel(s: State, s': State) {
    && s'.pc == s.pc && s'.printed == s.printed && s'.cfg == s.cfg && s.packets <= s'.packets
    && s'.rxQ == s.rxQ.(log := s'.rxQ.log) && s.rxQ.log <= s'.rxQ.log
    && s'.fillQ == s.fillQ.(taken := s'.fillQ.taken) && s.fillQ.taken <= s'.fillQ.taken
  }

  lemma KernelKeeps(s: State, e: Event)
    requires s.Typed() && !e.App?
    ensures OnlyKernel(s, Next(s, e))
  {
    hide Ring.HasEntry, Ring.Take, Ring.HasRoom, Ring.Publish;
  }

  /** What was on the RX log and in the packets is still there. */
  ghost predicate OldEntriesKept(s: State, s': State) {
    s'.cfg == s.cfg && s.rxQ.log <= s'.rxQ.log && s.packets <= s'.packets
  }

  lemma PeekFacts(s: State)
    requires Inv(s) && s.pc.Idle?
    ensures s.rxQ.claimed <= s.rxQ.seen <= |s.rxQ.log| && 0 < s.cfg.batch
    ensures var s', known, all := Peek(s), s.rxQ.seen - s.rxQ.claimed, |s.rxQ.log| - s.rxQ.claimed;
            var n := Min(s.cfg.batch, if known != 0 then known else all);
            && s'.rxQ.log == s.rxQ.log && s'.packets == s.packets && s'.cfg == s.cfg && s'.fillQ == s.fillQ
            && s'.rxQ.claimed == s.rxQ.claimed + n && s.rx.Peek(s.cfg.batch).1 == n
            && if n == 0 then s'.pc.Idle? else s'.pc.Reserving? && s'.pc.n == n
  {
    hide ProdCoupled, Data, Ring.Peek, ConsLog.Peek, Window, Pow2;
    PeekAgrees(s.rx, s.rxQ, s.cfg.batch);
  }

  lemma TakeFacts(s: State)
    requires Inv(s)
    ensures s.Typed() && s.fillQ.taken <= s.fillQ.submitted
    ensures Next(s, KTake).fillQ == if s.fillQ.taken < s.fillQ.submitted then s.fillQ.(taken := s.fillQ.taken + 1)
                                    else s.fillQ
  {
    hide Data, Control, Ring.HasEntry, Ring.Take, Window, Pow2;
    WindowSize(s.fill, s.fillQ.log, s.fillQ.taken);
    WindowSize(s.rx, s.rxQ.log, s.rxQ.released);
    TakeAgrees(s.fill, s.fillQ);
  }

  lemma ReserveFacts(s: State)
    requires Inv(s) && s.pc.Reserving?
    ensures var s' := Reserve(s);
            && s'.pc.Handling? && s'.rxQ == s.rxQ && s'.packets == s.packets && s'.cfg == s.cfg
  {
    ReserveInv(s);
    hide Ring.Reserve, Inv;
  }

  lemma RecycleFacts(s: State)
    requires s.Typed() && s.pc.Handling?
    ensures var s' := Recycle(s);
            && s'.rxQ == s.rxQ && s'.packets == s.packets && s'.cfg == s.cfg
            && s'.pc == if s.pc.i + 1 >= s.pc.n then Submitting(s.pc.n)
                        else Handling(s.pc.n, s.pc.i + 1, Add32(s.pc.rxIndex, 1), Add32(s.pc.fillIndex, 1), [])
  {
    hide Ring.Write, ExtractAddr, Current, Add32;
  }

  lemma SubmitFacts(s: State)
    requires s.Typed() && s.pc.Submitting?
    ensures var s' := Submit(s);
            s'.rxQ == s.rxQ && s'.packets == s.packets && s'.cfg == s.cfg && s'.pc == Releasing(s.pc.n)
  {
    hide Ring.Submit;
  }

  lemma ReleaseFacts(s: State)
    requires s.Typed() && s.pc.Releasing?
    ensures var s' := Release(s);
            && s'.rxQ.log == s.rxQ.log && s'.rxQ.claimed == s.rxQ.claimed
            && s'.packets == s.packets && s'.cfg == s.cfg && s'.pc == Idle
  {
    hide Ring.Release;
  }

  /** Between two batches nothing is half done. */
  lemma IdleFacts(s: State)
    requires Inv(s) && s.pc.Idle?
    ensures 0 <= s.rxQ.claimed <= |s.packets| == |s.rxQ.log| && s.printed == s.packets[..s.rxQ.claimed]
    ensures s.fillQ.log == Initial(s.cfg.populated) + AddrsOf(s.rxQ.log[..s.rxQ.claimed])
    ensures s.rxQ.released == s.rxQ.claimed && s.fillQ.submitted == |s.fillQ.log|
  {
    hide ProdCoupled, ConsCoupled, Balance, Stored;
  }

  lemma EmptyCoupled(r: Ring<nat>)
    requires r.Valid() && r.producer == r.consumer == r.cachedProd == 0 && r.cachedCons == Pow2(r.order) % U32
    ensures ProdCoupled(r, ProdLog([], 0, 0, 0, 0))
  {
  }

  lemma PopulatedSlots(r: Ring<nat>, q: ProdLog<nat>, cfg: Config)
    requires ProdCoupled(r, q) && cfg.Valid() && r.order == cfg.fillOrder
    requires q == ProdLog(Initial(cfg.populated), cfg.populated, cfg.populated, 0, 0)
    ensures forall i :: 0 <= i < cfg.populated ==> r.slots[i] == i * FRAME
  {
    forall i | 0 <= i < cfg.populated ensures r.slots[i] == i * FRAME {
      ModIs(i, |r.slots|, 0, i);
    }
  }
}
