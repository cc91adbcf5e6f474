/** What every reachable state of the receive protocol satisfies. */
module RxSafety {
  import opened Bytes
  import opened XskRing
  import opened RxProtocol

  // Frames named by addresses.

  function FramesOf(addrs: seq<nat>): (fs: seq<nat>)
    ensures |fs| == |addrs| && forall i :: 0 <= i < |fs| ==> fs[i] == addrs[i] / FRAME
  {
    seq(|addrs|, i requires 0 <= i < |addrs| => addrs[i] / FRAME)
  }

  function AddrsOf(ds: seq<Desc>): (addrs: seq<nat>)
    ensures |addrs| == |ds| && forall i :: 0 <= i < |ds| ==> addrs[i] == ds[i].addr
  {
    seq(|ds|, i requires 0 <= i < |ds| => ds[i].addr)
  }

  /** How often each frame occurs. */
  function Bag(addrs: seq<nat>): multiset<nat> { multiset(FramesOf(addrs)) }

  lemma BagAppend(a: seq<nat>, x: nat)
    ensures Bag(a + [x]) == Bag(a) + multiset{x / FRAME}
  {
    assert FramesOf(a + [x]) == FramesOf(a) + [x / FRAME];
  }

  lemma BagHead(a: seq<nat>)
    requires a != []
    ensures Bag(a) == multiset{a[0] / FRAME} + Bag(a[1..])
  {
    assert FramesOf(a) == [a[0] / FRAME] + FramesOf(a[1..]);
  }

  lemma BagConcat(a: seq<nat>, b: seq<nat>)
    ensures Bag(a + b) == Bag(a) + Bag(b)
  {
    assert FramesOf(a + b) == FramesOf(a) + FramesOf(b);
  }

  lemma BagSize(a: seq<nat>)
    ensures |Bag(a)| == |a|
  {
  }

  lemma {:induction false} InitialBag(n: nat, f: nat)
    ensures Bag(Initial(n))[f] == if f < n then 1 else 0
  {
    if n > 0 {
      InitialBag(n - 1, f);
      assert Initial(n) == Initial(n - 1) + [(n - 1) * FRAME];
      BagAppend(Initial(n - 1), (n - 1) * FRAME);
    }
  }

  // The invariant.

  /** How many published descriptors have been printed and recycled. */
  function Handled(s: State): int {
    match s.pc
    case Reserving(n, _) => s.rxQ.claimed - n
    case Handling(n, i, _, _, _) => s.rxQ.claimed - n + i
    case _ => s.rxQ.claimed
  }

  ghost predicate Rings(s: State) {
    && ProdCoupled(s.fill, s.fillQ) && ConsCoupled(s.rx, s.rxQ)
    && s.cfg.Valid() && s.fill.order == s.cfg.fillOrder && s.rx.order == s.cfg.rxOrder
    && |s.packets| == |s.rxQ.log|
    && |s.umem| == s.cfg.frames * FRAME
  }

  /** Local variables and log positions fit together. */
  predicate Control(s: State) {
    var f, r := s.fillQ, s.rxQ;
    match s.pc
    case Idle => r.released == r.claimed && |f.log| == f.reserved == f.submitted
    case Reserving(n, ri) =>
      && 0 < n && r.released + n == r.claimed && |f.log| == f.reserved == f.submitted
      && ri == r.released % U32
    case Handling(n, i, ri, fi, out) =>
      && i < n && r.released + n == r.claimed
      && f.reserved == f.submitted + n && |f.log| == f.submitted + i
      && ri == (r.released + i) % U32 && fi == |f.log| % U32
    case Submitting(n) => r.released + n == r.claimed && |f.log| == f.reserved == f.submitted + n
    case Releasing(n) => r.released + n == r.claimed && |f.log| == f.reserved == f.submitted
  }

  /** Descriptors not yet handled, the oldest first. */
  function Waiting(s: State): seq<Desc>
    requires 0 <= Handled(s) <= |s.rxQ.log|
  {
    s.rxQ.log[Handled(s)..]
  }

  predicate InRange(s: State) {
    && 0 <= Handled(s) <= |s.rxQ.log| == |s.packets|
    && s.fillQ.taken <= s.fillQ.submitted <= |s.fillQ.log|
  }

  /** No frame is lost, doubled or invented: those on the fill ring (written, not
      taken), held by the kernel, and published but not handled are those put in
      circulation at the start. */
  ghost predicate Conserved(s: State)
    requires InRange(s)
  {
    Balance(s.fillQ.log[s.fillQ.taken..], s.held, Waiting(s), s.cfg.populated)
  }

  ghost predicate Balance(onFill: seq<nat>, held: multiset<nat>, waiting: seq<Desc>, n: nat) {
    Bag(onFill) + held + Bag(AddrsOf(waiting)) == Bag(Initial(n))
  }

  lemma BalanceTake(onFill: seq<nat>, held: multiset<nat>, waiting: seq<Desc>, n: nat)
    requires Balance(onFill, held, waiting, n) && onFill != []
    ensures Balance(onFill[1..], held + multiset{onFill[0] / FRAME}, waiting, n)
  {
    BagHead(onFill);
    hide Bag;
  }

  lemma BalancePublish(onFill: seq<nat>, held: multiset<nat>, waiting: seq<Desc>, d: Desc, n: nat)
    requires Balance(onFill, held, waiting, n) && d.addr / FRAME in held
    ensures Balance(onFill, held - multiset{d.addr / FRAME}, waiting + [d], n)
  {
    assert AddrsOf(waiting + [d]) == AddrsOf(waiting) + [d.addr];
    BagAppend(AddrsOf(waiting), d.addr);
    hide Bag;
  }

  lemma BalanceRecycle(onFill: seq<nat>, held: multiset<nat>, waiting: seq<Desc>, n: nat)
    requires Balance(onFill, held, waiting, n) && waiting != []
    ensures Balance(onFill + [waiting[0].addr], held, waiting[1..], n)
  {
    BagAppend(onFill, waiting[0].addr);
    BagHead(AddrsOf(waiting));
    assert AddrsOf(waiting)[1..] == AddrsOf(waiting[1..]);
    hide Bag;
  }

  /** Recycled addresses and printed packets follow the order of publication. */
  ghost predicate Ordered(s: State)
    requires InRange(s)
  {
    InOrder(s.fillQ.log, s.rxQ.log[..Handled(s)], s.printed, s.packets[..Handled(s)], s.cfg.populated)
  }

  ghost predicate InOrder(fillLog: seq<nat>, done: seq<Desc>, printed: seq<seq<byte>>,
                          packets: seq<seq<byte>>, n: nat) {
    fillLog == Initial(n) + AddrsOf(done) && printed == packets
  }

  /** The memory still holds every packet not yet handled, and what has been read of
      the current one is right. */
  ghost predicate Contents(s: State)
    requires InRange(s)
  {
    Stored(s.umem, Waiting(s), s.packets[Handled(s)..], s.pc)
  }

  ghost predicate Stored(umem: seq<byte>, waiting: seq<Desc>, packets: seq<seq<byte>>, pc: Pc) {
    && |waiting| == |packets|
    && (forall k :: 0 <= k < |packets| ==> Holding(umem, waiting[k], packets[k]))
    && (pc.Handling? ==> packets != [] && pc.out <= packets[0])
  }

  ghost predicate Holding(umem: seq<byte>, d: Desc, packet: seq<byte>) {
    && |packet| == d.len && d.addr % FRAME + d.len <= FRAME && d.addr + d.len <= |umem|
    && umem[d.addr..d.addr + d.len] == packet
  }

  /** Who has which frame, and what is in it. */
  ghost predicate Data(s: State) {
    InRange(s) && Conserved(s) && Ordered(s) && Contents(s)
  }

  ghost predicate Inv(s: State) {
    Rings(s) && Control(s) && Data(s)
  }

  // Consequences used in the steps.

  /** A frame in circulation is in one place only. */
  lemma OnlyOnce(s: State, f: nat)
    requires InRange(s) && Conserved(s)
    ensures Bag(s.fillQ.log[s.fillQ.taken..])[f] + s.held[f] + Bag(AddrsOf(Waiting(s)))[f]
            == if f < s.cfg.populated then 1 else 0
  {
    InitialBag(s.cfg.populated, f);
    var a, b := Bag(s.fillQ.log[s.fillQ.taken..]), Bag(AddrsOf(Waiting(s)));
    assert a + s.held + b == Bag(Initial(s.cfg.populated));
    assert (a + s.held + b)[f] == a[f] + s.held[f] + b[f];
  }

  lemma WaitingFrame(s: State, k: nat)
    requires InRange(s) && Handled(s) <= k < |s.rxQ.log|
    ensures s.rxQ.log[k].addr / FRAME in Bag(AddrsOf(Waiting(s)))
  {
    var j := k - Handled(s);
    assert FramesOf(AddrsOf(Waiting(s)))[j] == s.rxQ.log[k].addr / FRAME;
  }

  /** The frames of waiting descriptors belong to the application: not the kernel's,
      not on the fill ring. */
  lemma WaitingIsOwned(s: State, k: nat)
    requires InRange(s) && Conserved(s) && Handled(s) <= k < |s.rxQ.log|
    ensures var f := s.rxQ.log[k].addr / FRAME;
            && f < s.cfg.populated && f !in s.held
            && f !in Bag(s.fillQ.log[s.fillQ.taken..])
  {
    OnlyOnce(s, s.rxQ.log[k].addr / FRAME);
    WaitingFrame(s, k);
  }

  /** The fill ring, the kernel and the unhandled descriptors hold `populated`
      frames together, so there is always room for a whole batch. */
  lemma BatchFits(s: State)
    requires InRange(s) && Conserved(s)
    ensures |s.fillQ.log| - s.fillQ.taken + |s.rxQ.log| - Handled(s) <= s.cfg.populated
  {
    var a, b := s.fillQ.log[s.fillQ.taken..], AddrsOf(Waiting(s));
    assert |Bag(a) + s.held + Bag(b)| == |Bag(a)| + |s.held| + |Bag(b)|;
    BagSize(a);
    BagSize(b);
    BagSize(Initial(s.cfg.populated));
  }

  // The invariant holds at the start and is kept by every step.

  lemma StartRings(s: State)
    requires IsStart(s)
    ensures Rings(s)
  {
    var n, size := s.cfg.populated, Pow2(s.cfg.fillOrder);
    Pow2Bound(s.cfg.fillOrder);
    forall k | 0 <= k < n ensures s.fill.slots[k % size] == k * FRAME {
      ModIs(k, size, 0, k);
    }
  }

  lemma StartInv(s: State)
    requires IsStart(s)
    ensures Inv(s)
  {
    var n := s.cfg.populated;
    StartRings(s);
    hide Rings;
    assert s.fillQ.log[0..] == Initial(n);
    assert AddrsOf(s.rxQ.log[0..]) == [] && AddrsOf(s.rxQ.log[..0]) == [];
    assert Bag([]) == multiset{};
  }

  /** Steps that move no frame: only private indices, published indices or the
      current packet's bytes change. */
  ghost predicate SameFrames(s: State, s': State) {
    && s'.cfg == s.cfg && s'.held == s.held && s'.umem == s.umem
    && s'.fillQ.log == s.fillQ.log && s'.fillQ.taken == s.fillQ.taken
    && s'.fillQ.taken <= s'.fillQ.submitted <= |s'.fillQ.log|
    && s'.rxQ.log == s.rxQ.log && s'.packets == s.packets && s'.printed == s.printed
    && Handled(s') == Handled(s)
    && (s'.pc.Handling? ==> 0 <= Handled(s) < |s.packets| && s'.pc.out <= s.packets[Handled(s)])
  }

  lemma SameFramesInv(s: State, s': State)
    requires Inv(s) && SameFrames(s, s') && Rings(s') && Control(s')
    ensures Inv(s')
  {
    hide Rings, Control, Balance, InOrder, Holding;
  }

  lemma PeekInv(s: State)
    requires Inv(s) && s.pc.Idle?
    ensures Inv(Peek(s))
  {
    PeekAgrees(s.rx, s.rxQ, s.cfg.batch);
    assert s.fillQ.Valid(Pow2(s.fill.order)) && s.rxQ.Valid(Pow2(s.rx.order));
    hide ProdCoupled, ConsCoupled, Ring.Peek, Bag, Conserved, Ordered, Holding;
    SameFramesInv(s, Peek(s));
  }

  /** The first attempt to reserve succeeds: the wait loop is never entered. */
  lemma ReserveInv(s: State)
    requires Inv(s) && s.pc.Reserving?
    ensures Reserve(s).pc.Handling?
    ensures Inv(Reserve(s))
  {
    BatchFits(s);
    ReserveAgrees(s.fill, s.fillQ, s.pc.n);
    assert s.fillQ.Valid(Pow2(s.fill.order)) && s.rxQ.Valid(Pow2(s.rx.order));
    hide ProdCoupled, ConsCoupled, Ring.Reserve, Bag, Conserved, Ordered, Holding;
    SameFramesInv(s, Reserve(s));
  }

  /** The descriptor read from the masked slot is the one published at that place. */
  lemma CurrentIs(s: State)
    requires Rings(s) && Control(s) && InRange(s) && s.pc.Handling?
    ensures s.Typed() && Handled(s) < |s.rxQ.log| && Current(s) == s.rxQ.log[Handled(s)]
  {
    ReadWindow(s.rx, s.rxQ.log, s.rxQ.released, s.rxQ.released + s.pc.i);
  }

  /** The byte read next is the packet's next byte. */
  lemma NextByte(s: State)
    requires Data(s) && s.pc.Handling? && 0 <= Handled(s) < |s.rxQ.log|
    requires |s.pc.out| < s.rxQ.log[Handled(s)].len
    ensures s.pc.out + [ByteAt(s.umem, s.rxQ.log[Handled(s)].addr + |s.pc.out|)] <= s.packets[Handled(s)]
  {
    var h, j := Handled(s), |s.pc.out|;
    var d := s.rxQ.log[h];
    hide Conserved, Ordered, Handled;
    assert Waiting(s)[0] == d && s.packets[h..][0] == s.packets[h];
    assert Holding(s.umem, d, s.packets[h]);
    assert s.umem[d.addr..d.addr + d.len][j] == s.umem[d.addr + j];
  }

  lemma PrintByteInv(s: State)
    requires Inv(s) && s.pc.Handling? && |s.pc.out| < Current(s).len
    ensures Inv(PrintByte(s))
  {
    hide Rings, Control, Conserved, Ordered, Contents, Current, ByteAt, Handled, PrintByte;
    CurrentIs(s);
    NextByte(s);
    PrintByteIs(s);
    SameFramesInv(s, PrintByte(s));
  }

  /** One more byte of the current packet, and nothing else. */
  lemma PrintByteIs(s: State)
    requires s.Typed() && s.pc.Handling?
    ensures var s' := PrintByte(s);
            && s' == s.(pc := s'.pc) && s'.pc.Handling? && Handled(s') == Handled(s)
            && s'.pc.out == s.pc.out + [ByteAt(s.umem, Current(s).addr + |s.pc.out|)]
            && (Rings(s) && Control(s) ==> Rings(s') && Control(s'))
  {
    hide ProdCoupled, ConsCoupled, Current, ByteAt;
  }

  lemma SubmitInv(s: State)
    requires Inv(s) && s.pc.Submitting?
    ensures Inv(Submit(s))
  {
    SubmitAgrees(s.fill, s.fillQ, s.pc.n);
    hide ProdCoupled, ConsCoupled, Bag, Conserved, Ordered, Holding;
    SameFramesInv(s, Submit(s));
  }

  lemma ReleaseInv(s: State)
    requires Inv(s) && s.pc.Releasing?
    ensures Inv(Release(s))
  {
    ReleaseAgrees(s.rx, s.rxQ, s.pc.n);
    hide ProdCoupled, ConsCoupled, Bag, Conserved, Ordered, Holding;
    SameFramesInv(s, Release(s));
  }

  /** The kernel writes to frames it holds only: no waiting packet changes. */
  lemma WriteContents(s: State, addr: nat, b: byte)
    requires InRange(s) && Conserved(s) && Contents(s) && addr < |s.umem| && addr / FRAME in s.held
    ensures Stored(s.umem[addr := b], Waiting(s), s.packets[Handled(s)..], s.pc)
  {
    var waiting, packets := Waiting(s), s.packets[Handled(s)..];
    forall k | 0 <= k < |packets| ensures Holding(s.umem[addr := b], waiting[k], packets[k]) {
      WaitingIsOwned(s, Handled(s) + k);
      OtherFrame(s.umem, waiting[k], packets[k], addr, b);
    }
  }

  lemma KernelWriteInv(s: State, addr: nat, b: byte)
    requires Inv(s)
    ensures Inv(KernelWrite(s, addr, b))
  {
    hide ProdCoupled, ConsCoupled, Balance, InOrder, Stored, Control, Handled;
    if addr < |s.umem| && addr / FRAME in s.held {
      WriteContents(s, addr, b);
      KeepsHandled(s, s.umem[addr := b]);
    }
  }

  lemma KeepsHandled(s: State, umem: seq<byte>)
    ensures Handled(s.(umem := umem)) == Handled(s) && Control(s.(umem := umem)) == Control(s)
  {
  }

  lemma OtherFrame(umem: seq<byte>, d: Desc, packet: seq<byte>, addr: nat, b: byte)
    requires Holding(umem, d, packet) && addr < |umem| && addr / FRAME != d.addr / FRAME
    ensures Holding(umem[addr := b], d, packet)
  {
    assert addr < d.addr || d.addr + d.len <= addr;
    assert umem[addr := b][d.addr..d.addr + d.len] == umem[d.addr..d.addr + d.len];
  }

  lemma TakeRings(s: State)
    requires Rings(s) && Control(s)
    ensures Rings(KernelTake(s)) && Control(KernelTake(s))
  {
    hide ConsCoupled, Ring.HasEntry, Ring.Take, Window, Pow2;
    TakeAgrees(s.fill, s.fillQ);
  }

  lemma HandledSame(s: State, s': State)
    requires s'.pc == s.pc && s'.rxQ.claimed == s.rxQ.claimed
    ensures Handled(s') == Handled(s)
  {
  }

  lemma TakeKeeps(s: State, s': State)
    requires Data(s) && s.fillQ.taken < s.fillQ.submitted
    requires s'.rxQ == s.rxQ && s'.packets == s.packets && s'.printed == s.printed && s'.pc == s.pc
    requires s'.cfg == s.cfg && s'.umem == s.umem
    requires s'.fillQ == s.fillQ.(taken := s.fillQ.taken + 1)
    requires s'.held == s.held + multiset{s.fillQ.log[s.fillQ.taken] / FRAME}
    ensures Data(s')
  {
    hide Balance, InOrder, Stored, Handled;
    var q := s.fillQ;
    var onFill := q.log[q.taken..];
    assert onFill[0] == q.log[q.taken] && onFill[1..] == q.log[q.taken + 1..];
    BalanceTake(onFill, s.held, Waiting(s), s.cfg.populated);
    HandledSame(s, s');
  }

  lemma KernelTakeInv(s: State)
    requires Inv(s)
    ensures Inv(KernelTake(s))
  {
    TakeRings(s);
    TakeAgrees(s.fill, s.fillQ);
    hide Rings, Data, Control, ProdCoupled, Ring.HasEntry, Ring.Take;
    if s.fill.HasEntry() {
      TakeKeeps(s, KernelTake(s));
    }
  }

  lemma PublishRings(s: State, frame: nat, off: nat, len: nat)
    requires Inv(s)
    ensures Rings(KernelPublish(s, frame, off, len))
  {
    hide ProdCoupled, Ring.HasRoom, Ring.Publish, Control, Conserved, Ordered, Contents, Window, Pow2;
    PublishAgrees(s.rx, s.rxQ, Desc(frame * FRAME + off, len));
  }

  lemma StoredPublish(umem: seq<byte>, waiting: seq<Desc>, packets: seq<seq<byte>>, pc: Pc, d: Desc, packet: seq<byte>)
    requires Stored(umem, waiting, packets, pc) && Holding(umem, d, packet)
    ensures Stored(umem, waiting + [d], packets + [packet], pc)
  {
    hide Holding;
  }

  lemma PublishKeeps(s: State, s': State, d: Desc, packet: seq<byte>)
    requires Data(s) && d.addr / FRAME in s.held && Holding(s.umem, d, packet)
    requires s'.rxQ == s.rxQ.(log := s.rxQ.log + [d]) && s'.packets == s.packets + [packet]
    requires s'.held == s.held - multiset{d.addr / FRAME}
    requires s'.cfg == s.cfg && s'.umem == s.umem && s'.fillQ == s.fillQ && s'.printed == s.printed && s'.pc == s.pc
    ensures Data(s')
  {
    var log, ps, h := s.rxQ.log + [d], s.packets + [packet], Handled(s);
    BalancePublish(s.fillQ.log[s.fillQ.taken..], s.held, Waiting(s), d, s.cfg.populated);
    StoredPublish(s.umem, Waiting(s), s.packets[h..], s.pc, d, packet);
    assert log[h..] == Waiting(s) + [d] && log[..h] == s.rxQ.log[..h];
    assert ps[h..] == s.packets[h..] + [packet] && ps[..h] == s.packets[..h];
    HandledSame(s, s');
    hide Balance, InOrder, Stored, Holding, Handled;
  }

  lemma PublishControl(s: State, frame: nat, off: nat, len: nat)
    requires Control(s) && s.Typed()
    ensures Control(KernelPublish(s, frame, off, len))
  {
    hide Ring.HasRoom, Ring.Publish;
  }

  lemma HeldIsWhole(umem: seq<byte>, frame: nat, off: nat, len: nat)
    requires off < FRAME && off + len <= FRAME && frame * FRAME + off + len <= |umem|
    ensures var a := frame * FRAME + off;
            a / FRAME == frame && Holding(umem, Desc(a, len), umem[a..a + len])
  {
  }

  lemma KernelPublishInv(s: State, frame: nat, off: nat, len: nat)
    requires Inv(s)
    ensures Inv(KernelPublish(s, frame, off, len))
  {
    PublishRings(s, frame, off, len);
    PublishControl(s, frame, off, len);
    hide Rings, Data, Control, Holding, Ring.HasRoom, Ring.Publish;
    var d, s' := Desc(frame * FRAME + off, len), KernelPublish(s, frame, off, len);
    if s' != s {
      HeldIsWhole(s.umem, frame, off, len);
      PublishKeeps(s, s', d, s.umem[d.addr..d.addr + len]);
    }
  }

  lemma RecycleRings(s: State)
    requires Rings(s) && Control(s) && InRange(s) && s.pc.Handling?
    ensures Rings(Recycle(s))
  {
    WriteAgrees(s.fill, s.fillQ, ExtractAddr(Current(s).addr));
    hide ProdCoupled, ConsCoupled, ExtractAddr, Current, Ring.Write, Add32;
  }

  lemma RecycleControl(s: State)
    requires s.Typed() && Control(s) && s.pc.Handling?
    ensures Control(Recycle(s)) && Handled(Recycle(s)) == Handled(s) + 1
  {
    AddWraps(s.rxQ.released + s.pc.i, 1);
    AddWraps(|s.fillQ.log|, 1);
    hide Add32, ExtractAddr, Current, Ring.Write;
  }

  lemma RecycleKeeps(s: State, s': State, d: Desc)
    requires Data(s)
    requires 0 <= Handled(s) < |s.rxQ.log| && d == s.rxQ.log[Handled(s)]
    requires Handled(s') == Handled(s) + 1 && s'.rxQ == s.rxQ && s'.packets == s.packets
    requires s'.cfg == s.cfg && s'.umem == s.umem && s'.held == s.held
    requires s'.fillQ == s.fillQ.(log := s.fillQ.log + [d.addr])
    requires s'.printed == s.printed + [s.packets[Handled(s)]]
    requires s'.pc.Handling? ==> s'.pc.out == [] && Handled(s') < |s.packets|
    ensures Data(s')
  {
    var q, h := s.fillQ, Handled(s);
    hide Balance, InOrder, Stored;
    BalanceRecycle(q.log[q.taken..], s.held, Waiting(s), s.cfg.populated);
    StoredRecycle(s.umem, Waiting(s), s.packets[h..], s.pc, s'.pc);
    assert (q.log + [d.addr])[q.taken..] == q.log[q.taken..] + [d.addr];
    assert Waiting(s)[1..] == s.rxQ.log[h + 1..] && s.packets[h..][1..] == s.packets[h + 1..];
    assert s.rxQ.log[..h + 1] == s.rxQ.log[..h] + [d];
    assert s.packets[..h + 1] == s.packets[..h] + [s.packets[h]];
    InOrderRecycle(q.log, s.rxQ.log[..h], s.printed, s.packets[..h], s.cfg.populated, d, s.packets[h]);
  }

  lemma InOrderRecycle(fillLog: seq<nat>, done: seq<Desc>, printed: seq<seq<byte>>, packets: seq<seq<byte>>, n: nat,
                       d: Desc, packet: seq<byte>)
    requires InOrder(fillLog, done, printed, packets, n)
    ensures InOrder(fillLog + [d.addr], done + [d], printed + [packet], packets + [packet], n)
  {
    assert AddrsOf(done + [d]) == AddrsOf(done) + [d.addr];
  }

  lemma StoredRecycle(umem: seq<byte>, waiting: seq<Desc>, packets: seq<seq<byte>>, pc: Pc, pc': Pc)
    requires Stored(umem, waiting, packets, pc) && packets != []
    requires pc'.Handling? ==> pc'.out == [] && |packets| > 1
    ensures Stored(umem, waiting[1..], packets[1..], pc')
  {
    hide Holding;
  }

  lemma RecycleIs(s: State)
    requires s.Typed() && s.pc.Handling?
    ensures var s', addr := Recycle(s), ExtractAddr(Current(s).addr);
            && s'.rxQ == s.rxQ && s'.packets == s.packets
            && s'.cfg == s.cfg && s'.umem == s.umem && s'.held == s.held
            && s'.fillQ == s.fillQ.(log := s.fillQ.log + [addr])
            && s'.printed == s.printed + [s.pc.out]
            && (s'.pc.Handling? ==> s.pc.i + 1 < s.pc.n && s'.pc.out == [])
  {
    hide Ring.Write, ExtractAddr, Current, Add32;
  }

  /** The address fits the 48 bits that extract_addr keeps. */
  lemma AddressFits(s: State, k: nat)
    requires Data(s) && s.cfg.Valid() && Handled(s) <= k < |s.rxQ.log|
    ensures ExtractAddr(s.rxQ.log[k].addr) == s.rxQ.log[k].addr
  {
    WaitingIsOwned(s, k);
    hide Conserved, Ordered, Contents, Handled;
    assert s.rxQ.log[k].addr < s.cfg.frames * FRAME;
  }

  /** When the last byte is out, the whole packet is. */
  lemma OutIsWhole(s: State)
    requires Data(s) && s.pc.Handling? && 0 <= Handled(s) < |s.rxQ.log|
    requires |s.pc.out| >= s.rxQ.log[Handled(s)].len
    ensures s.pc.out == s.packets[Handled(s)]
  {
    hide Conserved, Ordered, Handled;
    assert Waiting(s)[0] == s.rxQ.log[Handled(s)] && s.packets[Handled(s)..][0] == s.packets[Handled(s)];
    assert Holding(s.umem, s.rxQ.log[Handled(s)], s.packets[Handled(s)]);
  }

  lemma MoreToHandle(s: State)
    requires Rings(s) && Control(s) && s.pc.Handling?
    ensures Handled(s) + (s.pc.n - s.pc.i) <= |s.rxQ.log|
  {
    assert s.rxQ.Valid(Pow2(s.rx.order));
  }

  lemma RecycleInv(s: State)
    requires Inv(s) && s.pc.Handling? && |s.pc.out| >= Current(s).len
    ensures Inv(Recycle(s))
  {
    CurrentIs(s);
    RecycleRings(s);
    RecycleControl(s);
    MoreToHandle(s);
    RecycleIs(s);
    hide Rings, Control, Data, Recycle, ExtractAddr, Handled, Current;
    AddressFits(s, Handled(s));
    OutIsWhole(s);
    RecycleKeeps(s, Recycle(s), Current(s));
  }

  /** Every step of either side keeps the invariant. */
  lemma NextInv(s: State, e: Event)
    requires s.Typed() && Inv(s)
    ensures Inv(Next(s, e))
  {
    hide Inv, Peek, Reserve, PrintByte, Recycle, Submit, Release, KernelTake, KernelWrite, KernelPublish, Current;
    match e
    case App =>
      match s.pc {
        case Idle => PeekInv(s);
        case Reserving(_, _) => ReserveInv(s);
        case Handling(_, _, _, _, out) => if |out| < Current(s).len { PrintByteInv(s); } else { RecycleInv(s); }
        case Submitting(_) => SubmitInv(s);
        case Releasing(_) => ReleaseInv(s);
      }
    case KTake => KernelTakeInv(s);
    case KWrite(addr, b) => KernelWriteInv(s, addr, b);
    case KPublish(frame, off, len) => KernelPublishInv(s, frame, off, len);
  }

  /** So it holds in every state of every interleaving. */
  lemma {:induction false} RunInv(s: State, es: seq<Event>)
    requires s.Typed() && Inv(s)
    ensures Inv(Run(s, es))
    decreases |es|
  {
    hide Inv, Next;
    if es != [] {
      RunInv(s, es[..|es| - 1]);
      NextInv(Run(s, es[..|es| - 1]), es[|es| - 1]);
    }
  }
}
