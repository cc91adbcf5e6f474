/** af_xdp/xdp-sock-rx.c and the kernel as one state machine: the application's
    micro-steps (peek, reserve, read a byte, recycle, submit, release) interleaved
    with kernel steps in any order. The machine computes on wrapped indices and
    masked slots only; the logs beside the rings record what happened. */
module RxProtocol {
  import opened Bytes
  import opened XskRing

  /** Ring sizes are 2^order. `populated` frames go on the fill ring at start. */
  datatype Config = Config(fillOrder: nat, rxOrder: nat, batch: u32, populated: nat, frames: nat) {
    predicate Valid() {
      && fillOrder <= 31 && rxOrder <= 31 && 0 < batch
      && populated <= Pow2(fillOrder) && populated <= frames
      && frames * FRAME <= 0x1_0000_0000_0000
    }
  }

  /** Default rings of 2048 entries, batches of 64, all of the fill ring populated
      and 4096 frames. */
  const PROGRAM := Config(11, 11, 64, 2048, 4096)

  lemma ProgramIsValid()
    ensures PROGRAM.Valid() && FRAME == 4096 && PROGRAM.frames == 4096 && PROGRAM.batch == 64
    ensures Pow2(PROGRAM.fillOrder) == Pow2(PROGRAM.rxOrder) == 2048 == PROGRAM.populated
  {
    assert Pow2(8) == 256;
    assert Pow2(11) == 8 * Pow2(8);
  }

  /** Where the application is in `receive`, with its local variables. */
  datatype Pc =
    | Idle
    | Reserving(n: u32, rxIndex: u32)
    | Handling(n: u32, i: nat, rxIndex: u32, fillIndex: u32, out: seq<byte>)
    | Submitting(n: u32)
    | Releasing(n: u32)

  datatype State = State(
    cfg: Config,
    fill: Ring<nat>,
    rx: Ring<Desc>,
    umem: seq<byte>,
    held: multiset<nat>,        // frames the kernel took and has not published
    pc: Pc,
    printed: seq<seq<byte>>,    // packets printed so far
    // what happened; no step depends on these
    fillQ: ProdLog<nat>,
    rxQ: ConsLog<Desc>,
    packets: seq<seq<byte>>)    // what the kernel had written when it published
  {
    predicate Typed() { fill.Valid() && rx.Valid() }
  }

  datatype Event =
    | App
    | KTake
    | KWrite(addr: nat, b: byte)
    | KPublish(frame: nat, off: nat, len: nat)

  /** xsk_umem__extract_addr: the low 48 bits. */
  function ExtractAddr(addr: nat): nat { addr % 0x1_0000_0000_0000 }

  function ByteAt(umem: seq<byte>, a: nat): byte {
    if a < |umem| then umem[a] else 0
  }

  // The application's micro-steps.

  function Peek(s: State): (s': State)
    requires s.Typed()
    ensures s'.Typed()
  {
    var (rx', n, idx) := s.rx.Peek(s.cfg.batch);
    s.(rx := rx', rxQ := s.rxQ.Peek(s.cfg.batch).0, pc := if n == 0 then Idle else Reserving(n, idx))
  }

  function Reserve(s: State): (s': State)
    requires s.Typed() && s.pc.Reserving?
    ensures s'.Typed()
  {
    var n := s.pc.n;
    var (fill', got, idx) := s.fill.Reserve(n);
    s.(fill := fill', fillQ := s.fillQ.Reserve(n, Pow2(s.fill.order)).0,
       pc := if got != n then s.pc else Handling(n, 0, s.pc.rxIndex, idx, []))
  }

  function Current(s: State): Desc
    requires s.Typed() && s.pc.Handling?
  {
    s.rx.Read(s.pc.rxIndex)
  }

  /** print_packet reads the next byte of the current packet. */
  function PrintByte(s: State): (s': State)
    requires s.Typed() && s.pc.Handling?
    ensures s'.Typed()
  {
    s.(pc := s.pc.(out := s.pc.out + [ByteAt(s.umem, Current(s).addr + |s.pc.out|)]))
  }

  /** The packet is printed; its address goes to the next fill slot. */
  function Recycle(s: State): (s': State)
    requires s.Typed() && s.pc.Handling?
    ensures s'.Typed()
  {
    var addr := ExtractAddr(Current(s).addr);
    var Handling(n, i, ri, fi, out) := s.pc;
    s.(printed := s.printed + [out],
       fill := s.fill.Write(fi, addr),
       fillQ := s.fillQ.(log := s.fillQ.log + [addr]),
       pc := if i + 1 >= n then Submitting(n) else Handling(n, i + 1, Add32(ri, 1), Add32(fi, 1), []))
  }

  function Submit(s: State): (s': State)
    requires s.Typed() && s.pc.Submitting?
    ensures s'.Typed()
  {
    var n := s.pc.n;
    s.(fill := s.fill.Submit(n), fillQ := s.fillQ.(submitted := s.fillQ.submitted + n), pc := Releasing(n))
  }

  function Release(s: State): (s': State)
    requires s.Typed() && s.pc.Releasing?
    ensures s'.Typed()
  {
    var n := s.pc.n;
    s.(rx := s.rx.Release(n), rxQ := s.rxQ.(released := s.rxQ.released + n), pc := Idle)
  }

  function AppStep(s: State): (s': State)
    requires s.Typed()
    ensures s'.Typed()
  {
    match s.pc
    case Idle => Peek(s)
    case Reserving(_, _) => Reserve(s)
    case Handling(_, _, _, _, out) => if |out| < Current(s).len then PrintByte(s) else Recycle(s)
    case Submitting(_) => Submit(s)
    case Releasing(_) => Release(s)
  }

  // The kernel. A step that is not enabled changes nothing.

  /** Take the oldest submitted fill entry; headroom in the address is masked off. */
  function KernelTake(s: State): (s': State)
    requires s.Typed()
    ensures s'.Typed()
  {
    if !s.fill.HasEntry() then s
    else
      var (fill', addr) := s.fill.Take();
      s.(fill := fill', held := s.held + multiset{addr / FRAME},
         fillQ := s.fillQ.(taken := s.fillQ.taken + 1))
  }

  /** Write one byte of a frame it holds. */
  function KernelWrite(s: State, addr: nat, b: byte): (s': State)
    requires s.Typed()
    ensures s'.Typed()
  {
    if addr < |s.umem| && addr / FRAME in s.held then s.(umem := s.umem[addr := b]) else s
  }

  /** Hand over a frame it holds, with the packet at some headroom inside it. */
  function KernelPublish(s: State, frame: nat, off: nat, len: nat): (s': State)
    requires s.Typed()
    ensures s'.Typed()
  {
    var d := Desc(frame * FRAME + off, len);
    if frame in s.held && off + len <= FRAME && off < FRAME && d.addr + len <= |s.umem| && s.rx.HasRoom() then
      s.(rx := s.rx.Publish(d), held := s.held - multiset{frame},
         rxQ := s.rxQ.(log := s.rxQ.log + [d]), packets := s.packets + [s.umem[d.addr..d.addr + len]])
    else s
  }

  function Next(s: State, e: Event): (s': State)
    requires s.Typed()
    ensures s'.Typed()
  {
    match e
    case App => AppStep(s)
    case KTake => KernelTake(s)
    case KWrite(addr, b) => KernelWrite(s, addr, b)
    case KPublish(frame, off, len) => KernelPublish(s, frame, off, len)
  }

  function Run(s: State, es: seq<Event>): (s': State)
    requires s.Typed()
    ensures s'.Typed()
    decreases |es|
  {
    if es == [] then s else Next(Run(s, es[..|es| - 1]), es[|es| - 1])
  }

  // The start.

  function Initial(n: nat): (addrs: seq<nat>)
    ensures |addrs| == n && forall i :: 0 <= i < n ==> addrs[i] == i * FRAME
  {
    seq(n, i => i * FRAME)
  }

  /** What `main` leaves before the socket exists: the fill ring populated and
      submitted, an empty RX ring, frames and unused slots with any contents. */
  ghost predicate IsStart(s: State) {
    && s.cfg.Valid() && s.Typed()
    && s.fill.order == s.cfg.fillOrder && s.rx.order == s.cfg.rxOrder
    && s.fill.producer == s.fill.cachedProd == s.cfg.populated % U32
    && s.fill.consumer == 0 && s.fill.cachedCons == Pow2(s.cfg.fillOrder) % U32
    && (forall i :: 0 <= i < s.cfg.populated ==> s.fill.slots[i] == i * FRAME)
    && s.rx.producer == s.rx.consumer == s.rx.cachedProd == s.rx.cachedCons == 0
    && |s.umem| == s.cfg.frames * FRAME
    && s.held == multiset{} && s.pc == Idle && s.printed == [] && s.packets == []
    && s.fillQ == ProdLog(Initial(s.cfg.populated), s.cfg.populated, s.cfg.populated, 0, 0)
    && s.rxQ == ConsLog([], 0, 0, 0)
  }
}
