/** af_xdp/xdp-sock-tx.c and the kernel as one state machine: any number of calls of
    `send_packets`, with its reserve loop and `complete_send`, interleaved with
    kernel steps in any order. */
module TxProtocol {
  import opened Bytes
  import opened XskRing

  const FRAME_SHIFT := 12

  /** x << k on 32 bits. */
  function Shl(x: u32, k: nat): u32
    decreases k
  {
    if k == 0 then x else Shl(2 * x % U32, k - 1)
  }

  lemma {:induction false} ShlIs(x: u32, k: nat)
    requires x * Pow2(k) < U32
    ensures Shl(x, k) == x * Pow2(k)
    decreases k
  {
    if k > 0 {
      Doubled(x, Pow2(k - 1));
      assert Pow2(k) == 2 * Pow2(k - 1);
      hide Pow2;
      SmallMod(2 * x);
      ShlIs(2 * x, k - 1);
    }
  }

  lemma SmallMod(x: nat)
    requires x < U32
    ensures x % U32 == x
  {
  }

  lemma Doubled(x: nat, p: nat)
    requires p > 0 && x * (2 * p) < U32
    ensures 2 * x < U32 && (2 * x) * p == x * (2 * p)
  {
    assert (2 * x) * p == x * (2 * p) == p * (2 * x);
    MulAtLeast(p, 2 * x);
  }

  /** The address written to descriptor `i` is the one its frame was set up at, if and
      only if that address fits in 32 bits. */
  lemma ShiftIsProduct(i: u32)
    ensures Shl(i, FRAME_SHIFT) == i * FRAME <==> i < 0x10_0000
  {
    assert Pow2(12) == 16 * Pow2(8) && Pow2(8) == 256;
    if i < 0x10_0000 {
      ShlIs(i, 12);
    }
  }

  /** `batch` descriptors a send, every one for a frame holding `packet`. */
  datatype TxConfig = TxConfig(txOrder: nat, compOrder: nat, batch: u32, frames: nat, packet: seq<byte>) {
    predicate Valid() {
      && txOrder <= 31 && compOrder <= 31
      && 0 < batch <= frames < 0x10_0000 && batch <= Pow2(txOrder)
      && |packet| <= FRAME
    }
  }

  /** The dummy Ethernet frame: two addresses, then zeros up to 60 bytes. */
  const PACKET: seq<byte> := [0xab, 0xcd, 0xef, 0xab, 0xcd, 0xef, 0x01, 0x23, 0x45, 0x67, 0x89, 0x01] + Zeros(48)

  const TX_PROGRAM := TxConfig(11, 11, 1, 4096, PACKET)

  lemma ProgramIsValid()
    ensures TX_PROGRAM.Valid() && FRAME == 4096 && TX_PROGRAM.frames == 4096 && TX_PROGRAM.batch == 1
    ensures Pow2(TX_PROGRAM.txOrder) == Pow2(TX_PROGRAM.compOrder) == 2048
    ensures TX_PROGRAM.packet == PACKET && |PACKET| == 60
    ensures PACKET[..6] == [0xab, 0xcd, 0xef, 0xab, 0xcd, 0xef] && PACKET[6..12] == [1, 0x23, 0x45, 0x67, 0x89, 1]
    ensures forall i :: 12 <= i < 60 ==> PACKET[i] == 0
  {
    assert Pow2(8) == 256;
    assert Pow2(11) == 8 * Pow2(8);
  }

  /** Where the application is: `retry` tells the complete_send inside the reserve
      loop from the one after the submit. */
  datatype Pc =
    | Idle
    | Reserving
    | Draining(retry: bool)
    | Releasing(n: u32, retry: bool)
    | Writing(i: nat, txIndex: u32)
    | Submitting

  datatype State = State(
    cfg: TxConfig,
    tx: Ring<Desc>,
    comp: Ring<nat>,
    umem: seq<byte>,
    held: multiset<nat>,        // addresses the kernel took and has not completed
    sent: seq<seq<byte>>,       // what the kernel transmitted
    pc: Pc,
    // what happened; no step depends on these
    txQ: ProdLog<Desc>,
    compQ: ConsLog<nat>,
    sends: nat)
  {
    predicate Typed() { tx.Valid() && comp.Valid() }
  }

  datatype Event = App | KTake | KComplete(addr: nat)

  // The application's micro-steps.

  function Reserve(s: State): (s': State)
    requires s.Typed()
    ensures s'.Typed()
  {
    var (tx', got, idx) := s.tx.Reserve(s.cfg.batch);
    s.(tx := tx', txQ := s.txQ.Reserve(s.cfg.batch, Pow2(s.tx.order)).0,
       pc := if got != s.cfg.batch then Draining(true) else Writing(0, idx))
  }

  function WriteDesc(s: State): (s': State)
    requires s.Typed() && s.pc.Writing? && s.pc.i < U32
    ensures s'.Typed()
  {
    var Writing(i, idx) := s.pc;
    var d := Desc(Shl(i, FRAME_SHIFT), |s.cfg.packet|);
    s.(tx := s.tx.Write(idx, d), txQ := s.txQ.(log := s.txQ.log + [d]),
       pc := if i + 1 >= s.cfg.batch then Submitting else Writing(i + 1, Add32(idx, 1)))
  }

  function Submit(s: State): (s': State)
    requires s.Typed()
    ensures s'.Typed()
  {
    s.(tx := s.tx.Submit(s.cfg.batch), txQ := s.txQ.(submitted := s.txQ.submitted + s.cfg.batch),
       sends := s.sends + 1, pc := Draining(false))
  }

  /** After complete_send: back to the reserve, or done. */
  function After(retry: bool): Pc { if retry then Reserving else Idle }

  function PeekComp(s: State): (s': State)
    requires s.Typed() && s.pc.Draining?
    ensures s'.Typed()
  {
    var (comp', n, idx) := s.comp.Peek(s.cfg.batch);
    s.(comp := comp', compQ := s.compQ.Peek(s.cfg.batch).0,
       pc := if n > 0 then Releasing(n, s.pc.retry) else After(s.pc.retry))
  }

  function ReleaseComp(s: State): (s': State)
    requires s.Typed() && s.pc.Releasing?
    ensures s'.Typed()
  {
    s.(comp := s.comp.Release(s.pc.n), compQ := s.compQ.(released := s.compQ.released + s.pc.n),
       pc := After(s.pc.retry))
  }

  function AppStep(s: State): (s': State)
    requires s.Typed()
    ensures s'.Typed()
  {
    match s.pc
    case Idle => s.(pc := Reserving)
    case Reserving => Reserve(s)
    case Draining(_) => PeekComp(s)
    case Releasing(_, _) => ReleaseComp(s)
    case Writing(i, _) => if i < U32 then WriteDesc(s) else s
    case Submitting => Submit(s)
  }

  // The kernel. A step that is not enabled changes nothing.

  /** A TX entry is taken only when its completion will have a place. */
  predicate CanTake(s: State) {
    s.tx.HasEntry() && |s.held| + Sub32(s.comp.producer, s.comp.consumer) < Pow2(s.comp.order)
  }

  function Transmitted(umem: seq<byte>, d: Desc): seq<byte> {
    if d.addr + d.len <= |umem| then umem[d.addr..d.addr + d.len] else []
  }

  function KernelTake(s: State): (s': State)
    requires s.Typed()
    ensures s'.Typed()
  {
    if !CanTake(s) then s
    else
      var (tx', d) := s.tx.Take();
      s.(tx := tx', txQ := s.txQ.(taken := s.txQ.taken + 1), held := s.held + multiset{d.addr},
         sent := s.sent + [Transmitted(s.umem, d)])
  }

  function KernelComplete(s: State, addr: nat): (s': State)
    requires s.Typed()
    ensures s'.Typed()
  {
    if addr in s.held && s.comp.HasRoom() then
      s.(comp := s.comp.Publish(addr), compQ := s.compQ.(log := s.compQ.log + [addr]), held := s.held - multiset{addr})
    else s
  }

  function Next(s: State, e: Event): (s': State)
    requires s.Typed()
    ensures s'.Typed()
  {
    match e
    case App => AppStep(s)
    case KTake => KernelTake(s)
    case KComplete(addr) => KernelComplete(s, addr)
  }

  function Run(s: State, es: seq<Event>): (s': State)
    requires s.Typed()
    ensures s'.Typed()
    decreases |es|
  {
    if es == [] then s else Next(Run(s, es[..|es| - 1]), es[|es| - 1])
  }

  /** What `main` leaves before the first send: the packet in the first `batch` frames
      and both rings empty. */
  ghost predicate IsStart(s: State) {
    && s.cfg.Valid() && s.Typed() && s.tx.order == s.cfg.txOrder && s.comp.order == s.cfg.compOrder
    && s.tx.producer == s.tx.consumer == s.tx.cachedProd == 0 && s.tx.cachedCons == Pow2(s.cfg.txOrder) % U32
    && s.comp.producer == s.comp.consumer == s.comp.cachedProd == s.comp.cachedCons == 0
    && Initialised(s.umem, s.cfg)
    && s.held == multiset{} && s.sent == [] && s.pc == Idle && s.sends == 0
    && s.txQ == ProdLog([], 0, 0, 0, 0) && s.compQ == ConsLog([], 0, 0, 0)
  }

  /** The first `batch` frames hold the packet. */
  predicate Initialised(umem: seq<byte>, cfg: TxConfig) {
    && |umem| == cfg.frames * FRAME && |cfg.packet| <= FRAME && cfg.batch <= cfg.frames
    && forall i :: 0 <= i < cfg.batch ==> FrameHolds(umem, i, cfg.packet)
  }

  predicate FrameHolds(umem: seq<byte>, i: nat, packet: seq<byte>) {
    i * FRAME + |packet| <= |umem| && umem[i * FRAME..i * FRAME + |packet|] == packet
  }
}
