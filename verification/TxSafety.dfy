/** Conservation, and no deadlock, for any number of sends. */
module TxSafety {
  import opened Bytes
  import opened XskRing
  import opened TxProtocol

  /** The descriptors one send puts on the ring. */
  function Batch(cfg: TxConfig): (ds: seq<Desc>)
    ensures |ds| == cfg.batch && forall i :: 0 <= i < |ds| ==> ds[i] == Desc(i * FRAME, |cfg.packet|)
  {
    seq(cfg.batch, (i: nat) => Desc(i * FRAME, |cfg.packet|))
  }

  function Repeat(ds: seq<Desc>, n: nat): seq<Desc> {
    if n == 0 then [] else Repeat(ds, n - 1) + ds
  }

  function AddrBag(ds: seq<Desc>): multiset<nat> {
    if ds == [] then multiset{} else AddrBag(ds[..|ds| - 1]) + multiset{ds[|ds| - 1].addr}
  }

  /** How far the current send has written. */
  function Written(s: State): nat {
    match s.pc
    case Writing(i, _) => i
    case Submitting => s.cfg.batch
    case _ => 0
  }

  ghost predicate Rings(s: State) {
    && ProdCoupled(s.tx, s.txQ) && ConsCoupled(s.comp, s.compQ)
    && s.cfg.Valid() && s.tx.order == s.cfg.txOrder && s.comp.order == s.cfg.compOrder
    && Initialised(s.umem, s.cfg)
  }

  predicate Control(s: State) {
    var t, c := s.txQ, s.compQ;
    && (match s.pc
        case Writing(i, idx) =>
          i < s.cfg.batch && t.reserved == t.submitted + s.cfg.batch && |t.log| == t.submitted + i
          && idx == |t.log| % U32
        case Submitting => |t.log| == t.reserved == t.submitted + s.cfg.batch
        case _ => |t.log| == t.reserved == t.submitted)
    && (match s.pc
        case Releasing(n, _) => 0 < n && c.released + n == c.claimed
        case _ => c.released == c.claimed)
  }

  /** Everything ever written is whole batches and a part of the current one. */
  predicate Batches(s: State) {
    Written(s) <= s.cfg.batch && s.txQ.log == Repeat(Batch(s.cfg), s.sends) + Batch(s.cfg)[..Written(s)]
  }

  /** What the kernel took is held or completed, address by address, and there is a
      place for every completion still to come. */
  ghost predicate Conserved(s: State) {
    && s.txQ.taken <= |s.txQ.log|
    && AddrBag(s.txQ.log[..s.txQ.taken]) == s.held + multiset(s.compQ.log)
    && s.txQ.taken == |s.held| + |s.compQ.log|
    && |s.held| + |s.compQ.log| <= s.compQ.released + Pow2(s.cfg.compOrder)
  }

  /** Every transmitted packet is the initialised one. */
  predicate Faithful(s: State) {
    |s.sent| == s.txQ.taken && forall k :: 0 <= k < |s.sent| ==> s.sent[k] == s.cfg.packet
  }

  ghost predicate Data(s: State) {
    Batches(s) && Conserved(s) && Faithful(s)
  }

  ghost predicate Inv(s: State) {
    Rings(s) && Control(s) && Data(s)
  }

  lemma StartInv(s: State)
    requires IsStart(s)
    ensures Inv(s)
  {
    assert s.txQ.log[..0] == [];
  }

  /** Steps of the application that touch neither descriptors nor submissions. */
  lemma SameData(s: State, s': State)
    requires Data(s) && s'.cfg == s.cfg && s'.held == s.held && s'.sent == s.sent && s'.sends == s.sends
    requires s'.txQ.log == s.txQ.log && s'.txQ.taken == s.txQ.taken && Written(s') == Written(s)
    requires s'.compQ.log == s.compQ.log && s.compQ.released <= s'.compQ.released
    ensures Data(s')
  {
    hide AddrBag, Repeat, Batch, Written;
  }

  lemma ReserveInv(s: State)
    requires Inv(s) && s.pc.Reserving?
    ensures Inv(Reserve(s))
  {
    ReserveAgrees(s.tx, s.txQ, s.cfg.batch);
    assert s.txQ.Valid(Pow2(s.tx.order));
    hide ProdCoupled, ConsCoupled, Initialised, Ring.Reserve, Data;
    SameData(s, Reserve(s));
  }

  lemma PeekCompInv(s: State)
    requires s.Typed() && Inv(s) && s.pc.Draining?
    ensures Inv(PeekComp(s))
  {
    hide ProdCoupled, Initialised, Ring.Peek, Data, Window, Pow2;
    PeekAgrees(s.comp, s.compQ, s.cfg.batch);
    SameData(s, PeekComp(s));
  }

  lemma ReleaseCompInv(s: State)
    requires Inv(s) && s.pc.Releasing?
    ensures Inv(ReleaseComp(s))
  {
    ReleaseAgrees(s.comp, s.compQ, s.pc.n);
    hide ProdCoupled, ConsCoupled, Initialised, Ring.Release, Data;
    SameData(s, ReleaseComp(s));
  }

  lemma WriteDescRings(s: State)
    requires s.Typed() && Rings(s) && Control(s) && s.pc.Writing? && s.pc.i < U32
    ensures Rings(WriteDesc(s)) && Control(WriteDesc(s))
  {
    WriteAgrees(s.tx, s.txQ, Desc(Shl(s.pc.i, FRAME_SHIFT), |s.cfg.packet|));
    AddWraps(|s.txQ.log|, 1);
    assert s.txQ.Valid(Pow2(s.tx.order));
    hide ProdCoupled, ConsCoupled, Initialised, Ring.Write, Shl, Add32;
  }

  lemma WriteDescKeeps(s: State, s': State, i: nat)
    requires Data(s) && Written(s) == i < s.cfg.batch && Written(s') == i + 1
    requires s'.cfg == s.cfg && s'.held == s.held && s'.sent == s.sent && s'.sends == s.sends
    requires s'.txQ == s.txQ.(log := s.txQ.log + [Batch(s.cfg)[i]]) && s'.compQ == s.compQ
    ensures Data(s')
  {
    hide AddrBag, Repeat, Batch, Written;
    var log' := s'.txQ.log;
    assert Batch(s.cfg)[..i + 1] == Batch(s.cfg)[..i] + [Batch(s.cfg)[i]];
    assert log'[..s.txQ.taken] == s.txQ.log[..s.txQ.taken];
  }

  /** One descriptor written: the shifted address is the next one of the batch. */
  lemma WriteDescInv(s: State)
    requires Inv(s) && s.pc.Writing?
    ensures s.pc.i < U32 && Inv(WriteDesc(s))
  {
    WriteDescRings(s);
    ShiftIsProduct(s.pc.i);
    hide Rings, Data, Ring.Write, Shl, Add32;
    WriteDescKeeps(s, WriteDesc(s), s.pc.i);
  }

  lemma SubmitInv(s: State)
    requires Inv(s) && s.pc.Submitting?
    ensures Inv(Submit(s))
  {
    hide ProdCoupled, ConsCoupled, AddrBag, Batch, Initialised, Pow2;
    SubmitAgrees(s.tx, s.txQ, s.cfg.batch);
    assert Batch(s.cfg)[..s.cfg.batch] == Batch(s.cfg) && Batch(s.cfg)[..0] == [];
  }

  // The kernel's steps.

  lemma CanTakeIs(s: State)
    requires Rings(s) && s.Typed()
    ensures CanTake(s) <==> s.txQ.taken < s.txQ.submitted
                            && |s.held| + |s.compQ.log| < s.compQ.released + Pow2(s.cfg.compOrder)
  {
    TakeAgrees(s.tx, s.txQ);
    Pow2Bound(s.comp.order);
    SubWraps(|s.compQ.log|, s.compQ.released);
    hide Sub32, Ring.HasEntry, Ring.Take, Window, Initialised;
  }

  /** Every descriptor on the log names an initialised frame. */
  lemma {:induction false} RepeatEntry(cfg: TxConfig, n: nat, k: nat)
    requires k < |Repeat(Batch(cfg), n)|
    ensures Repeat(Batch(cfg), n)[k] in Batch(cfg)
    decreases n
  {
    hide Batch;
    var rest := Repeat(Batch(cfg), n - 1);
    if k < |rest| {
      RepeatEntry(cfg, n - 1, k);
    } else {
      assert Repeat(Batch(cfg), n)[k] == Batch(cfg)[k - |rest|];
    }
  }

  lemma TransmitsPacket(s: State, k: nat)
    requires Batches(s) && Initialised(s.umem, s.cfg) && k < |s.txQ.log|
    ensures Transmitted(s.umem, s.txQ.log[k]) == s.cfg.packet
  {
    var whole := Repeat(Batch(s.cfg), s.sends);
    if k < |whole| {
      RepeatEntry(s.cfg, s.sends, k);
    } else {
      assert s.txQ.log[k] == Batch(s.cfg)[k - |whole|];
    }
    var i :| 0 <= i < s.cfg.batch && s.txQ.log[k] == Batch(s.cfg)[i];
    assert FrameHolds(s.umem, i, s.cfg.packet);
  }

  lemma TakeKeeps(s: State, s': State)
    requires Data(s) && s.txQ.taken < |s.txQ.log|
    requires |s.held| + |s.compQ.log| < s.compQ.released + Pow2(s.cfg.compOrder)
    requires s'.cfg == s.cfg && s'.pc == s.pc && s'.sends == s.sends && s'.compQ == s.compQ
    requires s'.txQ == s.txQ.(taken := s.txQ.taken + 1)
    requires s'.held == s.held + multiset{s.txQ.log[s.txQ.taken].addr}
    requires s'.sent == s.sent + [s.cfg.packet]
    ensures Data(s')
  {
    hide Repeat, Batch, Written, AddrBag;
    AddrBagNext(s.txQ.log, s.txQ.taken);
    SameWritten(s, s');
    assert s'.held + multiset(s.compQ.log)
        == s.held + multiset(s.compQ.log) + multiset{s.txQ.log[s.txQ.taken].addr};
  }

  lemma AddrBagNext(log: seq<Desc>, k: nat)
    requires k < |log|
    ensures AddrBag(log[..k + 1]) == AddrBag(log[..k]) + multiset{log[k].addr}
  {
    assert log[..k + 1][..k] == log[..k];
  }

  lemma SameWritten(s: State, s': State)
    requires s'.pc == s.pc && s'.cfg == s.cfg
    ensures Written(s') == Written(s)
  {
  }

  lemma KernelTakeInv(s: State)
    requires s.Typed() && Inv(s)
    ensures Inv(KernelTake(s))
  {
    CanTakeIs(s);
    if CanTake(s) {
      TakeAgrees(s.tx, s.txQ);
      TransmitsPacket(s, s.txQ.taken);
      assert s.txQ.Valid(Pow2(s.tx.order));
      hide CanTake, ProdCoupled, ConsCoupled, Initialised, Data, Ring.Take, Ring.HasEntry, Transmitted;
      TakeKeeps(s, KernelTake(s));
    }
  }

  lemma CompleteKeeps(s: State, s': State, addr: nat)
    requires Data(s) && addr in s.held
    requires s'.cfg == s.cfg && s'.pc == s.pc && s'.sends == s.sends && s'.txQ == s.txQ && s'.sent == s.sent
    requires s'.compQ == s.compQ.(log := s.compQ.log + [addr]) && s'.held == s.held - multiset{addr}
    ensures Data(s')
  {
    assert Written(s') == Written(s);
    hide AddrBag, Repeat, Batch, Written;
    assert multiset(s.compQ.log + [addr]) == multiset(s.compQ.log) + multiset{addr};
    assert s.held == s'.held + multiset{addr};
    assert |s.held| == |s'.held| + 1;
  }

  lemma KernelCompleteInv(s: State, addr: nat)
    requires s.Typed() && Inv(s)
    ensures Inv(KernelComplete(s, addr))
  {
    PublishAgrees(s.comp, s.compQ, addr);
    if addr in s.held && s.comp.HasRoom() {
      assert s.compQ.Valid(Pow2(s.comp.order));
      hide ProdCoupled, ConsCoupled, Initialised, Data, Ring.HasRoom, Ring.Publish;
      CompleteKeeps(s, KernelComplete(s, addr), addr);
    }
  }

  lemma NextInv(s: State, e: Event)
    requires s.Typed() && Inv(s)
    ensures Inv(Next(s, e))
  {
    match e
    case App =>
      match s.pc {
        case Idle => IdleInv(s);
        case Reserving => ReserveInv(s);
        case Draining(_) => PeekCompInv(s);
        case Releasing(_, _) => ReleaseCompInv(s);
        case Writing(_, _) => WriteDescInv(s);
        case Submitting => SubmitInv(s);
      }
    case KTake => KernelTakeInv(s);
    case KComplete(addr) => KernelCompleteInv(s, addr);
    hide Inv, Reserve, PeekComp, ReleaseComp, WriteDesc, Submit, KernelTake, KernelComplete;
  }

  lemma IdleInv(s: State)
    requires Inv(s) && s.pc.Idle?
    ensures Inv(s.(pc := Reserving))
  {
    hide ProdCoupled, ConsCoupled, Initialised, Data;
    SameData(s, s.(pc := Reserving));
  }

  lemma {:induction false} RunInv(s: State, es: seq<Event>)
    requires s.Typed() && Inv(s)
    ensures Inv(Run(s, es))
    decreases |es|
  {
    hide Inv, Next;
    if es != [] {
      RunInv(s, es[..|es| - 1]);
      NextInv(Run(s, es[..|es| - 1]), es[|es| - 1]);
    }
  }
}
