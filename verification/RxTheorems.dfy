/** The promises of the receive protocol, for every interleaving `es` of application
    and kernel steps from the start. */
module RxTheorems {
  import opened XskRing
  import opened RxProtocol
  import opened RxSafety

  lemma ReachableInv(s0: State, es: seq<Event>)
    requires IsStart(s0)
    ensures Inv(Run(s0, es))
  {
    StartInv(s0);
    RunInv(s0, es);
  }

  // The places a frame can be.

  /** Submitted to the kernel and not taken. */
  function OnFillRing(s: State): multiset<nat>
    requires InRange(s)
  {
    Bag(s.fillQ.log[s.fillQ.taken..s.fillQ.submitted])
  }

  /** Published and not peeked. */
  function Unread(s: State): multiset<nat>
    requires InRange(s) && s.rxQ.claimed <= |s.rxQ.log|
  {
    Bag(AddrsOf(s.rxQ.log[s.rxQ.claimed..]))
  }

  /** Peeked and not yet submitted back: still to be handled, or already written to a
      reserved fill slot. After the submit the RX slots are claimed but hold nothing. */
  function InBatch(s: State): multiset<nat>
    requires InRange(s) && Handled(s) <= s.rxQ.claimed <= |s.rxQ.log|
  {
    Bag(AddrsOf(s.rxQ.log[Handled(s)..s.rxQ.claimed])) + Bag(s.fillQ.log[s.fillQ.submitted..])
  }

  lemma PositionsFit(s: State)
    requires Inv(s)
    ensures InRange(s) && 0 <= Handled(s) <= s.rxQ.claimed <= |s.rxQ.log|
  {
  }

  /** Exclusive ownership and conservation: each populated frame is in exactly one of
      the four places, and no other frame is anywhere. */
  lemma OneOwner(s0: State, es: seq<Event>, f: nat)
    requires IsStart(s0)
    ensures var s := Run(s0, es);
            && InRange(s) && Handled(s) <= s.rxQ.claimed <= |s.rxQ.log|
            && OnFillRing(s)[f] + s.held[f] + Unread(s)[f] + InBatch(s)[f] == if f < s.cfg.populated then 1 else 0
  {
    ReachableInv(s0, es);
    var s := Run(s0, es);
    hide Run;
    PositionsFit(s);
    OnlyOnce(s, f);
    SplitPlaces(s);
    hide Bag, Inv, Handled;
  }

  lemma SplitPlaces(s: State)
    requires InRange(s) && Handled(s) <= s.rxQ.claimed <= |s.rxQ.log|
    ensures Bag(s.fillQ.log[s.fillQ.taken..]) == OnFillRing(s) + Bag(s.fillQ.log[s.fillQ.submitted..])
    ensures Bag(AddrsOf(Waiting(s))) == Bag(AddrsOf(s.rxQ.log[Handled(s)..s.rxQ.claimed])) + Unread(s)
  {
    var f, r, h := s.fillQ, s.rxQ, Handled(s);
    assert f.log[f.taken..] == f.log[f.taken..f.submitted] + f.log[f.submitted..];
    BagConcat(f.log[f.taken..f.submitted], f.log[f.submitted..]);
    assert AddrsOf(Waiting(s)) == AddrsOf(r.log[h..r.claimed]) + AddrsOf(r.log[r.claimed..]);
    BagConcat(AddrsOf(r.log[h..r.claimed]), AddrsOf(r.log[r.claimed..]));
  }

  /** While a packet is being printed its frame is the application's: the kernel
      neither holds it nor can take it, and every byte read lies in it. */
  lemma ReadsOwnFrame(s0: State, es: seq<Event>)
    requires IsStart(s0) && Run(s0, es).pc.Handling?
    ensures var s := Run(s0, es);
            var f := Current(s).addr / FRAME;
            && f < s.cfg.populated && f !in s.held
            && InRange(s) && f !in Bag(s.fillQ.log[s.fillQ.taken..])
            && forall a :: Current(s).addr <= a < Current(s).addr + Current(s).len ==> InFrame(s, a, f)
  {
    ReachableInv(s0, es);
    var s := Run(s0, es);
    hide Run;
    CurrentIs(s);
    WaitingIsOwned(s, Handled(s));
    CurrentInMemory(s);
    hide Inv, Current, Bag, Handled;
  }

  predicate InFrame(s: State, a: nat, f: nat) { a / FRAME == f && a < |s.umem| }

  lemma CurrentInMemory(s: State)
    requires Inv(s) && s.Typed() && s.pc.Handling?
    ensures Current(s).addr % FRAME + Current(s).len <= FRAME && Current(s).addr + Current(s).len <= |s.umem|
  {
    CurrentIs(s);
    var h := Handled(s);
    hide Rings, Control, Conserved, Ordered, Handled, Current;
    assert Waiting(s)[0] == s.rxQ.log[h];
    assert Holding(s.umem, Waiting(s)[0], s.packets[h..][0]);
  }

  /** Printed packets are a prefix of what the kernel published, byte for byte and in
      order, the one being printed is a prefix of the next, and the frames came back
      to the fill ring in that same order. */
  lemma PrintedIsPrefix(s0: State, es: seq<Event>)
    requires IsStart(s0)
    ensures var s := Run(s0, es);
            && s.printed <= s.packets && |s.packets| == |s.rxQ.log|
            && s.fillQ.log == Initial(s.cfg.populated) + AddrsOf(s.rxQ.log[..|s.printed|])
            && (s.pc.Handling? ==> |s.printed| < |s.packets| && s.pc.out <= s.packets[|s.printed|])
  {
    ReachableInv(s0, es);
    var s := Run(s0, es);
    hide Run, Rings, Control, Conserved, Holding;
    assert |s.printed| == Handled(s);
    assert s.pc.Handling? ==> s.packets[Handled(s)..][0] == s.packets[Handled(s)];
  }

  /** The fill submit comes first: an RX slot is released only when the frame of its
      packet is on the fill ring again. */
  lemma SubmittedBeforeReleased(s0: State, es: seq<Event>)
    requires IsStart(s0)
    ensures var s := Run(s0, es);
            && s.rxQ.released <= |s.printed| && s.rxQ.released <= |s.rxQ.log|
            && s.cfg.populated + s.rxQ.released <= s.fillQ.submitted <= |s.fillQ.log|
            && s.fillQ.log[s.cfg.populated..s.cfg.populated + s.rxQ.released] == AddrsOf(s.rxQ.log[..s.rxQ.released])
  {
    ReachableInv(s0, es);
    PrintedIsPrefix(s0, es);
    SubmittedFirst(Run(s0, es));
  }

  lemma SubmittedFirst(s: State)
    requires Inv(s)
    requires |s.printed| <= |s.rxQ.log| && s.fillQ.log == Initial(s.cfg.populated) + AddrsOf(s.rxQ.log[..|s.printed|])
    ensures s.rxQ.released <= |s.printed| && s.cfg.populated + s.rxQ.released <= s.fillQ.submitted <= |s.fillQ.log|
    ensures s.fillQ.log[s.cfg.populated..s.cfg.populated + s.rxQ.released] == AddrsOf(s.rxQ.log[..s.rxQ.released])
  {
  }

  /** `reserve` gives the whole batch at the first attempt, whatever the kernel did. */
  lemma ReserveAtOnce(s0: State, es: seq<Event>)
    requires IsStart(s0) && Run(s0, es).pc.Reserving?
    ensures AppStep(Run(s0, es)).pc.Handling?
  {
    ReachableInv(s0, es);
    hide Inv, Run;
    ReserveInv(Run(s0, es));
  }

  /** The rings stay faithful windows of the unbounded logs, and neither overflows:
      no slot is reused before its entry is taken or released. */
  lemma RingsRefineLogs(s0: State, es: seq<Event>)
    requires IsStart(s0)
    ensures var s := Run(s0, es);
            && ProdCoupled(s.fill, s.fillQ) && ConsCoupled(s.rx, s.rxQ)
            && s.fillQ.reserved <= s.fillQ.taken + Pow2(s.cfg.fillOrder)
            && |s.rxQ.log| <= s.rxQ.released + Pow2(s.cfg.rxOrder)
  {
    ReachableInv(s0, es);
  }
}
