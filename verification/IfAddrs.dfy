/** netlink/if-addrs.c: print address changes. The same loops as get-links with an
    eight-byte fixed header, and a DONE that ends the datagram but not the run. */
module IfAddrs {
  import opened Bytes
  import opened Attributes
  import opened Messages

  const IFADDRMSG := 8

  /** What is printed: the fixed header of an address message, each attribute met
      (its type and payload; the text made of them is left out), or `other`. */
  datatype Line =
    | Address(deleted: bool, header: seq<byte>)
    | Attribute(attr: Attr)
    | Unknown

  function AttributeLines(vs: seq<Visit>): (ls: seq<Line>)
    ensures |ls| == |vs| && forall i :: 0 <= i < |ls| ==> ls[i] == Attribute(vs[i].attr)
  {
    if vs == [] then [] else [Attribute(vs[0].attr)] + AttributeLines(vs[1..])
  }

  function AddrVisits(mem: seq<byte>, nh: nat): seq<Visit>
    requires Framed(mem, nh, |mem| - SLACK)
  {
    Walk(mem, nh + HEADER + IFADDRMSG, Get32(mem, nh) - IFADDRMSG)
  }

  function AddressLines(mem: seq<byte>, nh: nat, deleted: bool): seq<Line>
    requires Framed(mem, nh, |mem| - SLACK)
  {
    [Address(deleted, mem[nh + HEADER..nh + HEADER + IFADDRMSG])] + AttributeLines(AddrVisits(mem, nh))
  }

  function MessageLines(mem: seq<byte>, nh: nat): seq<Line>
    requires Framed(mem, nh, |mem| - SLACK)
  {
    if TypeAt(mem, nh) == RTM_NEWADDR then AddressLines(mem, nh, false)
    else if TypeAt(mem, nh) == RTM_DELADDR then AddressLines(mem, nh, true)
    else [Unknown]
  }

  function AllLines(mem: seq<byte>, offs: seq<nat>): seq<Line>
    requires AllFramed(mem, offs, |mem| - SLACK)
  {
    if offs == [] then [] else MessageLines(mem, offs[0]) + AllLines(mem, offs[1..])
  }

  /** Return code of read_message: -1 at ERROR; DONE gives 0. */
  function CodeAt(mem: seq<byte>, offs: seq<nat>): int
    requires AllFramed(mem, offs, |mem|)
  {
    if StopType(mem, offs) == NLMSG_ERROR then -1 else 0
  }

  function LinesBeforeStop(mem: seq<byte>, offs: seq<nat>): seq<Line>
    requires AllFramed(mem, offs, |mem| - SLACK) && AllFramed(mem, offs, |mem|)
  {
    AllLines(mem, Handled(mem, offs))
  }

  function Code(r: Receipt): int
    requires r.Valid()
  {
    if r.Failed? then -1
    else
      OffsetsAreSafe(r.mem, 0, r.len);
      CodeAt(r.mem, Offsets(r.mem, 0, r.len))
  }

  /** Lines printed for one receipt: those of the messages before the first stop. */
  function ReceiptLines(r: Receipt): seq<Line>
    requires r.Valid()
  {
    if r.Failed? then []
    else
      OffsetsAreSafe(r.mem, 0, r.len);
      LinesBeforeStop(r.mem, Offsets(r.mem, 0, r.len))
  }

  // One round of each loop.

  lemma AttributeStep(mem: seq<byte>, rta: nat, len: int)
    requires rta + len <= |mem|
    ensures AttributeLines(Walk(mem, rta, len)) ==
            if !RtaOk(mem, rta, len) then []
            else
              var step := Align4(Get16(mem, rta));
              [Attribute(AttrAt(mem, rta))] + AttributeLines(Walk(mem, rta + step, len - step))
  {
    hide Align4, Get16;
    if RtaOk(mem, rta, len) {
      var step := Align4(Get16(mem, rta));
      assert Walk(mem, rta, len)[1..] == Walk(mem, rta + step, len - step);
    }
  }

  lemma MessageStep(mem: seq<byte>, off: nat, len: int)
    requires off + len + SLACK <= |mem|
    ensures var offs := Offsets(mem, off, len);
            && AllFramed(mem, offs, |mem| - SLACK) && AllFramed(mem, offs, |mem|)
            && if !NlmsgOk(mem, off, len) then CodeAt(mem, offs) == 0 && LinesBeforeStop(mem, offs) == []
               else if Stops(mem, off) then
                 && CodeAt(mem, offs) == (if TypeAt(mem, off) == NLMSG_DONE then 0 else -1)
                 && LinesBeforeStop(mem, offs) == []
               else
                 var step := Align4(Get32(mem, off));
                 var rest := Offsets(mem, off + step, len - step);
                 && AllFramed(mem, rest, |mem| - SLACK) && AllFramed(mem, rest, |mem|)
                 && CodeAt(mem, offs) == CodeAt(mem, rest)
                 && LinesBeforeStop(mem, offs) == MessageLines(mem, off) + LinesBeforeStop(mem, rest)
  {
    hide Offsets, Handled, StopType, MessageLines, Align4, Get32;
    LoopStep(mem, off, len);
  }

  /** By the bytes on the wire: which types end a datagram, and which are addresses. */
  lemma FirstType(r: Receipt)
    requires r.Datagram? && r.Valid() && NlmsgOk(r.mem, 0, r.len)
    ensures r.mem[4..6] == [3, 0] ==> Code(r) == 0 && ReceiptLines(r) == []
    ensures r.mem[4..6] == [2, 0] ==> Code(r) == -1 && ReceiptLines(r) == []
    ensures r.mem[4..6] == [20, 0] ==> AddressLines(r.mem, 0, false) <= ReceiptLines(r)
    ensures r.mem[4..6] == [21, 0] ==> AddressLines(r.mem, 0, true) <= ReceiptLines(r)
    ensures r.mem[4] as int + 256 * r.mem[5] as int !in {2, 3, 20, 21} ==> [Unknown] <= ReceiptLines(r)
  {
    hide Offsets, LinesBeforeStop, CodeAt, AllFramed, AddressLines, Align4, Get32;
    MessageStep(r.mem, 0, r.len);
    assert r.mem[4..6][0] == r.mem[4] && r.mem[4..6][1] == r.mem[5];
  }

  // The loops of the program.

  method ParseAddrMessage(mem: seq<byte>, nh: nat, deleted: bool) returns (out: seq<Line>)
    requires Framed(mem, nh, |mem| - SLACK)
    ensures out == AddressLines(mem, nh, deleted)
  {
    hide Walk, AttributeLines, Align4, Get16, Get32;
    out := [Address(deleted, mem[nh + HEADER..nh + HEADER + IFADDRMSG])];
    var len: int := Get32(mem, nh) - IFADDRMSG;
    var rta: nat := nh + HEADER + IFADDRMSG;
    while RtaOk(mem, rta, len)
      invariant rta + len <= |mem|
      invariant out + AttributeLines(Walk(mem, rta, len)) == AddressLines(mem, nh, deleted)
      decreases len
    {
      AttributeStep(mem, rta, len);
      out := out + [Attribute(AttrAt(mem, rta))];
      var step := Align4(Get16(mem, rta));
      len := len - step;
      rta := rta + step;
    }
    AttributeStep(mem, rta, len);
  }

  method ParseMessage(mem: seq<byte>, nh: nat) returns (out: seq<Line>)
    requires Framed(mem, nh, |mem| - SLACK)
    ensures out == MessageLines(mem, nh)
  {
    if TypeAt(mem, nh) == RTM_NEWADDR {
      out := ParseAddrMessage(mem, nh, false);
    } else if TypeAt(mem, nh) == RTM_DELADDR {
      out := ParseAddrMessage(mem, nh, true);
    } else {
      out := [Unknown];
    }
  }

  /** The loop of read_message over the `n` bytes received. */
  method ReadDatagram(mem: seq<byte>, n: nat) returns (code: int, out: seq<Line>)
    requires n + SLACK <= |mem|
    requires AllFramed(mem, Offsets(mem, 0, n), |mem| - SLACK) && AllFramed(mem, Offsets(mem, 0, n), |mem|)
    ensures code == CodeAt(mem, Offsets(mem, 0, n))
    ensures out == LinesBeforeStop(mem, Offsets(mem, 0, n))
  {
    hide Offsets, Align4, CodeAt, LinesBeforeStop, AllFramed, MessageLines;
    out := [];
    var nh: nat, len: int := 0, n;
    while NlmsgOk(mem, nh, len)
      invariant nh + len == n
      invariant AllFramed(mem, Offsets(mem, nh, len), |mem| - SLACK)
      invariant AllFramed(mem, Offsets(mem, nh, len), |mem|)
      invariant out + LinesBeforeStop(mem, Offsets(mem, nh, len)) == LinesBeforeStop(mem, Offsets(mem, 0, n))
      invariant CodeAt(mem, Offsets(mem, nh, len)) == CodeAt(mem, Offsets(mem, 0, n))
      decreases len
    {
      MessageStep(mem, nh, len);
      if TypeAt(mem, nh) == NLMSG_DONE {
        return 0, out;
      }
      if TypeAt(mem, nh) == NLMSG_ERROR {
        return -1, out;
      }
      var lines := ParseMessage(mem, nh);
      out := out + lines;
      var step := Align4(Get32(mem, nh));
      len := len - step;
      nh := nh + step;
    }
    MessageStep(mem, nh, len);
    return 0, out;
  }

  method ReadMessage(r: Receipt) returns (code: int, out: seq<Line>)
    requires r.Valid()
    ensures code == Code(r) && out == ReceiptLines(r)
  {
    if r.Failed? {
      return -1, [];
    }
    OffsetsAreSafe(r.mem, 0, r.len);
    code, out := ReadDatagram(r.mem, r.len);
  }

  /** The lines of several receipts, all of them read. */
  function LinesOf(input: seq<Receipt>): seq<Line>
    requires forall i :: 0 <= i < |input| ==> input[i].Valid()
  {
    if input == [] then [] else LinesOf(input[..|input| - 1]) + ReceiptLines(input[|input| - 1])
  }

  /** A receive that ends the run: it failed, or an ERROR message came before any
      DONE in the datagram. */
  ghost predicate Ends(r: Receipt)
    requires r.Valid()
  {
    if r.Failed? then true
    else
      OffsetsAreSafe(r.mem, 0, r.len);
      StopType(r.mem, Offsets(r.mem, 0, r.len)) == NLMSG_ERROR
  }

  /** The outer loop reads up to the first receipt that ends the run, no further. */
  method ReadMessages(input: seq<Receipt>) returns (n: nat, out: seq<Line>)
    requires forall i :: 0 <= i < |input| ==> input[i].Valid()
    ensures n <= |input|
    ensures forall i :: 0 <= i < n - 1 ==> !Ends(input[i])
    ensures n < |input| ==> 0 < n && Ends(input[n - 1])
    ensures out == LinesOf(input[..n])
  {
    hide ReceiptLines;
    n, out := 0, [];
    while n < |input|
      invariant n <= |input|
      invariant forall i :: 0 <= i < n ==> !Ends(input[i])
      invariant out == LinesOf(input[..n])
    {
      var code, lines := ReadMessage(input[n]);
      assert input[..n + 1][..n] == input[..n];
      out := out + lines;
      n := n + 1;
      if code != 0 {
        return;
      }
    }
  }
}
