/** netlink/get-links.c: print the interface names of a link dump. The loops over
    messages and attributes are methods; the functions beside them say what they
    compute, and the lemmas what a dump makes them print. */
module GetLinks {
  import opened Bytes
  import opened Attributes
  import opened Messages

  const IFINFOMSG := 16

  /** The reader's budget: `nlmsg_len` less the fixed body, with the 16-byte
      message header left in. */
  function LinkVisits(mem: seq<byte>, nh: nat): seq<Visit>
    requires Framed(mem, nh, |mem| - SLACK)
  {
    Walk(mem, nh + HEADER + IFINFOMSG, Get32(mem, nh) - IFINFOMSG)
  }

  /** What parse_rta prints for an attribute: `%s` on the data of an IFLA_IFNAME. */
  function NameAt(mem: seq<byte>, v: Visit): seq<seq<byte>> {
    if v.attr.ty == IFLA_IFNAME then [CString(mem, v.off + 4)] else []
  }

  function NamesAt(mem: seq<byte>, vs: seq<Visit>): seq<seq<byte>> {
    if vs == [] then [] else NameAt(mem, vs[0]) + NamesAt(mem, vs[1..])
  }

  function MessageNames(mem: seq<byte>, nh: nat): seq<seq<byte>>
    requires Framed(mem, nh, |mem| - SLACK)
  {
    if TypeAt(mem, nh) == RTM_NEWLINK then NamesAt(mem, LinkVisits(mem, nh)) else []
  }

  /** The names of several messages, in order. */
  function AllNames(mem: seq<byte>, offs: seq<nat>): seq<seq<byte>>
    requires AllFramed(mem, offs, |mem| - SLACK)
  {
    if offs == [] then [] else MessageNames(mem, offs[0]) + AllNames(mem, offs[1..])
  }

  /** One round of the attribute loop. */
  lemma NamesStep(mem: seq<byte>, rta: nat, len: int)
    requires rta + len <= |mem|
    ensures NamesAt(mem, Walk(mem, rta, len)) ==
            if !RtaOk(mem, rta, len) then []
            else
              var step := Align4(Get16(mem, rta));
              NameAt(mem, Visit(rta, AttrAt(mem, rta)))
              + NamesAt(mem, Walk(mem, rta + step, len - step))
  {
    hide Align4, Get16, NameAt;
    if RtaOk(mem, rta, len) {
      var step := Align4(Get16(mem, rta));
      assert Walk(mem, rta, len)[1..] == Walk(mem, rta + step, len - step);
    }
  }

  /** The return code of read_message: 1 at DONE, -1 at ERROR. */
  function CodeAt(mem: seq<byte>, offs: seq<nat>): int
    requires AllFramed(mem, offs, |mem|)
  {
    var t := StopType(mem, offs);
    if t == NLMSG_DONE then 1 else if t == NLMSG_ERROR then -1 else 0
  }

  /** The names printed for messages at `offs`: nothing from the first stop on. */
  function NamesBeforeStop(mem: seq<byte>, offs: seq<nat>): seq<seq<byte>>
    requires AllFramed(mem, offs, |mem| - SLACK) && AllFramed(mem, offs, |mem|)
  {
    AllNames(mem, Handled(mem, offs))
  }

  /** One round of the message loop. */
  lemma MessageStep(mem: seq<byte>, off: nat, len: int)
    requires off + len + SLACK <= |mem|
    ensures var offs := Offsets(mem, off, len);
            && AllFramed(mem, offs, |mem| - SLACK) && AllFramed(mem, offs, |mem|)
            && if !NlmsgOk(mem, off, len) then CodeAt(mem, offs) == 0 && NamesBeforeStop(mem, offs) == []
               else if Stops(mem, off) then
                 && CodeAt(mem, offs) == (if TypeAt(mem, off) == NLMSG_DONE then 1 else -1)
                 && NamesBeforeStop(mem, offs) == []
               else
                 var step := Align4(Get32(mem, off));
                 var rest := Offsets(mem, off + step, len - step);
                 && AllFramed(mem, rest, |mem| - SLACK) && AllFramed(mem, rest, |mem|)
                 && CodeAt(mem, offs) == CodeAt(mem, rest)
                 && NamesBeforeStop(mem, offs) == MessageNames(mem, off) + NamesBeforeStop(mem, rest)
  {
    hide Offsets, Handled, StopType, MessageNames, Align4, Get32;
    LoopStep(mem, off, len);
  }

  /** Return code of read_message; a failed receive gives -1. */
  function Code(r: Receipt): int
    requires r.Valid()
  {
    if r.Failed? then -1
    else
      OffsetsAreSafe(r.mem, 0, r.len);
      CodeAt(r.mem, Offsets(r.mem, 0, r.len))
  }

  /** Names printed for one receipt: those of the messages before the first stop. */
  function ReceiptNames(r: Receipt): seq<seq<byte>>
    requires r.Valid()
  {
    if r.Failed? then []
    else
      OffsetsAreSafe(r.mem, 0, r.len);
      NamesBeforeStop(r.mem, Offsets(r.mem, 0, r.len))
  }

  /** By the bytes on the wire: which types end a datagram, and with which code. */
  lemma FirstType(r: Receipt)
    requires r.Datagram? && r.Valid() && NlmsgOk(r.mem, 0, r.len)
    ensures r.mem[4..6] == [3, 0] ==> Code(r) == 1 && ReceiptNames(r) == []
    ensures r.mem[4..6] == [2, 0] ==> Code(r) == -1 && ReceiptNames(r) == []
    ensures r.mem[4..6] == [16, 0] ==> NamesAt(r.mem, LinkVisits(r.mem, 0)) <= ReceiptNames(r)
    ensures r.mem[4] as int + 256 * r.mem[5] as int !in {2, 3, 16} ==>
              var step := Align4(Get32(r.mem, 0));
              ReceiptNames(r) == NamesFrom(r.mem, step, r.len - step)
  {
    hide Offsets, NamesBeforeStop, CodeAt, AllFramed, LinkVisits, NamesAt, Align4, Get32;
    MessageStep(r.mem, 0, r.len);
    assert r.mem[4..6][0] == r.mem[4] && r.mem[4..6][1] == r.mem[5];
  }

  function NamesFrom(mem: seq<byte>, off: nat, len: int): seq<seq<byte>>
    requires off + len + SLACK <= |mem|
  {
    OffsetsAreSafe(mem, off, len);
    NamesBeforeStop(mem, Offsets(mem, off, len))
  }

  // The loops of the program.

  method ParseLinkMessage(mem: seq<byte>, nh: nat) returns (out: seq<seq<byte>>)
    requires Framed(mem, nh, |mem| - SLACK)
    ensures out == NamesAt(mem, LinkVisits(mem, nh))
  {
    hide Walk, NamesAt, Align4, CString, Get16, Get32;
    out := [];
    var len: int := Get32(mem, nh) - IFINFOMSG;
    var rta: nat := nh + HEADER + IFINFOMSG;
    while RtaOk(mem, rta, len)
      invariant rta + len <= |mem|
      invariant out + NamesAt(mem, Walk(mem, rta, len)) == NamesAt(mem, LinkVisits(mem, nh))
      decreases len
    {
      NamesStep(mem, rta, len);
      if AttrAt(mem, rta).ty == IFLA_IFNAME {
        out := out + [CString(mem, rta + 4)];
      }
      var step := Align4(Get16(mem, rta));
      len := len - step;
      rta := rta + step;
    }
    NamesStep(mem, rta, len);
  }

  method ParseMessage(mem: seq<byte>, nh: nat) returns (out: seq<seq<byte>>)
    requires Framed(mem, nh, |mem| - SLACK)
    ensures out == MessageNames(mem, nh)
  {
    out := [];
    if TypeAt(mem, nh) == RTM_NEWLINK {
      out := ParseLinkMessage(mem, nh);
    }
  }

  /** The loop of read_message over the `n` bytes received. */
  method ReadDatagram(mem: seq<byte>, n: nat) returns (code: int, out: seq<seq<byte>>)
    requires n + SLACK <= |mem|
    requires AllFramed(mem, Offsets(mem, 0, n), |mem| - SLACK) && AllFramed(mem, Offsets(mem, 0, n), |mem|)
    ensures code == CodeAt(mem, Offsets(mem, 0, n))
    ensures out == NamesBeforeStop(mem, Offsets(mem, 0, n))
  {
    hide Offsets, Align4, CodeAt, NamesBeforeStop, AllFramed, MessageNames;
    out := [];
    var nh: nat, len: int := 0, n;
    while NlmsgOk(mem, nh, len)
      invariant nh + len == n
      invariant AllFramed(mem, Offsets(mem, nh, len), |mem| - SLACK)
      invariant AllFramed(mem, Offsets(mem, nh, len), |mem|)
      invariant out + NamesBeforeStop(mem, Offsets(mem, nh, len)) == NamesBeforeStop(mem, Offsets(mem, 0, n))
      invariant CodeAt(mem, Offsets(mem, nh, len)) == CodeAt(mem, Offsets(mem, 0, n))
      decreases len
    {
      MessageStep(mem, nh, len);
      if TypeAt(mem, nh) == NLMSG_DONE {
        return 1, out;
      }
      if TypeAt(mem, nh) == NLMSG_ERROR {
        return -1, out;
      }
      var names := ParseMessage(mem, nh);
      out := out + names;
      var step := Align4(Get32(mem, nh));
      len := len - step;
      nh := nh + step;
    }
    MessageStep(mem, nh, len);
    return 0, out;
  }

  method ReadMessage(r: Receipt) returns (code: int, out: seq<seq<byte>>)
    requires r.Valid()
    ensures code == Code(r) && out == ReceiptNames(r)
  {
    if r.Failed? {
      return -1, [];
    }
    OffsetsAreSafe(r.mem, 0, r.len);
    code, out := ReadDatagram(r.mem, r.len);
  }

  predicate AllValid(input: seq<Receipt>) {
    forall i :: 0 <= i < |input| ==> input[i].Valid()
  }

  /** Everything printed while receiving `input`. */
  function DumpNames(input: seq<Receipt>): (out: seq<seq<byte>>)
    requires AllValid(input)
  {
    if input == [] then []
    else ReceiptNames(input[0]) + (if Code(input[0]) == 0 then DumpNames(input[1..]) else [])
  }

  lemma DumpStep(input: seq<Receipt>, n: nat)
    requires n <= |input| && AllValid(input)
    ensures DumpNames(input[n..]) ==
            if n == |input| then []
            else ReceiptNames(input[n]) + (if Code(input[n]) == 0 then DumpNames(input[n + 1..]) else [])
  {
    hide ReceiptNames, Code;
    if n < |input| {
      assert input[n..][1..] == input[n + 1..];
    }
  }

  /** The outer loop: `n` receives happen, all but the last of them return 0, and
      the loop ends early only on a receive that does not. */
  method ReadMessages(input: seq<Receipt>) returns (n: nat, out: seq<seq<byte>>)
    requires AllValid(input)
    ensures n <= |input|
    ensures forall i :: 0 <= i < n - 1 ==> Code(input[i]) == 0
    ensures n < |input| ==> 0 < n && Code(input[n - 1]) != 0
    ensures out == DumpNames(input)
  {
    hide Code, ReceiptNames, DumpNames, Receipt.Valid;
    n, out := 0, [];
    assert input[n..] == input;
    while n < |input|
      invariant n <= |input|
      invariant forall i :: 0 <= i < n ==> Code(input[i]) == 0
      invariant out + DumpNames(input[n..]) == DumpNames(input)
    {
      DumpStep(input, n);
      var code, names := ReadMessage(input[n]);
      out := out + names;
      n := n + 1;
      if code != 0 {
        return;
      }
    }
    DumpStep(input, n);
  }
}
