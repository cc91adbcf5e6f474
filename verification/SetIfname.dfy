/** netlink/set-ifname.c: the rename request, and what get-links makes of it. */
module SetIfname {
  import opened Bytes
  import opened Attributes
  import opened Messages
  import opened Builder
  import GetLinks

  const NAME_MAX := 15
  const REQUEST := 544

  function RenameHead(index: u32): (h: Head)
    ensures |h.fixed| == 16
  {
    Head(RTM_NEWLINK, NLM_F_REQUEST, 1, 0, IfInfo(0, index, 0xFFFF_FFFF))
  }

  function RenameMessage(index: u32, name: seq<byte>): Message {
    RenameHead(index).With([Attr(IFLA_IFNAME, Truncated(name, NAME_MAX))])
  }

  /** The whole request buffer and the length passed to sendmsg. */
  method SendRequest(index: u32, newName: seq<byte>) returns (req: seq<byte>, len: nat)
    ensures |req| == 544 && len == RenameMessage(index, newName).Len()
    ensures Holds(req, RawMessage(RenameMessage(index, newName)))
    ensures len <= |req| && IsRename(req[..len], index, newName)
  {
    var buf := new byte[REQUEST](i => 0);
    assert buf[..] == [] + Zeros(REQUEST);
    var h, t := RenameHead(index), Truncated(newName, NAME_MAX);
    ghost var a := Attr(IFLA_IFNAME, t);
    assert Encode([]) == [] && Encode([a]) == Raw(a) && [] + [a] == [a];
    PaddedIs(IFLA_IFNAME, t);
    hide Encode, Raw, RawMessage, Padded, IfInfo, Get32;
    StartMessage(buf, h);
    AppendAttr(buf, h, [], IFLA_IFNAME, t, |t|);
    MessageLength(buf[..], RenameMessage(index, newName));
    req := buf[..];
    len := Get32(req, 0);
    RenameReads(index, newName);
  }

  /** A request to rename interface `index`: RTM_NEWLINK is 16, NLM_F_REQUEST 1 and
      IFLA_IFNAME 3; at most 15 characters of the name are sent, without a NUL. */
  predicate IsRename(s: seq<byte>, index: u32, name: seq<byte>) {
    && IsRequest(s, 16, 1) && IsIfInfo(s, 16, 0, index, 0xFFFF_FFFF)
    && 32 <= |s| && Decode(s[32..]) == [Attr(3, name[..Min(|name|, 15)])]
  }

  /** The bytes sent, read back. */
  lemma RenameReads(index: u32, name: seq<byte>)
    ensures IsRename(RawMessage(RenameMessage(index, name)), index, name)
  {
    hide RawMessage, Encode, Decode, Get16, Get32, IfInfo, IsRequest, IsIfInfo;
    var a := Attr(IFLA_IFNAME, Truncated(name, NAME_MAX));
    assert RenameMessage(index, name).Fits() by { OneAttrFits(index, a); }
    RequestReads(RenameHead(index), [a]);
    IfInfoFields(RawMessage(RenameMessage(index, name)), 16, 0, index, 0xFFFF_FFFF);
  }

  lemma OneAttrFits(index: u32, a: Attr)
    requires a.Len() < 100
    ensures RenameHead(index).With([a]).Fits()
  {
    EncodeTwo(a, a);
  }

  /** Parsed by get-links, the request gives exactly one line, the truncated name,
      although the name has no NUL: the zeros behind it end the string and the walk. */
  lemma RenameIsPrinted(req: seq<byte>, index: u32, name: seq<byte>)
    requires |req| == REQUEST && 0 !in name
    requires Holds(req, RawMessage(RenameMessage(index, name)))
    ensures var r := Datagram(req + Zeros(BUFFER + SLACK - REQUEST), RenameMessage(index, name).Len());
            r.Valid() && GetLinks.ReceiptNames(r) == [name[..Min(|name|, 15)]] && GetLinks.Code(r) == 0
  {
    var msg := RenameMessage(index, name);
    var mem := req + Zeros(BUFFER + SLACK - REQUEST);
    var t := Truncated(name, NAME_MAX);
    assert Encode([Attr(IFLA_IFNAME, t)]) == Raw(Attr(IFLA_IFNAME, t));
    assert At(mem, 0, RawMessage(msg));
    assert forall i :: msg.Len() <= i < |mem| ==> mem[i] == 0;
    RequestNames(mem, msg, t);
  }

  /** One link message whose only attribute is a name, in memory that is zero behind it. */
  lemma OneName(mem: seq<byte>, msg: Message, t: seq<byte>)
    requires msg.ty == RTM_NEWLINK && |msg.body| == 20 + |t| && |t| <= NAME_MAX && 0 !in t
    requires msg.body[16..] == Raw(Attr(IFLA_IFNAME, t))
    requires BUFFER + SLACK <= |mem| && At(mem, 0, RawMessage(msg))
    requires forall i :: msg.Len() <= i < |mem| ==> mem[i] == 0
    ensures Get32(mem, 0) == msg.Len() && TypeAt(mem, 0) == RTM_NEWLINK
    ensures GetLinks.MessageNames(mem, 0) == [t]
  {
    hide RawMessage, Raw, Get32, CString, Walk, TypeAt, At, GetLinks.NamesAt, Align4;
    var a, n := Attr(IFLA_IFNAME, t), Align4(4 + |t|);
    RawMessageAt(mem, 0, msg);
    NameBehindHeader(mem, msg.body, t);
    WalkStep(mem, 32, msg.Len() - 16, a);
    assert mem[32 + n] == 0 && mem[33 + n] == 0;
    StopsAtZeros(mem, 32 + n, msg.Len() - 16 - n);
    NamePrinted(mem, t);
  }

  lemma NamePrinted(mem: seq<byte>, t: seq<byte>)
    requires CString(mem, 36) == t
    ensures GetLinks.NamesAt(mem, [Visit(32, Attr(IFLA_IFNAME, t))] + []) == [t]
  {
    hide CString;
    assert [Visit(32, Attr(IFLA_IFNAME, t))][1..] == [];
  }

  /** The name attribute and the string in it; what comes next is zero. */
  lemma NameBehindHeader(mem: seq<byte>, body: seq<byte>, t: seq<byte>)
    requires |body| == 20 + |t| && 0 !in t && body[16..] == Raw(Attr(IFLA_IFNAME, t)) && At(mem, 16, body)
    requires 44 + |t| <= |mem| && forall i :: 36 + |t| <= i < |mem| ==> mem[i] == 0
    ensures At(mem, 32, Raw(Attr(IFLA_IFNAME, t))) && CString(mem, 36) == t
  {
    hide CString;
    var a := Attr(IFLA_IFNAME, t);
    assert body == body[..16] + body[16..];
    AtParts(mem, 16, body[..16], body[16..], 32);
    AtParts(mem, 32, LE16(a.Len()) + LE16(a.ty), t, 36);
    CStringIs(mem, 36, t);
  }

  /** Such a message received alone. */
  lemma RequestNames(mem: seq<byte>, msg: Message, t: seq<byte>)
    requires msg.ty == RTM_NEWLINK && |msg.body| == 20 + |t| && |t| <= NAME_MAX && 0 !in t
    requires msg.body[16..] == Raw(Attr(IFLA_IFNAME, t))
    requires BUFFER + SLACK <= |mem| && At(mem, 0, RawMessage(msg))
    requires forall i :: msg.Len() <= i < |mem| ==> mem[i] == 0
    ensures var r := Datagram(mem, msg.Len());
            r.Valid() && GetLinks.ReceiptNames(r) == [t] && GetLinks.Code(r) == 0
  {
    OneName(mem, msg, t);
    hide Raw, RawMessage, Get32, Offsets, GetLinks.MessageNames, GetLinks.NamesBeforeStop, GetLinks.CodeAt;
    var len := msg.Len();
    GetLinks.MessageStep(mem, 0, len);
    GetLinks.MessageStep(mem, Align4(len), len - Align4(len));
  }
}
