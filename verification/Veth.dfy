/** netlink/add-veth-ifname2.c: a link request with attributes nested four deep,
    written from the outside in and patched from the inside out. */
module Veth {
  import opened Bytes
  import opened Attributes
  import opened Messages
  import opened Builder

  const IFLA_LINKINFO := 18
  const IFLA_INFO_KIND := 1
  const IFLA_INFO_DATA := 2
  const VETH_INFO_PEER := 1
  const NLA_F_NESTED := 0x8000
  const ARPHRD_ETHER := 1
  const IF_MAXLEN := 15
  const KIND_MAXLEN := 5
  const REQUEST := 1056

  function VethHead(): (h: Head)
    ensures |h.fixed| == 16
  {
    Head(RTM_NEWLINK, NLM_F_REQUEST + NLM_F_CREATE, 1, 0, EtherInfo())
  }

  function EtherInfo(): (s: seq<byte>)
    ensures |s| == 16
  {
    IfInfo(ARPHRD_ETHER, 0, 0xFFFF_FFFF)
  }

  function NameAttr(name: seq<byte>): Attr { Attr(IFLA_IFNAME, Truncated(name, IF_MAXLEN)) }

  function KindAttr(kind: seq<byte>): Attr { Attr(IFLA_INFO_KIND, Truncated(kind, KIND_MAXLEN)) }

  /** The peer: an interface header with the peer's name behind it. */
  function PeerAttr(peer: seq<byte>): Attr { Attr(VETH_INFO_PEER, EtherInfo() + Encode([NameAttr(peer)])) }

  function DataAttr(peer: seq<byte>): Attr { Attr(IFLA_INFO_DATA + NLA_F_NESTED, Encode([PeerAttr(peer)])) }

  /** What the program puts in IFLA_LINKINFO: kind and data without padding between. */
  function InfoAttr(kind: seq<byte>, peer: seq<byte>): Attr {
    Attr(IFLA_LINKINFO + NLA_F_NESTED, Raw(KindAttr(kind)) + Raw(DataAttr(peer)))
  }

  function VethMessage(name: seq<byte>, kind: seq<byte>, peer: seq<byte>): Message {
    VethHead().With([NameAttr(name), InfoAttr(kind, peer)])
  }

  lemma PeerBytes(peer: seq<byte>)
    ensures Encode([NameAttr(peer)]) == Raw(NameAttr(peer))
    ensures PeerAttr(peer).payload == EtherInfo() + Raw(NameAttr(peer))
    ensures DataAttr(peer).payload == Raw(PeerAttr(peer))
    ensures DataAttr(peer).Len() == 8 + 16 + NameAttr(peer).Len()
  {
    EncodeTwo(PeerAttr(peer), PeerAttr(peer));
    EncodeTwo(NameAttr(peer), NameAttr(peer));
  }

  /** Two headers with length 0, the interface header and the name, then the two
      lengths from the inside out. The place `off` need not be aligned. */
  method AddLinkInfoData(buf: array<byte>, ghost p: seq<byte>, off: nat, peer: seq<byte>) returns (len: nat)
    requires Holds(buf[..], p) && |p| == off && off + DataAttr(peer).Len() <= buf.Length
    modifies buf
    ensures len == DataAttr(peer).Len()
    ensures Holds(buf[..], p + Raw(DataAttr(peer)))
  {
    PeerBytes(peer);
    var name := Truncated(peer, IF_MAXLEN);
    PaddedIs(IFLA_IFNAME, name);
    hide EtherInfo, Encode, Raw, Truncated, Padded, Hdr;
    OpenNest(buf, p, off, IFLA_INFO_DATA + NLA_F_NESTED);
    ghost var q := p + Hdr(0, IFLA_INFO_DATA + NLA_F_NESTED);
    OpenNest(buf, q, off + 4, VETH_INFO_PEER);
    ghost var r := q + Hdr(0, VETH_INFO_PEER);
    Put(buf, r, off + 8, EtherInfo());
    WriteRta(buf, r + EtherInfo(), off + 24, IFLA_IFNAME, name, |name|);
    assert r + EtherInfo() + Raw(NameAttr(peer)) == r + PeerAttr(peer).payload;

    var peerLen := 4 + (16 + (4 + |name|));
    CloseNest(buf, q, off + 4, VETH_INFO_PEER, peerLen, PeerAttr(peer).payload);
    len := 4 + peerLen;
    CloseNest(buf, p, off, IFLA_INFO_DATA + NLA_F_NESTED, len, DataAttr(peer).payload);
  }

  /** IFLA_LINKINFO: the kind, then the data at the kind's unaligned end. */
  method AddLinkInfo(buf: array<byte>, ghost p: seq<byte>, off: nat, kind: seq<byte>, peer: seq<byte>)
    returns (len: nat)
    requires Holds(buf[..], p) && |p| == off && off + InfoAttr(kind, peer).Len() <= buf.Length
    modifies buf
    ensures len == InfoAttr(kind, peer).Len()
    ensures Holds(buf[..], p + Raw(InfoAttr(kind, peer)))
  {
    var k := Truncated(kind, KIND_MAXLEN);
    PaddedIs(IFLA_INFO_KIND, k);
    hide Raw, Truncated, DataAttr, Padded, Hdr;
    OpenNest(buf, p, off, IFLA_LINKINFO + NLA_F_NESTED);
    ghost var q := p + Hdr(0, IFLA_LINKINFO + NLA_F_NESTED);
    WriteRta(buf, q, off + 4, IFLA_INFO_KIND, k, |k|);
    var kindLen := 4 + |k|;
    var dataLen := AddLinkInfoData(buf, q + Raw(KindAttr(kind)), off + 4 + kindLen, peer);
    len := 4 + (kindLen + dataLen);
    assert q + Raw(KindAttr(kind)) + Raw(DataAttr(peer)) == q + InfoAttr(kind, peer).payload;
    CloseNest(buf, p, off, IFLA_LINKINFO + NLA_F_NESTED, len, InfoAttr(kind, peer).payload);
  }

  lemma VethSizes(name: seq<byte>, kind: seq<byte>, peer: seq<byte>)
    ensures DataAttr(peer).Len() <= 43 && InfoAttr(kind, peer).Len() <= 56
    ensures VethHead().With([]).Len() == 32 && VethHead().With([NameAttr(name)]).Len() <= 51
    ensures VethMessage(name, kind, peer).Len() <= 108
    ensures [] + [NameAttr(name)] == [NameAttr(name)]
    ensures [NameAttr(name)] + [InfoAttr(kind, peer)] == [NameAttr(name), InfoAttr(kind, peer)]
  {
    PeerBytes(peer);
    EncodeTwo(NameAttr(name), InfoAttr(kind, peer));
    assert Encode([]) == [];
    hide Raw, EtherInfo, Truncated, Encode;
  }

  /** The request as its receiver reads it: a link of Ethernet type (1), no index, every
      change bit, named `name`; RTM_NEWLINK is 16, IFLA_IFNAME 3, IFLA_LINKINFO 18 and
      NLA_F_NESTED 0x8000. */
  predicate IsVethRequest(s: seq<byte>, name: seq<byte>, kind: seq<byte>, peer: seq<byte>) {
    && IsRequest(s, 16, 0x401) && IsIfInfo(s, 16, 1, 0, 0xFFFF_FFFF)
    && 32 <= |s|
    && var top := Decode(s[32..]);
    && |top| == 2 && top[0] == Attr(3, name[..Min(|name|, 15)]) && top[1].ty == 18 + 0x8000
    && var info := Decode(top[1].payload);
    && info != [] && info[0] == Attr(1, kind[..Min(|kind|, 5)])
    && (Min(|kind|, 5) % 4 == 0 ==> |info| == 2 && IsVethData(info[1], peer))
  }

  /** The data (2) with the peer (1) in it: its interface header and its name. */
  predicate IsVethData(a: Attr, peer: seq<byte>) {
    && a.ty == 2 + 0x8000
    && var data := Decode(a.payload);
    && |data| == 1 && data[0].ty == 1 && IsIfInfo(data[0].payload, 0, 1, 0, 0xFFFF_FFFF)
    && Decode(data[0].payload[16..]) == [Attr(3, peer[..Min(|peer|, 15)])]
  }

  /** The whole request. The program's arguments are vethA, veth and vethB. */
  method SendRequest(name: seq<byte>, kind: seq<byte>, peer: seq<byte>) returns (sent: seq<byte>)
    ensures sent == RawMessage(VethMessage(name, kind, peer))
    ensures IsVethRequest(sent, name, kind, peer)
  {
    var buf := new byte[REQUEST](i => 0);
    assert buf[..] == [] + Zeros(REQUEST);
    var h, t := VethHead(), Truncated(name, IF_MAXLEN);
    PaddedIs(IFLA_IFNAME, t);
    VethSizes(name, kind, peer);
    hide Encode, Raw, RawMessage, Padded, EtherInfo, Get32, Truncated, InfoAttr, NameAttr, VethHead;
    StartMessage(buf, h);
    AppendAttr(buf, h, [], IFLA_IFNAME, t, |t|);

    ghost var m := h.With([NameAttr(name)]);
    MessageLength(buf[..], m);
    var off := Align4(Get32(buf[..], 0));
    HoldsSkip(buf[..], RawMessage(m), off - m.Len());
    var infoLen := AddLinkInfo(buf, Pad4(RawMessage(m)), off, kind, peer);
    KeepsLength(buf[..], m, Raw(InfoAttr(kind, peer)));
    UpdateLength(buf, h, [NameAttr(name)], InfoAttr(kind, peer), infoLen);
    MessageLength(buf[..], VethMessage(name, kind, peer));
    sent := buf[..Get32(buf[..], 0)];
    VethReads(name, kind, peer);
  }

  // Reading the request back.

  /** Level by level below IFLA_LINKINFO: data decodes to the peer, the peer's bytes
      behind its interface header to the truncated name. */
  lemma PeerDecodes(peer: seq<byte>)
    ensures Decode(DataAttr(peer).payload) == [PeerAttr(peer)]
    ensures IsIfInfo(PeerAttr(peer).payload, 0, 1, 0, 0xFFFF_FFFF)
    ensures Decode(PeerAttr(peer).payload[16..]) == [Attr(3, peer[..Min(|peer|, 15)])]
  {
    hide Encode, IfInfo, IsIfInfo;
    PeerBytes(peer);
    DecodeEncode([PeerAttr(peer)]);
    DecodeEncode([NameAttr(peer)]);
    assert PeerAttr(peer).payload[16..] == Encode([NameAttr(peer)]);
    assert At(PeerAttr(peer).payload, 0, EtherInfo());
    IfInfoFields(PeerAttr(peer).payload, 0, ARPHRD_ETHER, 0, 0xFFFF_FFFF);
  }

  lemma TooLongToMeet(mem: seq<byte>, off: nat, len: nat, d: Attr)
    requires off + len <= |mem| && len < d.Len()
    ensures Walk(mem, off, len) != [] ==> Walk(mem, off, len)[0].attr != d
  {
    hide Walk;
    WalkIsSafe(mem, off, len);
    var vs := Walk(mem, off, len);
    if vs != [] {
      assert vs[0] in vs;
    }
  }

  /** An attribute behind an unpadded one is not found where the walk looks. */
  lemma UnpaddedIsMisread(k: Attr, d: Attr)
    requires k.Fits() && |k.payload| % 4 != 0
    ensures Decode(Raw(k) + Raw(d)) != [k, d]
  {
    hide Raw, Walk;
    var payload, n := Raw(k) + Raw(d), Align4(k.Len());
    assert payload[0..k.Len()] == Raw(k);
    assert k.Len() < n < |payload|;
    WalkStep(payload, 0, |payload|, k);
    TooLongToMeet(payload, n, |payload| - n, d);
    var rest := Walk(payload, n, |payload| - n);
    assert rest != [] ==> ([Visit(0, k)] + rest)[1] == rest[0];
  }

  /** Decoding IFLA_LINKINFO gives back kind and data exactly when the kind's length
      is a multiple of four; "veth" is, any other length would be misread. */
  lemma InfoDecodesIff(kind: seq<byte>, peer: seq<byte>)
    ensures Decode(InfoAttr(kind, peer).payload) == [KindAttr(kind), DataAttr(peer)]
            <==> Min(|kind|, KIND_MAXLEN) % 4 == 0
  {
    var k, d := KindAttr(kind), DataAttr(peer);
    PeerBytes(peer);
    if |k.payload| % 4 == 0 {
      assert Pad4(Raw(k)) == Raw(k);
      EncodeTwo(k, d);
      hide Encode, Raw, Decode, DataAttr, KindAttr;
      DecodeEncode([k, d]);
    } else {
      UnpaddedIsMisread(k, d);
    }
  }

  /** Nested round trip: for every kind whose length is a multiple of four, decoding
      level by level gives back both names, the kind and both interface headers. */
  lemma VethReads(name: seq<byte>, kind: seq<byte>, peer: seq<byte>)
    ensures IsVethRequest(RawMessage(VethMessage(name, kind, peer)), name, kind, peer)
  {
    hide RawMessage, Encode, Decode, Get16, Get32, IfInfo, IsRequest, IsIfInfo, InfoAttr, IsVethData;
    VethSizes(name, kind, peer);
    var attrs := [NameAttr(name), InfoAttr(kind, peer)];
    RequestReads(VethHead(), attrs);
    IfInfoFields(RawMessage(VethMessage(name, kind, peer)), 16, ARPHRD_ETHER, 0, 0xFFFF_FFFF);
    InfoReads(kind, peer);
  }

  lemma InfoReads(kind: seq<byte>, peer: seq<byte>)
    ensures InfoAttr(kind, peer).ty == 18 + 0x8000
    ensures var info := Decode(InfoAttr(kind, peer).payload);
            && info != [] && info[0] == Attr(1, kind[..Min(|kind|, 5)])
            && (Min(|kind|, 5) % 4 == 0 ==> |info| == 2 && IsVethData(info[1], peer))
  {
    hide Encode, Raw, IfInfo, IsIfInfo, Walk, DataAttr, PeerAttr;
    KindComesFirst(kind, peer);
    InfoDecodesIff(kind, peer);
    PeerDecodes(peer);
    assert DataAttr(peer).ty == 2 + 0x8000 && PeerAttr(peer).ty == 1 by { DataTypes(peer); }
  }

  lemma DataTypes(peer: seq<byte>)
    ensures DataAttr(peer).ty == 2 + 0x8000 && PeerAttr(peer).ty == 1
  {
    hide Encode, IfInfo;
  }

  lemma KindComesFirst(kind: seq<byte>, peer: seq<byte>)
    ensures var info := Decode(InfoAttr(kind, peer).payload);
            info != [] && info[0] == KindAttr(kind)
  {
    hide Encode, Raw, Walk, DataAttr;
    var k, payload := KindAttr(kind), InfoAttr(kind, peer).payload;
    assert payload[0..k.Len()] == Raw(k);
    WalkStep(payload, 0, |payload|, k);
  }
}
