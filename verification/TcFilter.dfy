/** The two programs that send a tc filter request: netlink/add-tcfilter.c appends
    attributes and patches lengths, bpf/tc-attach.c computes every offset and length
    before it writes. Both are proved against one encoding. */
module TcFilter {
  import opened Bytes
  import opened Attributes
  import opened Messages
  import opened Builder

  const RTM_NEWQDISC := 36
  const RTM_NEWTFILTER := 44
  const TCA_KIND := 1
  const TCA_OPTIONS := 2
  const TCA_BPF_FD := 6
  const TCA_BPF_NAME := 7
  const TCA_BPF_FLAGS := 8
  const TCA_BPF_FLAG_ACT_DIRECT := 1
  const CLSACT := 0xFFFF_FFF1
  const CLSACT_MAJOR := 0xFFFF_0000
  const CLSACT_INGRESS := 0xFFFF_FFF2
  const ETH_P_ALL_BE := 0x300

  /** Sizes of the two request buffers. */
  const INCREMENTAL_BUFFER := 548
  const PRECOMPUTED_BUFFER := 512

  /** The bytes of a C `int`. */
  function IntBytes(v: int): (s: seq<byte>)
    ensures |s| == 4
  {
    LE32(v % 0x1_0000_0000)
  }

  function FilterHead(ifindex: u32): (h: Head)
    ensures |h.fixed| == 20
  {
    Head(RTM_NEWTFILTER, NLM_F_REQUEST + NLM_F_CREATE, 1, 0, TcMsg(ifindex, 0, CLSACT_INGRESS, ETH_P_ALL_BE))
  }

  function FdAttr(fd: int): Attr { Attr(TCA_BPF_FD, IntBytes(fd)) }

  function FlagsAttr(): Attr { Attr(TCA_BPF_FLAGS, LE32(TCA_BPF_FLAG_ACT_DIRECT)) }

  function OptionList(fd: int, name: seq<byte>): seq<Attr> {
    [FdAttr(fd), Attr(TCA_BPF_NAME, name), FlagsAttr()]
  }

  function FilterAttrs(kind: seq<byte>, fd: int, name: seq<byte>): seq<Attr> {
    [Attr(TCA_KIND, kind), OptionsAttr(fd, name)]
  }

  /** The filter request with these payloads for the kind and the name attribute. */
  function FilterMessage(ifindex: u32, kind: seq<byte>, fd: int, name: seq<byte>): Message {
    FilterHead(ifindex).With(FilterAttrs(kind, fd, name))
  }

  /** Length of that request: what both programs' buffers have to hold. */
  function FilterLength(kind: nat, name: nat): nat {
    36 + Align4(4 + kind) + 4 + 8 + Align4(4 + name) + 8
  }

  lemma OptionBytes(fd: int, name: seq<byte>)
    ensures Encode(OptionList(fd, name)) == Raw(FdAttr(fd)) + Pad4(Raw(Attr(TCA_BPF_NAME, name))) + Raw(FlagsAttr())
    ensures Encode([FdAttr(fd), Attr(TCA_BPF_NAME, name)]) == Raw(FdAttr(fd)) + Raw(Attr(TCA_BPF_NAME, name))
    ensures |Encode(OptionList(fd, name))| == 8 + Align4(4 + |name|) + 8
  {
    hide Raw, Align4;
    EncodeTwo(FdAttr(fd), Attr(TCA_BPF_NAME, name));
    EncodeThree(FdAttr(fd), Attr(TCA_BPF_NAME, name), FlagsAttr());
    PadAligned(FdAttr(fd));
  }

  lemma PadAligned(a: Attr)
    requires |a.payload| == 4
    ensures Pad4(Raw(a)) == Raw(a)
  {
  }

  lemma FilterBytes(ifindex: u32, kind: seq<byte>, fd: int, name: seq<byte>)
    ensures Encode(FilterAttrs(kind, fd, name))
            == Pad4(Raw(Attr(TCA_KIND, kind))) + Raw(Attr(TCA_OPTIONS, Encode(OptionList(fd, name))))
    ensures FilterMessage(ifindex, kind, fd, name).Len() == FilterLength(|kind|, |name|)
  {
    hide Raw, Align4;
    EncodeTwo(Attr(TCA_KIND, kind), Attr(TCA_OPTIONS, Encode(OptionList(fd, name))));
    OptionBytes(fd, name);
  }

  /** What `memcpy(dst, s, strnlen(s, limit) + 1)` copies of a C string: all of it
      with its NUL if it is short enough, else the first `limit + 1` characters. */
  function Clip(s: seq<byte>, limit: nat): (c: seq<byte>)
    ensures |s| <= limit ==> c == s + [0]
    ensures limit < |s| ==> c == s[..limit + 1]
    ensures |c| == Min(|s|, limit) + 1
  {
    (s + [0])[..Min(|s|, limit) + 1]
  }

  /** `memcpy(dst, name, strnlen(name, limit + 1))` leaves the terminator to the
      zeroed buffer; the payload is the same as if it had been copied. */
  lemma ClippedName(name: seq<byte>, limit: nat)
    ensures var data := name[..Min(|name|, limit + 1)];
            Padded(TCA_BPF_NAME, data, Min(|name|, limit) + 1) == Attr(TCA_BPF_NAME, Clip(name, limit))
  {
    var data := name[..Min(|name|, limit + 1)];
    assert data + Zeros(Min(|name|, limit) + 1 - |data|) == Clip(name, limit);
  }

  lemma OptionSteps(fd: int, name: seq<byte>)
    ensures [FdAttr(fd)] == [] + [Padded(TCA_BPF_FD, IntBytes(fd), 4)]
    ensures [FdAttr(fd)] + [Attr(TCA_BPF_NAME, name)] == [FdAttr(fd), Attr(TCA_BPF_NAME, name)]
    ensures [FdAttr(fd), Attr(TCA_BPF_NAME, name)] + [Padded(TCA_BPF_FLAGS, LE32(TCA_BPF_FLAG_ACT_DIRECT), 4)]
            == OptionList(fd, name)
    ensures |Encode([])| == 0 && |Encode([FdAttr(fd)])| == 8
    ensures |Encode([FdAttr(fd), Attr(TCA_BPF_NAME, name)])| == 12 + |name|
    ensures |Encode(OptionList(fd, name))| == 8 + Align4(4 + |name|) + 8
  {
    PaddedIs(TCA_BPF_FD, IntBytes(fd));
    PaddedIs(TCA_BPF_FLAGS, LE32(TCA_BPF_FLAG_ACT_DIRECT));
    hide Raw, Align4, LE32, Padded;
    OptionBytes(fd, name);
  }

  /** The options attribute of netlink/add-tcfilter.c, filled in place: fd, name and
      flags go to its aligned end one after the other. */
  method AppendOptions(buf: array<byte>, ghost p: seq<byte>, off: nat, fd: int, name: seq<byte>, nameLimit: nat)
    requires |p| == off && Holds(buf[..], p + Raw(Attr(TCA_OPTIONS, [])))
    requires off + 4 + 8 + Align4(4 + Min(|name|, nameLimit) + 1) + 8 <= buf.Length < 65536
    modifies buf
    ensures Holds(buf[..], p + Raw(Attr(TCA_OPTIONS, Encode(OptionList(fd, Clip(name, nameLimit))))))
  {
    ghost var n := Clip(name, nameLimit);
    OptionSteps(fd, n);
    ClippedName(name, nameLimit);
    Align4Add(12, 4 + |n|, 16 + |n|);
    assert Encode([]) == [];
    hide Encode, Raw, Align4, LE32, IntBytes, Clip, Padded, FdAttr;
    AppendNested(buf, p, off, TCA_OPTIONS, [], TCA_BPF_FD, IntBytes(fd), 4);
    AppendNested(buf, p, off, TCA_OPTIONS, [FdAttr(fd)], TCA_BPF_NAME,
                 name[..Min(|name|, nameLimit + 1)], Min(|name|, nameLimit) + 1);
    AppendNested(buf, p, off, TCA_OPTIONS, [FdAttr(fd), Attr(TCA_BPF_NAME, n)], TCA_BPF_FLAGS,
                 LE32(TCA_BPF_FLAG_ACT_DIRECT), 4);
  }

  lemma RequestSteps(h: Head, kind: Attr, options: Attr)
    ensures h.With([]).Len() == HEADER + |h.fixed|
    ensures h.With([kind]).Len() == HEADER + |h.fixed| + kind.Len()
    ensures |h.fixed| % 4 == 0 ==>
              h.With([kind, options]).Len() == HEADER + |h.fixed| + Align4(kind.Len()) + options.Len()
    ensures [] + [kind] == [kind] && [kind] + [options] == [kind, options]
  {
    hide Raw, Align4;
    EncodeTwo(kind, options);
  }

  function OptionsAttr(fd: int, name: seq<byte>): Attr {
    Attr(TCA_OPTIONS, Encode(OptionList(fd, name)))
  }

  /** The second half of netlink/add-tcfilter.c: open the options attribute at the
      aligned end, fill it, and count it in the message. */
  method AddOptions(buf: array<byte>, ghost h: Head, ghost kind: Attr, fd: int, name: seq<byte>, nameLimit: nat)
    requires |h.fixed| % 4 == 0 && h.With([kind]).Fits()
    requires Align4(h.With([kind]).Len()) + 4 + 8 + Align4(4 + Min(|name|, nameLimit) + 1) + 8 <= buf.Length < 65536
    requires Holds(buf[..], RawMessage(h.With([kind])))
    modifies buf
    ensures Holds(buf[..], RawMessage(h.With([kind, OptionsAttr(fd, Clip(name, nameLimit))])))
  {
    ghost var o := OptionsAttr(fd, Clip(name, nameLimit));
    RequestSteps(h, kind, o);
    OptionBytes(fd, Clip(name, nameLimit));
    hide Encode, Raw, RawMessage, Align4, Clip, OptionList, Pad4;
    var off := OpenAttr(buf, h.With([kind]), TCA_OPTIONS);
    AppendOptions(buf, Pad4(RawMessage(h.With([kind]))), off, fd, name, nameLimit);
    CloseAttr(buf, h, [kind], o, off);
  }

  /** A request to add a filter on the ingress side of `ifindex`, as its receiver reads
      it: RTM_NEWTFILTER is 44 and its flags NLM_F_REQUEST and NLM_F_CREATE; the parent is
      clsact with minor number ingress, info is ETH_P_ALL in network byte order. Its
      options are TCA_BPF_FD, TCA_BPF_NAME and TCA_BPF_FLAGS with the direct action. */
  predicate IsFilterRequest(s: seq<byte>, ifindex: u32, kind: seq<byte>, fd: int, name: seq<byte>) {
    && IsRequest(s, 44, 0x401) && IsTcMsg(s, 16, ifindex, 0, 0xFFFF_FFF2, 0x300)
    && 36 <= |s|
    && var top := Decode(s[36..]);
    && |top| == 2 && top[0] == Attr(1, kind) && top[1].ty == 2
    && var options := Decode(top[1].payload);
    && |options| == 3
    && options[0].ty == 6 && |options[0].payload| == 4 && Get32(options[0].payload, 0) == fd % 0x1_0000_0000
    && options[1] == Attr(7, name)
    && options[2].ty == 8 && |options[2].payload| == 4 && Get32(options[2].payload, 0) == 1
  }

  lemma FourBytes(v: u32)
    ensures Get32(LE32(v), 0) == v
  {
    Get32OfLE32(LE32(v), 0, v);
  }

  /** The bytes sent, read back. */
  lemma FilterReads(ifindex: u32, kind: seq<byte>, fd: int, name: seq<byte>)
    requires |kind| < 1024 && |name| < 1024
    ensures IsFilterRequest(RawMessage(FilterMessage(ifindex, kind, fd, name)), ifindex, kind, fd, name)
  {
    hide RawMessage, Encode, Decode, Get16, Get32, LE32, TcMsg, IsRequest, IsTcMsg;
    var attrs := FilterAttrs(kind, fd, name);
    OptionBytes(fd, name);
    FilterBytes(ifindex, kind, fd, name);
    RequestReads(FilterHead(ifindex), attrs);
    TcMsgFields(RawMessage(FilterMessage(ifindex, kind, fd, name)), 16, ifindex, 0, CLSACT_INGRESS, ETH_P_ALL_BE);
    DecodeEncode(OptionList(fd, name));
    FourBytes(fd % 0x1_0000_0000);
    FourBytes(TCA_BPF_FLAG_ACT_DIRECT);
  }

  /** netlink/add-tcfilter.c: build the request attribute by attribute. The limits
      are 3 and 10 in the program. */
  method SendRequest(ifindex: u32, kind: seq<byte>, kindLimit: nat, fd: int, name: seq<byte>, nameLimit: nat)
    returns (sent: seq<byte>)
    requires FilterLength(Min(|kind|, kindLimit) + 1, Min(|name|, nameLimit) + 1) <= INCREMENTAL_BUFFER
    ensures sent == RawMessage(FilterMessage(ifindex, Clip(kind, kindLimit), fd, Clip(name, nameLimit)))
    ensures IsFilterRequest(sent, ifindex, Clip(kind, kindLimit), fd, Clip(name, nameLimit))
  {
    var req := new byte[INCREMENTAL_BUFFER](i => 0);
    assert req[..] == [] + Zeros(INCREMENTAL_BUFFER);
    var h := FilterHead(ifindex);
    var k := Clip(kind, kindLimit);
    ghost var n := Clip(name, nameLimit);
    RequestSteps(h, Attr(TCA_KIND, k), OptionsAttr(fd, n));
    FilterBytes(ifindex, k, fd, n);
    PaddedIs(TCA_KIND, k);
    Align4Add(36, 4 + |k|, 40 + |k|);
    hide Encode, Raw, RawMessage, Align4, TcMsg, IntBytes, LE32, Clip, Padded, OptionList, Get32;
    StartMessage(req, h);
    AppendAttr(req, h, [], TCA_KIND, k, |k|);
    AddOptions(req, h, Attr(TCA_KIND, k), fd, name, nameLimit);
    MessageLength(req[..], FilterMessage(ifindex, k, fd, n));
    sent := req[..Get32(req[..], 0)];
    FilterReads(ifindex, k, fd, n);
  }

  /** RTA_SPACE. */
  function RtaSpace(n: nat): nat { Align4(4 + n) }

  /** The bytes the precomputed layout puts down, in order, are the encoding. */
  lemma LayoutIsEncoding(ifindex: u32, kind: seq<byte>, fd: int, name: seq<byte>, len: nat, optionsLen: nat)
    requires len == FilterLength(|kind|, |name|)
    requires optionsLen == OptionsAttr(fd, name).Len()
    ensures var h := FilterHead(ifindex);
            LE32(len) + LE16(h.ty) + LE16(h.flags) + LE32(h.seqno) + LE32(h.pid) + h.fixed
            + Pad4(Raw(Attr(TCA_KIND, kind))) + LE16(optionsLen) + LE16(TCA_OPTIONS)
            + Raw(FdAttr(fd)) + Pad4(Raw(Attr(TCA_BPF_NAME, name))) + Raw(FlagsAttr())
            == RawMessage(FilterMessage(ifindex, kind, fd, name))
  {
    hide Encode, Raw, LE16, LE32, Align4, TcMsg, Pad4, FdAttr, FlagsAttr, OptionList, FilterLength;
    FilterBytes(ifindex, kind, fd, name);
    OptionBytes(fd, name);
    var h, options := FilterHead(ifindex), OptionsAttr(fd, name);
    RawParts(options);
    var header := LE32(len) + LE16(h.ty) + LE16(h.flags) + LE32(h.seqno) + LE32(h.pid);
    Regroup(header, h.fixed, Pad4(Raw(Attr(TCA_KIND, kind))), LE16(optionsLen), LE16(TCA_OPTIONS),
            Raw(FdAttr(fd)), Pad4(Raw(Attr(TCA_BPF_NAME, name))), Raw(FlagsAttr()));
  }

  lemma RawParts(a: Attr)
    ensures Raw(a) == LE16(a.Len()) + LE16(a.ty) + a.payload
  {
  }

  lemma Regroup(a: seq<byte>, b: seq<byte>, k: seq<byte>, l: seq<byte>, t: seq<byte>,
                f: seq<byte>, n: seq<byte>, g: seq<byte>)
    ensures a + b + k + l + t + f + n + g == a + (b + (k + (l + t + (f + n + g))))
  {
  }

  /** A string attribute with its NUL and its padding. */
  method FillString(buf: array<byte>, ghost p: seq<byte>, off: nat, ty: u16, s: seq<byte>)
    requires |p| == off && Holds(buf[..], p) && off + RtaSpace(|s| + 1) <= buf.Length
    modifies buf
    ensures Holds(buf[..], p + Pad4(Raw(Attr(ty, s + [0]))))
  {
    hide Encode, Raw, LE16, LE32, Align4, Padded;
    PaddedIs(ty, s + [0]);
    ghost var raw := Raw(Attr(ty, s + [0]));
    WriteRta(buf, p, off, ty, s + [0], |s| + 1);
    HoldsSkip(buf[..], p + raw, RtaSpace(|s| + 1) - |raw|);
    assert p + raw + Zeros(RtaSpace(|s| + 1) - |raw|) == p + Pad4(raw);
  }

  method FillName(buf: array<byte>, ghost p: seq<byte>, off: nat, name: seq<byte>)
    requires |p| == off && Holds(buf[..], p) && off + RtaSpace(|name| + 1) + 8 <= buf.Length
    modifies buf
    ensures Holds(buf[..], p + Pad4(Raw(Attr(TCA_BPF_NAME, name + [0]))) + Raw(FlagsAttr()))
  {
    hide Encode, Raw, LE16, LE32, Align4, Padded;
    PaddedIs(TCA_BPF_FLAGS, LE32(TCA_BPF_FLAG_ACT_DIRECT));
    FillString(buf, p, off, TCA_BPF_NAME, name);
    WriteRta(buf, p + Pad4(Raw(Attr(TCA_BPF_NAME, name + [0]))), off + RtaSpace(|name| + 1), TCA_BPF_FLAGS,
             LE32(TCA_BPF_FLAG_ACT_DIRECT), 4);
  }

  /** The options part of bpf/tc-attach.c, at offsets known beforehand. */
  method FillOptions(buf: array<byte>, ghost p: seq<byte>, off: nat, fd: int, name: seq<byte>)
    requires |p| == off && Holds(buf[..], p)
    requires off + RtaSpace(0) + RtaSpace(4) + RtaSpace(|name| + 1) + 8 <= buf.Length
    modifies buf
    ensures Holds(buf[..], p + LE16(OptionsAttr(fd, name + [0]).Len()) + LE16(TCA_OPTIONS)
                           + Raw(FdAttr(fd)) + Pad4(Raw(Attr(TCA_BPF_NAME, name + [0]))) + Raw(FlagsAttr()))
  {
    OptionBytes(fd, name + [0]);
    PaddedIs(TCA_BPF_FD, IntBytes(fd));
    var fdOff := off + RtaSpace(0);
    var nameOff := fdOff + RtaSpace(4);
    var optionsLen := RtaSpace(0) + RtaSpace(4) + RtaSpace(|name| + 1) + 8;
    assert optionsLen == OptionsAttr(fd, name + [0]).Len();
    hide Encode, Raw, LE16, LE32, Align4, Padded, IntBytes, OptionList, OptionsAttr;
    Put(buf, p, off, LE16(optionsLen));
    Put(buf, p + LE16(optionsLen), off + 2, LE16(TCA_OPTIONS));
    ghost var q := p + LE16(optionsLen) + LE16(TCA_OPTIONS);
    WriteRta(buf, q, fdOff, TCA_BPF_FD, IntBytes(fd), 4);
    FillName(buf, q + Raw(FdAttr(fd)), nameOff, name);
  }

  /** bpf/tc-attach.c: the same request, every offset and length computed first. */
  method SendRequestFilter(ifindex: u32, kind: seq<byte>, fd: int, name: seq<byte>) returns (sent: seq<byte>)
    requires FilterLength(|kind| + 1, |name| + 1) <= PRECOMPUTED_BUFFER
    ensures sent == RawMessage(FilterMessage(ifindex, kind + [0], fd, name + [0]))
    ensures IsFilterRequest(sent, ifindex, kind + [0], fd, name + [0])
  {
    var buf := new byte[PRECOMPUTED_BUFFER](i => 0);
    assert buf[..] == [] + Zeros(PRECOMPUTED_BUFFER);
    var h := FilterHead(ifindex);
    var attrOff := Align4(HEADER + 20);
    var optionsOff := attrOff + RtaSpace(|kind| + 1);
    var len := attrOff + RtaSpace(|kind| + 1) + RtaSpace(0) + RtaSpace(4) + RtaSpace(|name| + 1) + 8;
    hide Encode, Raw, LE16, LE32, Padded, TcMsg, RawMessage, OptionsAttr, Pad4, FilterMessage;
    LayoutIsEncoding(ifindex, kind + [0], fd, name + [0], len, OptionsAttr(fd, name + [0]).Len());
    FilterBytes(ifindex, kind + [0], fd, name + [0]);
    WriteHeader(buf, len, h);
    ghost var p := LE32(len) + LE16(h.ty) + LE16(h.flags) + LE32(h.seqno) + LE32(h.pid) + h.fixed;
    FillString(buf, p, attrOff, TCA_KIND, kind);
    FillOptions(buf, p + Pad4(Raw(Attr(TCA_KIND, kind + [0]))), optionsOff, fd, name);
    MessageLength(buf[..], FilterMessage(ifindex, kind + [0], fd, name + [0]));
    sent := buf[..Get32(buf[..], 0)];
    FilterReads(ifindex, kind + [0], fd, name + [0]);
  }

  /** The two programs send the same bytes exactly when the kind and the name are
      within the limits the incremental one passes to strnlen. */
  lemma SameRequestIff(ifindex: u32, kind: seq<byte>, kindLimit: nat, fd: int, name: seq<byte>, nameLimit: nat)
    requires FilterLength(|kind| + 1, |name| + 1) <= PRECOMPUTED_BUFFER
    ensures RawMessage(FilterMessage(ifindex, Clip(kind, kindLimit), fd, Clip(name, nameLimit)))
            == RawMessage(FilterMessage(ifindex, kind + [0], fd, name + [0]))
            <==> |kind| <= kindLimit && |name| <= nameLimit
  {
    var k, n := Clip(kind, kindLimit), Clip(name, nameLimit);
    hide RawMessage, FilterMessage, Clip, Decode, IsRequest, IsTcMsg, Get32;
    if |kind| <= kindLimit && |name| <= nameLimit {
      assert k == kind + [0] && n == name + [0];
    } else {
      FilterReads(ifindex, k, fd, n);
      FilterReads(ifindex, kind + [0], fd, name + [0]);
    }
  }

  function QdiscHead(ifindex: u32): (h: Head)
    ensures |h.fixed| == 20
  {
    Head(RTM_NEWQDISC, NLM_F_REQUEST + NLM_F_CREATE, 1, 0, TcMsg(ifindex, CLSACT_MAJOR, CLSACT, 0))
  }

  /** A request for a clsact qdisc on `ifindex`: RTM_NEWQDISC is 36, the handle is the
      major number of clsact. */
  predicate IsQdiscRequest(s: seq<byte>, ifindex: u32, kind: seq<byte>) {
    && IsRequest(s, 36, 0x401) && IsTcMsg(s, 16, ifindex, 0xFFFF_0000, 0xFFFF_FFF1, 0)
    && 36 <= |s| && Decode(s[36..]) == [Attr(1, kind)]
  }

  lemma QdiscReads(ifindex: u32, kind: seq<byte>)
    requires |kind| < 1024
    ensures IsQdiscRequest(RawMessage(QdiscHead(ifindex).With([Attr(TCA_KIND, kind)])), ifindex, kind)
  {
    hide RawMessage, Encode, Decode, Get16, Get32, LE32, TcMsg, IsRequest, IsTcMsg;
    var h, a := QdiscHead(ifindex), Attr(TCA_KIND, kind);
    OneAttribute(h, a);
    RequestReads(h, [a]);
    TcMsgFields(RawMessage(h.With([a])), 16, ifindex, CLSACT_MAJOR, CLSACT, 0);
  }

  /** The qdisc request of bpf/tc-attach.c; the program's kind is `clsact`. */
  method SendRequestQdisc(ifindex: u32, kind: seq<byte>) returns (sent: seq<byte>)
    requires Align4(HEADER + 20) + 4 + |kind| + 1 <= PRECOMPUTED_BUFFER
    ensures sent == RawMessage(QdiscHead(ifindex).With([Attr(TCA_KIND, kind + [0])]))
    ensures IsQdiscRequest(sent, ifindex, kind + [0])
  {
    var buf := new byte[PRECOMPUTED_BUFFER](i => 0);
    assert buf[..] == [] + Zeros(PRECOMPUTED_BUFFER);
    var h := QdiscHead(ifindex);
    var attrOff := Align4(HEADER + 20);
    var len := attrOff + 4 + |kind| + 1;
    ghost var a := Attr(TCA_KIND, kind + [0]);
    PaddedIs(TCA_KIND, kind + [0]);
    OneAttribute(h, a);
    hide Encode, Raw, RawMessage, LE16, LE32, Align4, Padded, TcMsg, Get32;
    WriteHeader(buf, len, h);
    ghost var p := LE32(len) + LE16(h.ty) + LE16(h.flags) + LE32(h.seqno) + LE32(h.pid) + h.fixed;
    WriteRta(buf, p, attrOff, TCA_KIND, kind + [0], |kind| + 1);
    MessageLength(buf[..], h.With([a]));
    sent := buf[..Get32(buf[..], 0)];
    QdiscReads(ifindex, kind + [0]);
  }

  lemma OneAttribute(h: Head, a: Attr)
    ensures var len := HEADER + |h.fixed| + a.Len();
            && h.With([a]).Len() == len
            && LE32(len) + LE16(h.ty) + LE16(h.flags) + LE32(h.seqno) + LE32(h.pid) + h.fixed + Raw(a)
               == RawMessage(h.With([a]))
  {
    EncodeTwo(a, a);
    hide Encode, Raw, LE16, LE32;
  }
}
