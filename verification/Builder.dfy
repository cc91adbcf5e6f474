/** The step every incremental builder in netlink/ repeats: put an attribute at the
    aligned end of a zeroed request buffer and count it in the length field of the
    message, or of the attribute it is nested in. */
module Builder {
  import opened Bytes
  import opened Attributes
  import opened Messages

  /** The part of a request that does not grow: header fields and fixed body. */
  datatype Head = Head(ty: u16, flags: u16, seqno: u32, pid: u32, fixed: seq<byte>) {
    function With(attrs: seq<Attr>): Message {
      Message(ty, flags, seqno, pid, fixed + Encode(attrs))
    }
  }

  /** `struct ifinfomsg` and `struct tcmsg`, as far as the programs set their fields. */
  function IfInfo(ty: u16, index: u32, change: u32): (s: seq<byte>)
    ensures |s| == 16
  {
    [0, 0] + LE16(ty) + LE32(index) + LE32(0) + LE32(change)
  }

  function TcMsg(ifindex: u32, handle: u32, parent: u32, info: u32): (s: seq<byte>)
    ensures |s| == 20
  {
    [0, 0, 0, 0] + LE32(ifindex) + LE32(handle) + LE32(parent) + LE32(info)
  }

  /** `struct ifinfomsg` at `off`: family, type, index, flags and change mask. */
  predicate IsIfInfo(s: seq<byte>, off: nat, ty: u16, index: u32, change: u32) {
    && off + 16 <= |s| && s[off] == 0
    && Get16(s, off + 2) == ty && Get32(s, off + 4) == index && Get32(s, off + 8) == 0 && Get32(s, off + 12) == change
  }

  lemma IfInfoFields(s: seq<byte>, off: nat, ty: u16, index: u32, change: u32)
    requires At(s, off, IfInfo(ty, index, change))
    ensures IsIfInfo(s, off, ty, index, change)
  {
    hide LE16, LE32;
    var f := IfInfo(ty, index, change);
    assert s[off] == s[off..off + 16][0] == f[0];
    assert s[off + 2..off + 4] == s[off..off + 16][2..4] == f[2..4] == LE16(ty);
    assert s[off + 4..off + 8] == s[off..off + 16][4..8] == f[4..8] == LE32(index);
    assert s[off + 8..off + 12] == s[off..off + 16][8..12] == f[8..12] == LE32(0);
    assert s[off + 12..off + 16] == s[off..off + 16][12..16] == f[12..16] == LE32(change);
    hide Get16, Get32;
    Get16OfLE16(s, off + 2, ty);
    Get32OfLE32(s, off + 4, index);
    Get32OfLE32(s, off + 8, 0);
    Get32OfLE32(s, off + 12, change);
  }

  /** `struct tcmsg` at `off`: family, interface, handle, parent and info. */
  predicate IsTcMsg(s: seq<byte>, off: nat, ifindex: u32, handle: u32, parent: u32, info: u32) {
    && off + 20 <= |s| && s[off] == 0
    && Get32(s, off + 4) == ifindex && Get32(s, off + 8) == handle && Get32(s, off + 12) == parent
    && Get32(s, off + 16) == info
  }

  lemma TcMsgFields(s: seq<byte>, off: nat, ifindex: u32, handle: u32, parent: u32, info: u32)
    requires At(s, off, TcMsg(ifindex, handle, parent, info))
    ensures IsTcMsg(s, off, ifindex, handle, parent, info)
  {
    hide LE32;
    var f := TcMsg(ifindex, handle, parent, info);
    assert s[off] == s[off..off + 20][0] == f[0];
    assert s[off + 4..off + 8] == s[off..off + 20][4..8] == f[4..8] == LE32(ifindex);
    assert s[off + 8..off + 12] == s[off..off + 20][8..12] == f[8..12] == LE32(handle);
    assert s[off + 12..off + 16] == s[off..off + 20][12..16] == f[12..16] == LE32(parent);
    assert s[off + 16..off + 20] == s[off..off + 20][16..20] == f[16..20] == LE32(info);
    hide Get32;
    Get32OfLE32(s, off + 4, ifindex);
    Get32OfLE32(s, off + 8, handle);
    Get32OfLE32(s, off + 12, parent);
    Get32OfLE32(s, off + 16, info);
  }

  /** The header of a request: its length, type and flags; sequence number 1, port 0. */
  predicate IsRequest(s: seq<byte>, ty: u16, flags: u16) {
    && |s| >= 16 && Get32(s, 0) == |s| && Get16(s, 4) == ty && Get16(s, 6) == flags
    && Get32(s, 8) == 1 && Get32(s, 12) == 0
  }

  /** Reading any request back: header, fixed body and attributes. */
  lemma RequestReads(h: Head, attrs: seq<Attr>)
    requires h.With(attrs).Fits() && AllFit(attrs) && h.seqno == 1 && h.pid == 0
    ensures var s := RawMessage(h.With(attrs));
            && IsRequest(s, h.ty, h.flags) && At(s, 16, h.fixed)
            && 16 + |h.fixed| <= |s| && Decode(s[16 + |h.fixed|..]) == attrs
  {
    hide RawMessage, Encode, Decode, Get16, Get32;
    var m := h.With(attrs);
    HeaderFields(m);
    MessageDecodes(h, attrs);
    FixedPart(RawMessage(m), h.fixed, Encode(attrs));
  }

  lemma FixedPart(s: seq<byte>, fixed: seq<byte>, e: seq<byte>)
    requires |s| >= 16 && s[16..] == fixed + e
    ensures At(s, 16, fixed) && s[16 + |fixed|..] == (fixed + e)[|fixed|..]
  {
    assert s[16..16 + |fixed|] == s[16..][..|fixed|];
    assert s[16 + |fixed|..] == s[16..][|fixed|..];
  }

  /** Attribute `a` where `data` was copied and the rest of the payload left zero. */
  function Padded(ty: u16, data: seq<byte>, n: nat): (a: Attr)
    requires |data| <= n
    ensures a.Len() == 4 + n
  {
    Attr(ty, data + Zeros(n - |data|))
  }

  lemma PaddedIs(ty: u16, data: seq<byte>)
    ensures Padded(ty, data, |data|) == Attr(ty, data)
  {
    assert data + Zeros(0) == data;
  }

  lemma LengthField(s: seq<byte>, n: nat, rest: seq<byte>)
    requires Holds(s, LE32(n) + rest) && n < 0x1_0000_0000
    ensures Get32(s, 0) == n
  {
    assert s[0..4] == LE32(n);
    Get32OfLE32(s, 0, n);
  }

  lemma MessageLength(s: seq<byte>, m: Message)
    requires Holds(s, RawMessage(m)) && m.Fits()
    ensures |s| >= m.Len() && Get32(s, 0) == m.Len() && s[..m.Len()] == RawMessage(m)
  {
    var rest := LE16(m.ty) + LE16(m.flags) + LE32(m.seqno) + LE32(m.pid) + m.body;
    assert RawMessage(m) == LE32(m.Len()) + rest;
    LengthField(s, m.Len(), rest);
  }

  /** Header and fixed body of a request without attributes, in a zeroed buffer. */
  method StartMessage(buf: array<byte>, h: Head)
    requires Holds(buf[..], []) && HEADER + |h.fixed| <= buf.Length && h.With([]).Fits()
    modifies buf
    ensures Holds(buf[..], RawMessage(h.With([])))
  {
    WriteHeader(buf, HEADER + |h.fixed|, h);
    var p := LE32(HEADER + |h.fixed|) + LE16(h.ty) + LE16(h.flags) + LE32(h.seqno) + LE32(h.pid) + h.fixed;
    assert h.fixed + [] == h.fixed;
    assert p == RawMessage(h.With([]));
  }

  /** The header fields and the fixed body, with a given `nlmsg_len`. */
  method WriteHeader(buf: array<byte>, len: nat, h: Head)
    requires Holds(buf[..], []) && HEADER + |h.fixed| <= buf.Length
    modifies buf
    ensures Holds(buf[..], LE32(len) + LE16(h.ty) + LE16(h.flags) + LE32(h.seqno) + LE32(h.pid) + h.fixed)
  {
    var p := [];
    p := Append(buf, p, LE32(len));
    p := Append(buf, p, LE16(h.ty));
    p := Append(buf, p, LE16(h.flags));
    p := Append(buf, p, LE32(h.seqno));
    p := Append(buf, p, LE32(h.pid));
    p := Append(buf, p, h.fixed);
    assert [] + LE32(len) == LE32(len);
  }

  /** Write `data` right behind the contents `p`. */
  method Append(buf: array<byte>, p: seq<byte>, data: seq<byte>) returns (q: seq<byte>)
    requires Holds(buf[..], p) && |p| + |data| <= buf.Length
    modifies buf
    ensures q == p + data && Holds(buf[..], q)
  {
    HoldsAppend(buf[..], p, data);
    Store(buf, |p|, data);
    q := p + data;
  }

  /** Write an attribute at `off`, right behind the contents: its type, the length
      `RTA_LENGTH(n)`, and `data`, the part of its payload that is not zero. */
  method WriteRta(buf: array<byte>, ghost p: seq<byte>, off: nat, ty: u16, data: seq<byte>, n: nat)
    requires Holds(buf[..], p) && |p| == off
    requires |data| <= n && off + 4 + n <= buf.Length
    modifies buf
    ensures Holds(buf[..], p + Raw(Padded(ty, data, n)))
  {
    hide LE16;
    ghost var head := p + LE16(4 + n) + LE16(ty);
    Put(buf, p, off, LE16(4 + n));
    Put(buf, p + LE16(4 + n), off + 2, LE16(ty));
    Put(buf, head, off + 4, data);
    HoldsSkip(buf[..], head + data, n - |data|);
    assert p + Raw(Padded(ty, data, n)) == head + data + Zeros(n - |data|);
  }

  method Put(buf: array<byte>, ghost p: seq<byte>, off: nat, data: seq<byte>)
    requires Holds(buf[..], p) && |p| == off && off + |data| <= buf.Length
    modifies buf
    ensures Holds(buf[..], p + data)
  {
    HoldsAppend(buf[..], p, data);
    Store(buf, off, data);
  }

  /** The length of a message that gets one more attribute. */
  lemma GrownMessage(h: Head, attrs: seq<Attr>, a: Attr)
    requires |h.fixed| % 4 == 0
    ensures h.With(attrs + [a]).Len() == Align4(h.With(attrs).Len()) + a.Len()
    ensures var before, after := h.With(attrs), h.With(attrs + [a]);
            LE32(after.Len()) + (Pad4(RawMessage(before)) + Raw(a))[4..] == RawMessage(after)
  {
    hide Encode, Raw, LE16, LE32, Align4, Zeros;
    EncodeAppend(attrs, a);
    var n, e := HEADER + |h.fixed|, Encode(attrs);
    Align4Add(n, |e|, n + |e|);
    var before, after := h.With(attrs), h.With(attrs + [a]);
    MessageParts(before, h.fixed, e);
    MessageParts(after, h.fixed, Pad4(e) + Raw(a));
    var rest := LE16(h.ty) + LE16(h.flags) + LE32(h.seqno) + LE32(h.pid) + h.fixed;
    PadInside(LE32(before.Len()), rest, e);
    Regroup(LE32(before.Len()), rest, Pad4(e), Raw(a));
  }

  lemma MessageParts(m: Message, fixed: seq<byte>, e: seq<byte>)
    requires m.body == fixed + e
    ensures RawMessage(m) == LE32(m.Len()) + (LE16(m.ty) + LE16(m.flags) + LE32(m.seqno) + LE32(m.pid) + fixed) + e
    ensures RawMessage(m) == LE32(m.Len()) + (LE16(m.ty) + LE16(m.flags) + LE32(m.seqno) + LE32(m.pid) + fixed + e)
  {
    hide LE16, LE32;
  }

  lemma PadInside(len: seq<byte>, rest: seq<byte>, e: seq<byte>)
    requires |len + rest| % 4 == 0
    ensures Pad4(len + rest + e) == len + rest + Pad4(e)
  {
    hide Align4;
    Align4Add(|len + rest|, |e|, |len + rest + e|);
  }

  lemma Regroup(len: seq<byte>, rest: seq<byte>, e: seq<byte>, a: seq<byte>)
    requires |len| == 4
    ensures (len + rest + e + a)[4..] == rest + (e + a)
  {
  }

  /** Count an attribute already written at the aligned end in `nlmsg_len`. */
  method UpdateLength(buf: array<byte>, ghost h: Head, ghost attrs: seq<Attr>, ghost a: Attr, rtaLen: nat)
    requires |h.fixed| % 4 == 0 && h.With(attrs).Fits() && h.With(attrs + [a]).Fits() && rtaLen == a.Len()
    requires Holds(buf[..], Pad4(RawMessage(h.With(attrs))) + Raw(a))
    requires 4 <= buf.Length && Get32(buf[..], 0) == h.With(attrs).Len()
    modifies buf
    ensures Holds(buf[..], RawMessage(h.With(attrs + [a])))
  {
    hide RawMessage, Raw, Encode, LE32, Align4, Pad4;
    var len := Align4(Get32(buf[..], 0)) + rtaLen;
    GrownMessage(h, attrs, a);
    ghost var p := Pad4(RawMessage(h.With(attrs))) + Raw(a);
    assert p == [] + p[..4] + p[4..];
    HoldsPatch(buf[..], [], p[..4], LE32(len), p[4..]);
    assert [] + LE32(len) + p[4..] == LE32(len) + p[4..];
    Store(buf, 0, LE32(len));
  }

  /** The whole step on a message: the request then encodes the longer list. */
  method AppendAttr(buf: array<byte>, ghost h: Head, ghost attrs: seq<Attr>, ty: u16, data: seq<byte>, n: nat)
    requires |data| <= n && |h.fixed| % 4 == 0
    requires h.With(attrs).Fits() && h.With(attrs + [Padded(ty, data, n)]).Fits()
    requires Align4(h.With(attrs).Len()) + 4 + n <= buf.Length
    requires Holds(buf[..], RawMessage(h.With(attrs)))
    modifies buf
    ensures Holds(buf[..], RawMessage(h.With(attrs + [Padded(ty, data, n)])))
  {
    hide RawMessage, Encode, Raw, Align4, LE16, LE32;
    ghost var m := h.With(attrs);
    MessageLength(buf[..], m);
    var off := Align4(Get32(buf[..], 0));
    HoldsSkip(buf[..], RawMessage(m), off - m.Len());
    WriteRta(buf, Pad4(RawMessage(m)), off, ty, data, n);
    KeepsLength(buf[..], m, Raw(Padded(ty, data, n)));
    UpdateLength(buf, h, attrs, Padded(ty, data, n), 4 + n);
  }

  /** Open attribute `ty` at the aligned end of a message, still without payload. */
  method OpenAttr(buf: array<byte>, ghost m: Message, ty: u16) returns (off: nat)
    requires Holds(buf[..], RawMessage(m)) && m.Fits() && Align4(m.Len()) + 4 <= buf.Length
    modifies buf
    ensures off == Align4(m.Len())
    ensures Holds(buf[..], Pad4(RawMessage(m)) + Raw(Attr(ty, [])))
  {
    hide RawMessage, Raw, Align4, Get32, LE16;
    MessageLength(buf[..], m);
    off := Align4(Get32(buf[..], 0));
    HoldsSkip(buf[..], RawMessage(m), off - m.Len());
    WriteRta(buf, Pad4(RawMessage(m)), off, ty, [], 0);
    assert [] + Zeros(0) == [];
  }

  /** Count the attribute now filled at `off` in `nlmsg_len`. */
  method CloseAttr(buf: array<byte>, ghost h: Head, ghost attrs: seq<Attr>, ghost a: Attr, off: nat)
    requires |h.fixed| % 4 == 0 && h.With(attrs).Fits() && h.With(attrs + [a]).Fits() && a.Fits()
    requires Holds(buf[..], Pad4(RawMessage(h.With(attrs))) + Raw(a)) && off == Align4(h.With(attrs).Len())
    modifies buf
    ensures Holds(buf[..], RawMessage(h.With(attrs + [a])))
  {
    hide RawMessage, Raw, Align4, Get32, Get16, LE16, Encode;
    ghost var m := h.With(attrs);
    KeepsLength(buf[..], m, Raw(a));
    RawIs(Pad4(RawMessage(m)), a.ty, a.payload);
    RtaLenField(buf[..], Pad4(RawMessage(m)), a.Len(), LE16(a.ty) + a.payload);
    UpdateLength(buf, h, attrs, a, Get16(buf[..], off));
  }

  /** An attribute header with a length still to be patched. */
  function Hdr(len: nat, ty: u16): (s: seq<byte>)
    ensures |s| == 4
  {
    LE16(len) + LE16(ty)
  }

  method OpenNest(buf: array<byte>, ghost p: seq<byte>, off: nat, ty: u16)
    requires Holds(buf[..], p) && |p| == off && off + 4 <= buf.Length
    modifies buf
    ensures Holds(buf[..], p + Hdr(0, ty))
  {
    Put(buf, p, off, LE16(0));
    Put(buf, p + LE16(0), off + 2, LE16(ty));
    assert p + LE16(0) + LE16(ty) == p + Hdr(0, ty);
  }

  /** Patch the length of an attribute opened at `off`, once its payload is there. */
  method CloseNest(buf: array<byte>, ghost p: seq<byte>, off: nat, ghost ty: u16, len: nat, ghost payload: seq<byte>)
    requires Holds(buf[..], p + Hdr(0, ty) + payload) && |p| == off && len == 4 + |payload|
    modifies buf
    ensures Holds(buf[..], p + Raw(Attr(ty, payload)))
  {
    RawIs(p, ty, payload);
    hide LE16, Raw;
    ghost var rest := LE16(ty) + payload;
    assert p + Hdr(0, ty) + payload == p + LE16(0) + rest;
    HoldsPatch(buf[..], p, LE16(0), LE16(len), rest);
    Store(buf, off, LE16(len));
  }

  lemma KeepsLength(s: seq<byte>, m: Message, more: seq<byte>)
    requires Holds(s, Pad4(RawMessage(m)) + more) && m.Fits()
    ensures |s| >= 4 && Get32(s, 0) == m.Len()
  {
    var rest := LE16(m.ty) + LE16(m.flags) + LE32(m.seqno) + LE32(m.pid) + m.body;
    var zeros := Zeros(Align4(m.Len()) - m.Len());
    assert Pad4(RawMessage(m)) + more == LE32(m.Len()) + (rest + zeros + more);
    LengthField(s, m.Len(), rest + zeros + more);
  }

  /** The same step inside attribute `ty` at `off`: `rta_len` of the outer attribute
      is read, the new one put at its aligned end, and `rta_len` patched. */
  method AppendNested(buf: array<byte>, ghost p: seq<byte>, off: nat, ghost outer: u16, ghost attrs: seq<Attr>,
                      ty: u16, data: seq<byte>, n: nat)
    requires |p| == off && |data| <= n
    requires Attr(outer, Encode(attrs)).Fits() && Attr(outer, Encode(attrs + [Padded(ty, data, n)])).Fits()
    requires off + Align4(4 + |Encode(attrs)|) + 4 + n <= buf.Length
    requires Holds(buf[..], p + Raw(Attr(outer, Encode(attrs))))
    modifies buf
    ensures Holds(buf[..], p + Raw(Attr(outer, Encode(attrs + [Padded(ty, data, n)]))))
  {
    hide Encode, Align4, LE16, Raw, Get16;
    ghost var e, a := Encode(attrs), Padded(ty, data, n);
    ghost var before, after := LE16(outer) + e, LE16(outer) + Encode(attrs + [a]);
    RawIs(p, outer, e);
    RtaLenField(buf[..], p, 4 + |e|, before);
    var rtaLen := Get16(buf[..], off);
    NestedGrows(buf[..], p, outer, attrs, a);
    WriteRta(buf, p + LE16(4 + |e|) + LE16(outer) + Pad4(e), off + Align4(rtaLen), ty, data, n);
    var len := Align4(rtaLen) + (4 + n);
    HoldsPatch(buf[..], p, LE16(4 + |e|), LE16(len), after);
    Store(buf, off, LE16(len));
    RawIs(p, outer, Encode(attrs + [a]));
  }

  lemma NestedGrows(s: seq<byte>, p: seq<byte>, outer: u16, attrs: seq<Attr>, a: Attr)
    requires var e := Encode(attrs);
             Holds(s, p + LE16(4 + |e|) + (LE16(outer) + e)) && |p| + Align4(4 + |e|) <= |s|
    ensures var e := Encode(attrs);
            && Align4(4 + |e|) == 4 + Align4(|e|)
            && |Encode(attrs + [a])| == Align4(|e|) + a.Len()
            && Holds(s, p + LE16(4 + |e|) + LE16(outer) + Pad4(e))
            && p + LE16(4 + |e|) + LE16(outer) + Pad4(e) + Raw(a)
               == p + LE16(4 + |e|) + (LE16(outer) + Encode(attrs + [a]))
  {
    hide Encode, Align4, LE16, Raw;
    var e := Encode(attrs);
    Align4Add(4, |e|, 4 + |e|);
    HoldsSkip(s, p + LE16(4 + |e|) + (LE16(outer) + e), Align4(|e|) - |e|);
    assert p + LE16(4 + |e|) + (LE16(outer) + e) + Zeros(Align4(|e|) - |e|)
        == p + LE16(4 + |e|) + LE16(outer) + Pad4(e);
    EncodeAppend(attrs, a);
  }

  lemma RawIs(p: seq<byte>, ty: u16, payload: seq<byte>)
    ensures p + Raw(Attr(ty, payload)) == p + LE16(4 + |payload|) + (LE16(ty) + payload)
  {
    hide LE16;
  }

  lemma RtaLenField(s: seq<byte>, p: seq<byte>, n: nat, rest: seq<byte>)
    requires Holds(s, p + LE16(n) + rest) && n < 65536
    ensures |p| + 2 <= |s| && Get16(s, |p|) == n
  {
    assert s[|p|..|p| + 2] == LE16(n);
    Get16OfLE16(s, |p|, n);
  }

  /** Reading back: the attributes behind the fixed body decode to the list. */
  lemma MessageDecodes(h: Head, attrs: seq<Attr>)
    requires AllFit(attrs)
    ensures Decode(h.With(attrs).body[|h.fixed|..]) == attrs
  {
    assert h.With(attrs).body[|h.fixed|..] == Encode(attrs);
    DecodeEncode(attrs);
  }
}
