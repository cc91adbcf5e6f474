/** Routing attributes (section 2.2 of RFC 3549): a 16-bit length that counts the
    four header bytes, a 16-bit type, the payload, and padding to four bytes.
    `Encode` is the reference form of a list of attributes, `Walk` the loop over
    RTA_OK and RTA_NEXT that every reader in netlink/ runs. */
module Attributes {
  import opened Bytes

  type u16 = n: nat | n < 65536

  datatype Attr = Attr(ty: u16, payload: seq<byte>) {
    /** RTA_LENGTH of the payload. */
    function Len(): nat { 4 + |payload| }

    predicate Fits() { Len() < 65536 }
  }

  predicate AllFit(attrs: seq<Attr>) {
    forall i :: 0 <= i < |attrs| ==> attrs[i].Fits()
  }

  /** One attribute without its padding. */
  function Raw(a: Attr): (s: seq<byte>)
    ensures |s| == a.Len()
  {
    LE16(a.Len()) + LE16(a.ty) + a.payload
  }

  /** A list of attributes, each at a four-byte boundary, the last one unpadded. */
  function Encode(attrs: seq<Attr>): seq<byte>
  {
    if attrs == [] then []
    else if |attrs| == 1 then Raw(attrs[0])
    else Pad4(Raw(attrs[0])) + Encode(attrs[1..])
  }

  /** Appending at the aligned end is encoding the longer list. */
  lemma {:induction false} EncodeAppend(attrs: seq<Attr>, a: Attr)
    ensures Encode(attrs + [a]) == Pad4(Encode(attrs)) + Raw(a)
  {
    hide Raw;
    if attrs == [] {
      assert attrs + [a] == [a];
    } else {
      var rest := attrs[1..];
      assert (attrs + [a])[1..] == rest + [a];
      EncodeAppend(rest, a);
      if rest != [] {
        var h := Pad4(Raw(attrs[0]));
        Align4Add(|h|, |Encode(rest)|, |h + Encode(rest)|);
        assert Pad4(h + Encode(rest)) == h + Pad4(Encode(rest));
      }
    }
  }

  lemma EncodeTwo(a: Attr, b: Attr)
    ensures Encode([a]) == Raw(a) && Encode([a, b]) == Pad4(Raw(a)) + Raw(b)
  {
    assert [a, b][1..] == [b];
  }

  lemma EncodeThree(a: Attr, b: Attr, c: Attr)
    ensures Encode([a, b, c]) == Pad4(Raw(a)) + Pad4(Raw(b)) + Raw(c)
  {
    hide Raw;
    assert [a, b, c][1..] == [b, c];
    EncodeTwo(b, c);
    assert Encode([a, b, c]) == Pad4(Raw(a)) + Encode([b, c]);
  }

  // The reader.

  /** An attribute met by a walk, with the offset of its header. */
  datatype Visit = Visit(off: nat, attr: Attr)

  predicate RtaOk(mem: seq<byte>, off: nat, len: int)
    requires off + len <= |mem|
  {
    4 <= len && 4 <= Get16(mem, off) <= len
  }

  function AttrAt(mem: seq<byte>, off: nat): (a: Attr)
    requires off + 4 <= |mem| && 4 <= Get16(mem, off) && off + Get16(mem, off) <= |mem|
  {
    Attr(Get16(mem, off + 2), mem[off + 4..off + Get16(mem, off)])
  }

  /** All attributes a walk with signed budget `len` meets, whatever the memory holds. */
  function Walk(mem: seq<byte>, off: nat, len: int): (vs: seq<Visit>)
    requires off + len <= |mem|
    decreases len
  {
    if RtaOk(mem, off, len) then
      var step := Align4(Get16(mem, off));
      [Visit(off, AttrAt(mem, off))] + Walk(mem, off + step, len - step)
    else []
  }

  /** The budget left when the walk stops. */
  function Leftover(mem: seq<byte>, off: nat, len: int): int
    requires off + len <= |mem|
    decreases len
  {
    if RtaOk(mem, off, len) then
      var step := Align4(Get16(mem, off));
      Leftover(mem, off + step, len - step)
    else len
  }

  lemma StopsAtZeros(mem: seq<byte>, off: nat, len: nat)
    requires off + len <= |mem| && off + 2 <= |mem| && mem[off] == mem[off + 1] == 0
    ensures Walk(mem, off, len) == []
  {
  }

  /** Where the walk stops: the header there is the last one it may read. */
  function StopAt(mem: seq<byte>, off: nat, len: int): (stop: nat)
    requires off + len <= |mem|
    ensures stop == off + len - Leftover(mem, off, len)
    decreases len
  {
    if RtaOk(mem, off, len) then
      var step := Align4(Get16(mem, off));
      StopAt(mem, off + step, len - step)
    else off
  }

  /** For arbitrary memory: a walk never leaves `[off, off + len)`, moves strictly
      forward, and its budget ends at least at -3 (or where it started). */
  lemma {:induction false} WalkIsSafe(mem: seq<byte>, off: nat, len: int)
    requires off + len <= |mem|
    ensures forall v :: v in Walk(mem, off, len) ==> off <= v.off && v.off + v.attr.Len() <= off + len
    ensures forall i, j :: 0 <= i < j < |Walk(mem, off, len)| ==>
              Walk(mem, off, len)[i].off + Walk(mem, off, len)[i].attr.Len() <= Walk(mem, off, len)[j].off
    ensures 0 <= len ==> -3 <= Leftover(mem, off, len) <= len
    decreases len
  {
    hide Align4, Get16;
    if RtaOk(mem, off, len) {
      var step := Align4(Get16(mem, off));
      WalkIsSafe(mem, off + step, len - step);
      assert Walk(mem, off, len) == [Visit(off, AttrAt(mem, off))] + Walk(mem, off + step, len - step);
    }
  }

  /** For arbitrary memory: every header a walk reads has the alignment of its start. */
  lemma {:induction false} WalkIsAligned(mem: seq<byte>, off: nat, len: int)
    requires off + len <= |mem|
    ensures forall v :: v in Walk(mem, off, len) ==> v.off % 4 == off % 4
    ensures StopAt(mem, off, len) % 4 == off % 4
    decreases len
  {
    hide Align4, Get16, AttrAt;
    if RtaOk(mem, off, len) {
      var step := Align4(Get16(mem, off));
      WalkIsAligned(mem, off + step, len - step);
      StepKeepsAlignment(off, step);
    }
  }

  lemma StepKeepsAlignment(off: nat, step: nat)
    requires step % 4 == 0
    ensures (off + step) % 4 == off % 4
  {
  }

  /** The visits an encoded list should give, placed from `off` on. */
  function Visits(off: nat, attrs: seq<Attr>): (vs: seq<Visit>)
    ensures |vs| == |attrs| && forall i :: 0 <= i < |vs| ==> vs[i].attr == attrs[i]
    decreases |attrs|
  {
    if attrs == [] then []
    else [Visit(off, attrs[0])] + Visits(off + Align4(attrs[0].Len()), attrs[1..])
  }

  predicate At(mem: seq<byte>, off: nat, data: seq<byte>) {
    off + |data| <= |mem| && mem[off..off + |data|] == data
  }

  lemma AtParts(mem: seq<byte>, off: nat, a: seq<byte>, b: seq<byte>, mid: nat)
    requires At(mem, off, a + b) && mid == off + |a|
    ensures At(mem, off, a) && At(mem, mid, b)
  {
    var d := mem[off..off + |a + b|];
    assert d[..|a|] == a && d[|a|..] == b;
  }

  lemma RawAt(mem: seq<byte>, off: nat, a: Attr)
    requires a.Fits() && At(mem, off, Raw(a))
    ensures Get16(mem, off) == a.Len() && AttrAt(mem, off) == a
  {
    AtParts(mem, off, LE16(a.Len()) + LE16(a.ty), a.payload, off + 4);
    AtParts(mem, off, LE16(a.Len()), LE16(a.ty), off + 2);
    Get16OfLE16(mem, off, a.Len());
    Get16OfLE16(mem, off + 2, a.ty);
  }

  lemma WalkStep(mem: seq<byte>, off: nat, len: int, a: Attr)
    requires a.Fits() && At(mem, off, Raw(a)) && a.Len() <= len && off + len <= |mem|
    ensures var n := Align4(a.Len());
            Walk(mem, off, len) == [Visit(off, a)] + Walk(mem, off + n, len - n)
  {
    RawAt(mem, off, a);
  }

  lemma EncodeSplit(attrs: seq<Attr>)
    requires attrs != []
    ensures Encode(attrs) == if |attrs| == 1 then Raw(attrs[0]) else Pad4(Raw(attrs[0])) + Encode(attrs[1..])
    ensures |attrs| == 1 ==> attrs[1..] == []
  {
    hide Raw, Pad4;
  }

  lemma PaddedAt(mem: seq<byte>, off: nat, raw: seq<byte>)
    requires At(mem, off, Pad4(raw))
    ensures At(mem, off, raw)
  {
    hide At, Align4;
    AtParts(mem, off, raw, Zeros(Align4(|raw|) - |raw|), off + |raw|);
  }

  lemma EncodeHead(mem: seq<byte>, off: nat, attrs: seq<Attr>)
    requires attrs != [] && At(mem, off, Encode(attrs))
    ensures At(mem, off, Raw(attrs[0]))
    ensures |attrs| > 1 ==> At(mem, off + Align4(attrs[0].Len()), Encode(attrs[1..]))
  {
    hide Encode, Raw, Pad4, At, Align4;
    EncodeSplit(attrs);
    if |attrs| > 1 {
      AtParts(mem, off, Pad4(Raw(attrs[0])), Encode(attrs[1..]), off + Align4(attrs[0].Len()));
      PaddedAt(mem, off, Raw(attrs[0]));
    }
  }

  /** Where an encoded list ends, the walk goes on with whatever budget is left:
      the one fact behind every reader, with the exact budget or a larger one. */
  lemma {:induction false} WalkEncoded(mem: seq<byte>, off: nat, len: int, attrs: seq<Attr>)
    requires AllFit(attrs) && At(mem, off, Encode(attrs))
    requires |Encode(attrs)| <= len && off + len <= |mem|
    ensures var n := Align4(|Encode(attrs)|);
            Walk(mem, off, len) == Visits(off, attrs) + Walk(mem, off + n, len - n)
    decreases |attrs|
  {
    hide Walk, Raw, At, Encode, Align4;
    if attrs == [] {
      EncodeNone();
    } else {
      var a, rest := attrs[0], attrs[1..];
      EncodeHead(mem, off, attrs);
      EncodeSplit(attrs);
      WalkStep(mem, off, len, a);
      if rest == [] {
        assert Visits(off, attrs) == [Visit(off, a)];
      } else {
        var h, m := Align4(a.Len()), |Encode(rest)|;
        WalkEncoded(mem, off + h, len - h, rest);
        Align4Add(h, m, h + m);
        var tail := Walk(mem, off + (h + Align4(m)), len - (h + Align4(m)));
        assert [Visit(off, a)] + (Visits(off + h, rest) + tail) == Visits(off, attrs) + tail;
      }
    }
  }

  lemma EncodeNone()
    ensures Encode([]) == [] && Align4(0) == 0
  {
  }

  /** Round trip: with the exact payload budget, the walk over an encoded list
      returns that list in order and nothing else. */
  lemma WalkExact(mem: seq<byte>, off: nat, attrs: seq<Attr>)
    requires AllFit(attrs) && At(mem, off, Encode(attrs))
    ensures Walk(mem, off, |Encode(attrs)|) == Visits(off, attrs)
  {
    hide Encode, Align4;
    WalkEncoded(mem, off, |Encode(attrs)|, attrs);
  }

  /** The attributes nested in a payload. */
  function Decode(payload: seq<byte>): (attrs: seq<Attr>) {
    AttrsOf(Walk(payload, 0, |payload|))
  }

  function AttrsOf(vs: seq<Visit>): (attrs: seq<Attr>)
    ensures |attrs| == |vs| && forall i :: 0 <= i < |vs| ==> attrs[i] == vs[i].attr
  {
    seq(|vs|, i requires 0 <= i < |vs| => vs[i].attr)
  }

  /** Decoding undoes encoding, so two lists with the same bytes are the same list. */
  lemma DecodeEncode(attrs: seq<Attr>)
    requires AllFit(attrs)
    ensures Decode(Encode(attrs)) == attrs
  {
    WalkExact(Encode(attrs), 0, attrs);
  }
}
