/** Both readers leave the 16-byte message header in the attribute budget, so
    their walk reaches past the message. This module says where such a walk ends
    up and exactly when it still returns the message's own attributes. */
module Overhang {
  import opened Bytes
  import opened Attributes
  import opened Messages

  /** A message at `nh` with a fixed body of `fixed` bytes and these attributes;
      its length field may or may not count the padding of the last one. */
  ghost predicate HoldsAttrs(mem: seq<byte>, nh: nat, fixed: nat, attrs: seq<Attr>) {
    && Framed(mem, nh, |mem| - SLACK)
    && AllFit(attrs)
    && fixed % 4 == 0
    && At(mem, nh + HEADER + fixed, Encode(attrs))
    && var n := |Encode(attrs)|;
       HEADER + fixed + n <= Get32(mem, nh) <= HEADER + fixed + Align4(n)
  }

  /** Where the next message of the datagram starts. */
  function Next(mem: seq<byte>, nh: nat): nat
    requires Framed(mem, nh, |mem|)
  {
    nh + Align4(Get32(mem, nh))
  }

  /** Budget left after the attributes of a message of this length: 16 bytes, less
      the padding that `nlmsg_len` did not count. */
  function Budget(len: nat): (rest: nat)
    ensures 13 <= rest <= 16
  {
    16 - (Align4(len) - len)
  }

  function Rest(mem: seq<byte>, nh: nat): (rest: nat)
    requires Framed(mem, nh, |mem|)
    ensures 13 <= rest <= 16
  {
    Budget(Get32(mem, nh))
  }

  /** For arbitrary bytes: every attribute met by the walk of a message, and the
      header that ends the walk if there is budget to read it, is four-byte aligned
      and ends at most 16 bytes behind the message; the budget ends at least at -3. */
  lemma WalkStaysNear(mem: seq<byte>, nh: nat, fixed: nat)
    requires Framed(mem, nh, |mem| - SLACK) && nh % 4 == 0 && fixed % 4 == 0 && fixed <= HEADER
    ensures var off, len := nh + HEADER + fixed, Get32(mem, nh) - fixed;
            && (forall v :: v in Walk(mem, off, len) ==>
                  v.off % 4 == 0 && off <= v.off && v.off + v.attr.Len() <= nh + Get32(mem, nh) + SLACK)
            && StopAt(mem, off, len) % 4 == 0
            && (4 <= Leftover(mem, off, len) ==> StopAt(mem, off, len) + 4 <= nh + Get32(mem, nh) + SLACK)
            && -3 <= Leftover(mem, off, len)
  {
    hide Walk, Leftover, StopAt, Get32;
    WalkIsSafe(mem, nh + HEADER + fixed, Get32(mem, nh) - fixed);
    WalkIsAligned(mem, nh + HEADER + fixed, Get32(mem, nh) - fixed);
  }

  /** Own attributes first, then whatever the bytes behind the message look like. */
  lemma WalkOverhangs(mem: seq<byte>, nh: nat, fixed: nat, attrs: seq<Attr>)
    requires HoldsAttrs(mem, nh, fixed, attrs)
    ensures Next(mem, nh) + Rest(mem, nh) <= |mem|
    ensures Walk(mem, nh + HEADER + fixed, Get32(mem, nh) - fixed) ==
            Visits(nh + HEADER + fixed, attrs) + Walk(mem, Next(mem, nh), Rest(mem, nh))
  {
    hide Walk, At, Encode, Get32, Align4;
    var off, n, len := nh + HEADER + fixed, |Encode(attrs)|, Get32(mem, nh);
    WalkEncoded(mem, off, len - fixed, attrs);
    AlignBetween(HEADER + fixed, n, len);
    assert off + Align4(n) == Next(mem, nh);
    assert len - fixed - Align4(n) == Rest(mem, nh);
  }

  lemma AlignBetween(base: nat, n: nat, len: nat)
    requires base % 4 == 0 && base + n <= len <= base + Align4(n)
    ensures Align4(len) == base + Align4(n)
  {
    Align4Add(base, len - base, len);
  }

  /** The reader visits exactly the message's attributes if and only if the bytes
      at the next message's place do not pass RTA_OK for the budget left. */
  lemma VisitsExactIff(mem: seq<byte>, nh: nat, fixed: nat, attrs: seq<Attr>)
    requires HoldsAttrs(mem, nh, fixed, attrs)
    ensures Next(mem, nh) + Rest(mem, nh) <= |mem|
    ensures Walk(mem, nh + HEADER + fixed, Get32(mem, nh) - fixed) == Visits(nh + HEADER + fixed, attrs)
            <==> !RtaOk(mem, Next(mem, nh), Rest(mem, nh))
  {
    hide At, Encode, Get32, Align4, Get16, Next, Visits;
    WalkOverhangs(mem, nh, fixed, attrs);
    var tail := Walk(mem, Next(mem, nh), Rest(mem, nh));
    assert tail == [] <==> !RtaOk(mem, Next(mem, nh), Rest(mem, nh));
  }

  /** Seen as an attribute header, the header of a message shorter than 64 KiB has
      that length and type 0. */
  lemma HeaderAsAttribute(mem: seq<byte>, off: nat)
    requires off + 4 <= |mem| && Get32(mem, off) < 65536
    ensures Get16(mem, off) == Get32(mem, off) && Get16(mem, off + 2) == 0
  {
  }

  /** So what follows adds one type-0 attribute when it is a bare 16-byte header
      and the full 16 bytes of budget are left, and otherwise nothing. */
  lemma WalkIntoHeader(mem: seq<byte>, off: nat, rest: nat)
    requires 13 <= rest <= 16 && off + rest <= |mem|
    requires HEADER <= Get32(mem, off) < 65536
    ensures RtaOk(mem, off, rest) <==> Get32(mem, off) == 16 && rest == 16
    ensures RtaOk(mem, off, rest) ==>
              Walk(mem, off, rest) == [Visit(off, Attr(0, mem[off + 4..off + 16]))]
    ensures !RtaOk(mem, off, rest) ==> Walk(mem, off, rest) == []
  {
    HeaderAsAttribute(mem, off);
    hide Get32;
    if RtaOk(mem, off, rest) {
      assert Walk(mem, off + 16, 0) == [];
    }
  }

  /** A bare header behind a message that leaves all 16 bytes of budget. */
  predicate BareHeaderShows(mem: seq<byte>, nh: nat)
    requires Framed(mem, nh, |mem|) && Next(mem, nh) + 4 <= |mem|
  {
    Get32(mem, Next(mem, nh)) == HEADER && Get32(mem, nh) % 4 == 0
  }

  /** Followed by a message of less than 64 KiB, the walk is exact, except that a
      bare header shows as one attribute of type 0. */
  lemma VisitsBeforeMessage(mem: seq<byte>, nh: nat, fixed: nat, attrs: seq<Attr>)
    requires HoldsAttrs(mem, nh, fixed, attrs)
    requires Next(mem, nh) + 4 <= |mem| && HEADER <= Get32(mem, Next(mem, nh)) < 65536
    ensures var next := Next(mem, nh);
            && next + 4 <= |mem|
            && (BareHeaderShows(mem, nh) ==> next + 16 <= |mem|)
            && Walk(mem, nh + HEADER + fixed, Get32(mem, nh) - fixed) ==
               Visits(nh + HEADER + fixed, attrs)
               + (if BareHeaderShows(mem, nh) then [Visit(next, Attr(0, mem[next + 4..next + 16]))] else [])
  {
    hide Walk, At, Encode, Get32, Get16, Visits, AllFit, Align4, Rest;
    WalkOverhangs(mem, nh, fixed, attrs);
    WalkIntoHeader(mem, Next(mem, nh), Rest(mem, nh));
    FullBudgetIff(mem, nh);
  }

  lemma FullBudgetIff(mem: seq<byte>, nh: nat)
    requires Framed(mem, nh, |mem|)
    ensures Rest(mem, nh) == 16 <==> Get32(mem, nh) % 4 == 0
  {
    hide Get32;
  }
}
