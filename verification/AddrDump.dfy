/** What if-addrs prints: the lines of the messages sent, in order, and exactly when
    nothing else, although every walk runs past its message. */
module AddrDump {
  import opened Bytes
  import opened Attributes
  import opened Messages
  import opened Overhang
  import opened Datagrams
  import opened IfAddrs

  // One address message.

  /** The lines an address message is meant to give: its header and attributes. */
  function OwnLines(mem: seq<byte>, nh: nat, deleted: bool, attrs: seq<Attr>): seq<Line>
    requires Framed(mem, nh, |mem| - SLACK)
  {
    [Address(deleted, mem[nh + HEADER..nh + HEADER + IFADDRMSG])] + Lines(attrs)
  }

  function Lines(attrs: seq<Attr>): (ls: seq<Line>)
    ensures |ls| == |attrs| && forall i :: 0 <= i < |ls| ==> ls[i] == Attribute(attrs[i])
  {
    seq(|attrs|, i requires 0 <= i < |attrs| => Attribute(attrs[i]))
  }

  lemma LinesOfVisits(off: nat, attrs: seq<Attr>, tail: seq<Visit>)
    ensures AttributeLines(Visits(off, attrs) + tail) == Lines(attrs) + AttributeLines(tail)
  {
  }

  lemma AddressLinesOverhang(mem: seq<byte>, nh: nat, deleted: bool, attrs: seq<Attr>)
    requires HoldsAttrs(mem, nh, IFADDRMSG, attrs)
    ensures Next(mem, nh) + Rest(mem, nh) <= |mem|
    ensures AddressLines(mem, nh, deleted)
            == OwnLines(mem, nh, deleted, attrs) + AttributeLines(Walk(mem, Next(mem, nh), Rest(mem, nh)))
  {
    hide Walk, At, Encode, Get16, Get32, AllFit, Visits, Align4, Next, Rest, AttributeLines, Lines;
    WalkOverhangs(mem, nh, IFADDRMSG, attrs);
    LinesOfVisits(nh + HEADER + IFADDRMSG, attrs, Walk(mem, Next(mem, nh), Rest(mem, nh)));
  }

  /** An address message prints exactly its own lines if and only if the bytes behind
      it do not pass RTA_OK for the budget left, whatever these bytes are. */
  lemma AddressLinesExactIff(mem: seq<byte>, nh: nat, deleted: bool, attrs: seq<Attr>)
    requires HoldsAttrs(mem, nh, IFADDRMSG, attrs)
    ensures Next(mem, nh) + Rest(mem, nh) <= |mem|
    ensures AddressLines(mem, nh, deleted) == OwnLines(mem, nh, deleted, attrs)
            <==> !RtaOk(mem, Next(mem, nh), Rest(mem, nh))
  {
    hide At, Encode, AllFit, Get32, Align4, Rest, OwnLines, AddressLines, RtaOk, AttributeLines, Walk;
    AddressLinesOverhang(mem, nh, deleted, attrs);
    LinesIff(mem, Next(mem, nh), Rest(mem, nh));
  }

  lemma LinesIff(mem: seq<byte>, off: nat, len: nat)
    requires off + len <= |mem|
    ensures AttributeLines(Walk(mem, off, len)) != [] <==> RtaOk(mem, off, len)
  {
    hide Get16, Align4;
    AttributeStep(mem, off, len);
  }

  /** Followed by a message, it prints one line more, for an attribute of type 0, if
      that message is a bare 16-byte header and `nlmsg_len` counts all padding; else
      its own lines. */
  lemma AddressLinesBeforeMessage(mem: seq<byte>, nh: nat, deleted: bool, attrs: seq<Attr>)
    requires HoldsAttrs(mem, nh, IFADDRMSG, attrs)
    requires Next(mem, nh) + 4 <= |mem| && HEADER <= Get32(mem, Next(mem, nh)) <= BUFFER
    ensures var next := Next(mem, nh);
            if BareHeaderShows(mem, nh) then
              && next + 16 <= |mem|
              && AddressLines(mem, nh, deleted)
                 == OwnLines(mem, nh, deleted, attrs) + [Attribute(Attr(0, mem[next + 4..next + 16]))]
            else AddressLines(mem, nh, deleted) == OwnLines(mem, nh, deleted, attrs)
  {
    hide At, Encode, Get16, Get32, AllFit, Visits, Align4, Rest, Walk, OwnLines, AddressLines;
    AddressLinesOverhang(mem, nh, deleted, attrs);
    var next, rest := Next(mem, nh), Rest(mem, nh);
    WalkIntoHeader(mem, next, rest);
    FullBudgetIff(mem, nh);
    if BareHeaderShows(mem, nh) {
      assert AttributeLines([Visit(next, Attr(0, mem[next + 4..next + 16]))])
          == [Attribute(Attr(0, mem[next + 4..next + 16]))];
    }
  }

  // Whole datagrams.

  /** Address messages, and messages printed as `other`. */
  predicate IsAddrItem(it: Item) {
    match it
    case WithAttrs(ty, _, _, _, fixed, _, _) => ty in {RTM_NEWADDR, RTM_DELADDR} && |fixed| == IFADDRMSG
    case Plain(msg) => msg.ty !in {RTM_NEWADDR, RTM_DELADDR}
  }

  predicate AllAddrItems(items: seq<Item>) {
    forall it :: it in items ==> IsAddrItem(it)
  }

  /** What a message says. */
  function ItemLines(it: Item): seq<Line> {
    match it
    case WithAttrs(ty, _, _, _, fixed, attrs, _) => [Address(ty == RTM_DELADDR, fixed)] + Lines(attrs)
    case Plain(_) => [Unknown]
  }

  function LinesIn(items: seq<Item>): seq<Line> {
    if items == [] then [] else ItemLines(items[0]) + LinesIn(items[1..])
  }

  /** Lines for the bytes at `end`, right behind a message, that its walk has budget for. */
  function Behind(mem: seq<byte>, end: nat, it: Item): seq<Line>
    requires end + SLACK <= |mem|
  {
    if it.Plain? then [] else AttributeLines(Walk(mem, end, Budget(it.Len())))
  }

  /** A message prints its lines and those behind it. */
  lemma LinesOfItem(mem: seq<byte>, nh: nat, it: Item)
    requires it.Valid() && IsAddrItem(it)
    requires At(mem, nh, RawMessage(it.Msg())) && nh + Align4(it.Len()) + SLACK <= |mem|
    ensures Framed(mem, nh, |mem| - SLACK)
    ensures MessageLines(mem, nh) == ItemLines(it) + Behind(mem, nh + Align4(it.Len()), it)
  {
    hide RawMessage, Walk, At, Get32, TypeAt, Align4, AttributeLines, HoldsAttrs, Item.Valid, Item.Msg, AddressLines,
         OwnLines, ItemLines, Next, Rest, Budget;
    ItemInPlace(mem, nh, it);
    if it.WithAttrs? {
      AddressLinesOverhang(mem, nh, it.ty == RTM_DELADDR, it.attrs);
      OwnIs(mem, nh, it);
    } else {
      assert ItemLines(it) == [Unknown] by { OtherIs(it); }
    }
  }

  lemma OwnIs(mem: seq<byte>, nh: nat, it: Item)
    requires it.WithAttrs? && |it.fixed| == IFADDRMSG && Framed(mem, nh, |mem| - SLACK)
    requires mem[nh + HEADER..nh + HEADER + |it.fixed|] == it.fixed
    ensures OwnLines(mem, nh, it.ty == RTM_DELADDR, it.attrs) == ItemLines(it)
  {
    hide Get32;
  }

  lemma OtherIs(it: Item)
    requires it.Plain?
    ensures ItemLines(it) == [Unknown]
  {
  }

  /** The guard that adds a line behind message `it`. If a message follows, it is a bare
      header and `it` counts all its padding; behind the last message the bytes at
      `next` pass RTA_OK for the budget left. */
  predicate Shows(mem: seq<byte>, next: nat, it: Item, following: seq<Message>)
    requires next + SLACK <= |mem|
  {
    && it.WithAttrs?
    && if following != [] then following[0].Len() == HEADER && it.Len() % 4 == 0
       else RtaOk(mem, next, Budget(it.Len()))
  }

  lemma BehindIff(mem: seq<byte>, next: nat, len: nat, items: seq<Item>, tail: seq<Message>)
    requires items != [] && HoldsItems(mem, next, len, items[1..], tail)
    ensures next + SLACK <= |mem|
    ensures Behind(mem, next, items[0]) != [] <==> Shows(mem, next, items[0], Following(items, tail))
  {
    hide HoldsItems, Get32, AttributeLines, Walk, RtaOk, Item.Msg;
    var it := items[0];
    BehindFirst(mem, next, len, items[1..], tail);
    InMemory(mem, next, len, items[1..], tail);
    if it.WithAttrs? {
      LinesIff(mem, next, Budget(it.Len()));
      if Following(items, tail) != [] {
        WalkIntoHeader(mem, next, Budget(it.Len()));
        assert Budget(it.Len()) == 16 <==> it.Len() % 4 == 0;
      }
    }
  }

  lemma InMemory(mem: seq<byte>, off: nat, len: nat, items: seq<Item>, tail: seq<Message>)
    requires HoldsItems(mem, off, len, items, tail)
    ensures off + len + SLACK <= |mem|
  {
  }

  /** Some message from `off` on shows an extra line. */
  predicate AnyShows(mem: seq<byte>, off: nat, items: seq<Item>, tail: seq<Message>)
    requires End(off, items, tail) + SLACK <= |mem|
    decreases |items|
  {
    && items != []
    && var next := off + Align4(items[0].Len());
       EndAgain(off, items, tail);
       Shows(mem, next, items[0], Following(items, tail)) || AnyShows(mem, next, items[1..], tail)
  }

  lemma EndAgain(off: nat, items: seq<Item>, tail: seq<Message>)
    requires items != []
    ensures var next := off + Align4(items[0].Len());
            next <= End(next, items[1..], tail) == End(off, items, tail)
  {
    hide RawMessage, Align4, Item.Msg;
    assert (MessagesOf(items) + tail)[1..] == MessagesOf(items[1..]) + tail;
  }

  /** The lines of a datagram's messages are exactly those in them if and only if none
      shows an extra one; they are never fewer. */
  lemma {:induction false} LinesInDatagram(mem: seq<byte>, off: nat, len: nat, items: seq<Item>, tail: seq<Message>)
    requires HoldsItems(mem, off, len, items, tail) && AllAddrItems(items)
    requires AllFramed(mem, MessageOffsets(off, MessagesOf(items)), |mem| - SLACK)
    ensures End(off, items, tail) + SLACK <= |mem|
    ensures var lines := AllLines(mem, MessageOffsets(off, MessagesOf(items)));
            && |lines| >= |LinesIn(items)|
            && (lines == LinesIn(items) <==> !AnyShows(mem, off, items, tail))
    decreases |items|
  {
    hide At, RawMessage, AllFramed, AllLines, MessageLines, MessageOffsets, Align4, HoldsItems, Item.Msg, ItemLines,
         IsAddrItem, Item.Valid, End, Behind, Shows;
    EndInMemory(mem, off, len, items, tail);
    if items == [] {
      NoMessages(mem, off);
    } else {
      var it, rest := items[0], items[1..];
      var next := off + Align4(it.Len());
      HoldsFewerItems(mem, off, len, items, tail);
      assert items[0] in items;
      LinesOfItem(mem, off, it);
      FirstLines(mem, off, items);
      LinesInDatagram(mem, next, off + len - next, rest, tail);
      BehindIff(mem, next, off + len - next, items, tail);
      Cancel(ItemLines(it), Behind(mem, next, it), AllLines(mem, MessageOffsets(next, MessagesOf(rest))),
             LinesIn(rest));
    }
  }

  lemma NoMessages(mem: seq<byte>, off: nat)
    ensures AllFramed(mem, MessageOffsets(off, MessagesOf([])), |mem| - SLACK)
    ensures AllLines(mem, MessageOffsets(off, MessagesOf([]))) == []
  {
  }

  lemma FirstLines(mem: seq<byte>, off: nat, items: seq<Item>)
    requires items != [] && Framed(mem, off, |mem| - SLACK)
    requires AllFramed(mem, MessageOffsets(off, MessagesOf(items)), |mem| - SLACK)
    ensures var later := MessageOffsets(off + Align4(items[0].Len()), MessagesOf(items[1..]));
            && AllFramed(mem, later, |mem| - SLACK)
            && AllLines(mem, MessageOffsets(off, MessagesOf(items))) == MessageLines(mem, off) + AllLines(mem, later)
  {
    hide Framed, MessageLines, Align4, Item.Msg;
    FirstOffset(off, items);
    var later := MessageOffsets(off + Align4(items[0].Len()), MessagesOf(items[1..]));
    assert MessageOffsets(off, MessagesOf(items))[1..] == later;
    forall i | 0 <= i < |later| ensures Framed(mem, later[i], |mem| - SLACK) {
      assert later[i] == MessageOffsets(off, MessagesOf(items))[i + 1];
    }
  }

  // Whole runs.

  function PartLines(p: Part): seq<Line> {
    if p.Lost? then [] else LinesIn(p.items)
  }

  predicate AddrPart(p: Part) { p.Part? ==> AllAddrItems(p.items) }

  predicate PartShows(r: Receipt, p: Part)
    requires Carries(r, p)
  {
    && p.Part?
    && (EndInMemory(r.mem, 0, r.len, p.items, p.tail);
        AnyShows(r.mem, 0, p.items, p.tail))
  }

  /** One receipt: exactly the lines sent if and only if no message shows an extra one;
      it ends the run if it failed or an ERROR ends the datagram. */
  lemma DatagramLinesExactIff(r: Receipt, p: Part)
    requires Carries(r, p) && AddrPart(p)
    ensures |ReceiptLines(r)| >= |PartLines(p)|
    ensures ReceiptLines(r) == PartLines(p) <==> !PartShows(r, p)
    ensures Ends(r) <==> p.Lost? || EndingType(p.tail) == NLMSG_ERROR
  {
    hide Offsets, Handled, StopType, AllFramed, HoldsItems, AnyShows, End, AllLines, LinesIn, MessageOffsets,
         EndingType;
    if p.Part? {
      DatagramHandled(r.mem, 0, r.len, p.items, p.tail);
      LinesInDatagram(r.mem, 0, r.len, p.items, p.tail);
    }
  }

  /** The lines of several parts. */
  function AllLinesIn(parts: seq<Part>): seq<Line> {
    if parts == [] then [] else AllLinesIn(parts[..|parts| - 1]) + PartLines(parts[|parts| - 1])
  }

  ghost predicate NothingShows(input: seq<Receipt>, parts: seq<Part>)
    requires AllCarry(input, parts)
  {
    forall i :: 0 <= i < |parts| ==> !PartShows(input[i], parts[i])
  }

  /** A whole run: over all the receipts read, whatever ends them, if-addrs prints
      exactly the lines sent, in order, if and only if no message shows an extra one.
      It never prints fewer. */
  lemma {:induction false} RunIsExactIff(input: seq<Receipt>, parts: seq<Part>)
    requires AllCarry(input, parts) && forall i :: 0 <= i < |parts| ==> AddrPart(parts[i])
    ensures forall i :: 0 <= i < |input| ==> input[i].Valid()
    ensures |LinesOf(input)| >= |AllLinesIn(parts)|
    ensures LinesOf(input) == AllLinesIn(parts) <==> NothingShows(input, parts)
    decreases |input|
  {
    hide PartLines, AddrPart, ReceiptLines, PartShows, HoldsItems;
    if input != [] {
      var n := |input| - 1;
      RunIsExactIff(input[..n], parts[..n]);
      DatagramLinesExactIff(input[n], parts[n]);
      CancelLast(LinesOf(input[..n]), ReceiptLines(input[n]), AllLinesIn(parts[..n]), PartLines(parts[n]));
      assert NothingShows(input, parts) <==> NothingShows(input[..n], parts[..n]) && !PartShows(input[n], parts[n]);
    }
  }

  lemma CancelLast<T>(a: seq<T>, x: seq<T>, b: seq<T>, y: seq<T>)
    requires |a| >= |b| && |x| >= |y|
    ensures a + x == b + y <==> a == b && x == y
  {
    if a + x == b + y {
      assert a == (a + x)[..|a|] && b == (b + y)[..|b|];
      assert x == (a + x)[|a|..] && y == (b + y)[|b|..];
    }
  }

  // A notification: one address message alone in its datagram, as the kernel sends them.

  /** Its output is exact if and only if what the buffer held behind it before does not
      pass RTA_OK. */
  lemma NotificationExactIff(r: Receipt, it: Item)
    requires Carries(r, Part([it], [])) && IsAddrItem(it) && it.WithAttrs?
    ensures Align4(it.Len()) + SLACK <= |r.mem|
    ensures ReceiptLines(r) == ItemLines(it) <==> !RtaOk(r.mem, Align4(it.Len()), Budget(it.Len()))
  {
    hide Carries, AnyShows, ReceiptLines, RtaOk, ItemLines, Budget, Item.Msg, End, IsAddrItem;
    var p := Part([it], []);
    DatagramLinesExactIff(r, p);
    PartInMemory(r, p);
    OneItem(r.mem, it);
  }

  lemma PartInMemory(r: Receipt, p: Part)
    requires Carries(r, p) && p.Part?
    ensures r.Datagram? && End(0, p.items, p.tail) + SLACK <= |r.mem|
  {
    hide HoldsItems, End;
    EndInMemory(r.mem, 0, r.len, p.items, p.tail);
  }

  lemma OneItem(mem: seq<byte>, it: Item)
    requires End(0, [it], []) + SLACK <= |mem|
    ensures Align4(it.Len()) + SLACK <= |mem| && LinesIn([it]) == ItemLines(it)
    ensures AnyShows(mem, 0, [it], []) <==> Shows(mem, Align4(it.Len()), it, [])
  {
    hide RtaOk, ItemLines, Budget, Item.Msg, End, Align4;
    assert [it][1..] == [] && MessagesOf([]) + [] == [];
    EndAgain(0, [it], []);
    assert ItemLines(it) + [] == ItemLines(it);
  }

  /** An address without attributes, and behind it what an earlier datagram left in the
      buffer: an attribute of type 3 (IFA_LABEL) with the name `a`. */
  const BARE_ADDR := WithAttrs(RTM_NEWADDR, 0, 0, 0, Zeros(IFADDRMSG), [], 0)
  const STALE := Attr(3, [97, 0])

  lemma StaleBytes()
    ensures RawMessage(BARE_ADDR.Msg()) == [24, 0, 0, 0, 20, 0, 0, 0, 0, 0, 0, 0, 0, 0, 0, 0] + Zeros(8)
    ensures Raw(STALE) == [6, 0, 3, 0, 97, 0]
  {
    assert Encode([]) == [];
    assert Zeros(8) + [] + Zeros(0) == Zeros(8);
  }

  function StaleReceipt(): (r: Receipt)
    ensures r.Datagram? && r.len == 24 && r.Valid() && |r.mem| == BUFFER + SLACK
    ensures At(r.mem, 0, RawMessage(BARE_ADDR.Msg())) && At(r.mem, 24, Raw(STALE))
    ensures r.mem[32] == r.mem[33] == 0
  {
    StaleBytes();
    Datagram([24, 0, 0, 0, 20, 0, 0, 0, 0, 0, 0, 0, 0, 0, 0, 0] + Zeros(8) + [6, 0, 3, 0, 97, 0] + Zeros(8178), 24)
  }

  /** if-addrs prints a label that was not sent. */
  lemma StaleLineIsPrinted()
    ensures Carries(StaleReceipt(), Part([BARE_ADDR], []))
    ensures ItemLines(BARE_ADDR) == [Address(false, Zeros(IFADDRMSG))]
    ensures ReceiptLines(StaleReceipt()) == [Address(false, Zeros(IFADDRMSG)), Attribute(STALE)]
  {
    hide StaleReceipt, HoldsItems, Behind, Offsets, Handled, StopType, AllFramed, MessageLines, RawMessage, At;
    var mem := StaleReceipt().mem;
    BareAddrAlone(mem);
    DatagramHandled(mem, 0, 24, [BARE_ADDR], []);
    OneMessage(mem, BARE_ADDR);
    LinesOfItem(mem, 0, BARE_ADDR);
    StaleIs(mem);
    assert Lines([]) == [];
  }

  lemma OneMessage(mem: seq<byte>, it: Item)
    ensures MessageOffsets(0, MessagesOf([it])) == [0]
    ensures Framed(mem, 0, |mem| - SLACK) ==> AllLines(mem, [0]) == MessageLines(mem, 0)
  {
    hide MessageLines;
    FirstOffset(0, [it]);
    assert [it][1..] == [];
    if Framed(mem, 0, |mem| - SLACK) {
      assert AllLines(mem, [0]) == MessageLines(mem, 0) + [];
    }
  }

  lemma BareAddrAlone(mem: seq<byte>)
    requires |mem| == BUFFER + SLACK && At(mem, 0, RawMessage(BARE_ADDR.Msg()))
    ensures HoldsItems(mem, 0, 24, [BARE_ADDR], []) && BARE_ADDR.Valid() && BARE_ADDR.Len() == 24
  {
    hide RawMessage, At;
    var msg := BARE_ADDR.Msg();
    assert MessagesOf([BARE_ADDR]) + [] == [msg];
    assert [msg][1..] == [] && DatagramBytes([]) == [];
    assert Pad4(RawMessage(msg)) == RawMessage(msg);
    assert DatagramBytes([msg]) == RawMessage(msg) + [];
  }

  lemma StaleIs(mem: seq<byte>)
    requires |mem| == BUFFER + SLACK && At(mem, 24, Raw(STALE)) && mem[32] == mem[33] == 0
    ensures BARE_ADDR.Len() == 24 && Behind(mem, 24, BARE_ADDR) == [Attribute(STALE)]
  {
    hide Raw, Walk, At;
    assert BARE_ADDR.Len() == 24 && Budget(24) == 16 && Align4(STALE.Len()) == 8;
    WalkStep(mem, 24, 16, STALE);
    StopsAtZeros(mem, 32, 8);
    assert [Visit(24, STALE)] + [] == [Visit(24, STALE)];
    assert AttributeLines([Visit(24, STALE)]) == [Attribute(STALE)];
  }
}
