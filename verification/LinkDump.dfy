/** What get-links prints for a dump: the names the kernel encoded, in order, and
    exactly when nothing else, although every walk runs past its message. */
module LinkDump {
  import opened Bytes
  import opened Attributes
  import opened Messages
  import opened Overhang
  import opened Datagrams
  import opened GetLinks

  /** Link messages with their names NUL-terminated, as rtnetlink(7) prescribes, and
      messages the program skips. */
  predicate IsLinkItem(it: Item) {
    match it
    case WithAttrs(ty, _, _, _, fixed, attrs, _) =>
      ty == RTM_NEWLINK && |fixed| == IFINFOMSG && AllTerminated(attrs)
    case Plain(msg) => msg.ty != RTM_NEWLINK
  }

  function Names(it: Item): seq<seq<byte>> {
    if it.WithAttrs? then NamesOf(it.attrs) else []
  }

  predicate Terminated(a: Attr) { a.ty == IFLA_IFNAME ==> 0 in a.payload }

  predicate AllTerminated(attrs: seq<Attr>) {
    forall i :: 0 <= i < |attrs| ==> Terminated(attrs[i])
  }

  /** The interface names in a list of attributes. */
  function NamesOf(attrs: seq<Attr>): seq<seq<byte>> {
    if attrs == [] then [] else NameOf(attrs[0]) + NamesOf(attrs[1..])
  }

  function NameOf(a: Attr): seq<seq<byte>> {
    if a.ty == IFLA_IFNAME then [CString(a.payload, 0)] else []
  }

  /** A terminated payload prints the same wherever it lies in memory. */
  lemma CStringInPlace(mem: seq<byte>, off: nat, payload: seq<byte>)
    requires At(mem, off, payload) && 0 in payload
    ensures CString(mem, off) == CString(payload, 0)
  {
    var s := CString(payload, 0);
    assert payload[..|s|] == s && 0 !in payload[..|s|];
    assert |s| < |payload|;
    assert mem[off..off + |payload|][..|s|] == mem[off..off + |s|];
    assert mem[off + |s|] == mem[off..off + |payload|][|s|];
    CStringIs(mem, off, s);
  }

  lemma NameInPlace(mem: seq<byte>, off: nat, a: Attr)
    requires At(mem, off, Raw(a)) && Terminated(a)
    ensures NameAt(mem, Visit(off, a)) == NameOf(a)
  {
    AtParts(mem, off, LE16(a.Len()) + LE16(a.ty), a.payload, off + 4);
    if a.ty == IFLA_IFNAME {
      CStringInPlace(mem, off + 4, a.payload);
    }
  }

  /** The names printed at the encoded places are the encoded names. */
  lemma {:induction false} NamesInPlace(mem: seq<byte>, off: nat, attrs: seq<Attr>)
    requires At(mem, off, Encode(attrs)) && AllTerminated(attrs)
    ensures NamesAt(mem, Visits(off, attrs)) == NamesOf(attrs)
    decreases |attrs|
  {
    hide Raw, Align4, At, Pad4, NameAt, NameOf;
    if attrs != [] {
      EncodeHead(mem, off, attrs);
      NameInPlace(mem, off, attrs[0]);
      assert Visits(off, attrs)[1..] == Visits(off + Align4(attrs[0].Len()), attrs[1..]);
      if |attrs| > 1 {
        NamesInPlace(mem, off + Align4(attrs[0].Len()), attrs[1..]);
      }
    }
  }

  lemma {:induction false} NamesAtConcat(mem: seq<byte>, a: seq<Visit>, b: seq<Visit>)
    ensures NamesAt(mem, a + b) == NamesAt(mem, a) + NamesAt(mem, b)
  {
    if a == [] {
      assert a + b == b;
    } else {
      assert (a + b)[1..] == a[1..] + b;
      NamesAtConcat(mem, a[1..], b);
    }
  }

  // Names behind a message.

  /** The guard of the walk that runs past a message: an attribute header that fits the
      budget and says IFLA_IFNAME, here or at a later step. */
  predicate ShowsName(mem: seq<byte>, off: nat, len: int)
    requires off + len <= |mem|
    decreases len
  {
    && RtaOk(mem, off, len)
    && (Get16(mem, off + 2) == IFLA_IFNAME
        || var step := Align4(Get16(mem, off));
           ShowsName(mem, off + step, len - step))
  }

  lemma {:induction false} PrintsIff(mem: seq<byte>, off: nat, len: int)
    requires off + len <= |mem|
    ensures NamesAt(mem, Walk(mem, off, len)) != [] <==> ShowsName(mem, off, len)
    decreases len
  {
    hide Align4, Get16, CString, Walk, NamesAt;
    NamesStep(mem, off, len);
    if RtaOk(mem, off, len) {
      var step := Align4(Get16(mem, off));
      PrintsIff(mem, off + step, len - step);
    }
  }

  /** No name shows where there is no attribute header of length 4 to 16, or the
      header of a message. */
  predicate Quiet(mem: seq<byte>, off: nat)
    requires off + 4 <= |mem|
  {
    !(4 <= Get16(mem, off) <= 16) || (Get16(mem, off) == 16 && Get16(mem, off + 2) == 0)
  }

  lemma QuietShowsNothing(mem: seq<byte>, off: nat, rest: nat)
    requires 13 <= rest <= 16 && off + rest <= |mem| && Quiet(mem, off)
    ensures !ShowsName(mem, off, rest)
  {
    hide Get16;
    if RtaOk(mem, off, rest) {
      assert !ShowsName(mem, off + 16, 0);
    }
  }

  lemma HeaderIsQuiet(mem: seq<byte>, off: nat)
    requires off + 4 <= |mem| && HEADER <= Get32(mem, off) <= BUFFER
    ensures Quiet(mem, off)
  {
    hide Get16, Get32;
    HeaderAsAttribute(mem, off);
  }

  /** One link message: its own names, then whatever the overhang shows. */
  lemma LinkNames(mem: seq<byte>, nh: nat, attrs: seq<Attr>)
    requires HoldsAttrs(mem, nh, IFINFOMSG, attrs) && AllTerminated(attrs)
    ensures Next(mem, nh) + Rest(mem, nh) <= |mem|
    ensures NamesAt(mem, LinkVisits(mem, nh))
            == NamesOf(attrs) + NamesAt(mem, Walk(mem, Next(mem, nh), Rest(mem, nh)))
  {
    hide Walk, At, Encode, Get32, Get16, Align4, Next, Rest, NamesAt, NamesOf, Visits, AllFit, AllTerminated;
    WalkOverhangs(mem, nh, IFINFOMSG, attrs);
    var off := nh + HEADER + IFINFOMSG;
    NamesInPlace(mem, off, attrs);
    NamesAtConcat(mem, Visits(off, attrs), Walk(mem, Next(mem, nh), Rest(mem, nh)));
  }

  /** The output for one message is exact if and only if no name shows behind it. */
  lemma LinkNamesExactIff(mem: seq<byte>, nh: nat, attrs: seq<Attr>)
    requires HoldsAttrs(mem, nh, IFINFOMSG, attrs) && AllTerminated(attrs)
    ensures Next(mem, nh) + Rest(mem, nh) <= |mem|
    ensures NamesAt(mem, LinkVisits(mem, nh)) == NamesOf(attrs)
            <==> !ShowsName(mem, Next(mem, nh), Rest(mem, nh))
  {
    hide Walk, At, Encode, AllFit, Align4, Get32, NamesAt, NamesOf, AllTerminated, ShowsName;
    LinkNames(mem, nh, attrs);
    PrintsIff(mem, Next(mem, nh), Rest(mem, nh));
  }

  /** Names in the bytes at `end` that the walk of a message, lying right before them,
      still has budget for. */
  function Behind(mem: seq<byte>, end: nat, it: Item): seq<seq<byte>>
    requires end + SLACK <= |mem|
  {
    if it.Plain? then [] else NamesAt(mem, Walk(mem, end, Budget(it.Len())))
  }

  /** A message of a dump prints its names and those behind it. */
  lemma ItemNames(mem: seq<byte>, nh: nat, it: Item)
    requires it.Valid() && IsLinkItem(it)
    requires At(mem, nh, RawMessage(it.Msg())) && nh + Align4(it.Len()) + SLACK <= |mem|
    ensures Framed(mem, nh, |mem| - SLACK)
    ensures MessageNames(mem, nh) == Names(it) + Behind(mem, nh + Align4(it.Len()), it)
  {
    hide RawMessage, Walk, At, Get32, TypeAt, Align4, NamesAt, NamesOf, HoldsAttrs, Item.Valid, Item.Msg,
         LinkVisits, AllTerminated;
    ItemInPlace(mem, nh, it);
    if it.WithAttrs? {
      LinkNames(mem, nh, it.attrs);
    }
  }

  lemma BehindIff(mem: seq<byte>, end: nat, it: Item)
    requires end + SLACK <= |mem|
    ensures Behind(mem, end, it) != [] <==> it.WithAttrs? && ShowsName(mem, end, Budget(it.Len()))
  {
    hide NamesAt, Walk, ShowsName, Budget, Item.Msg;
    if it.WithAttrs? {
      PrintsIff(mem, end, Budget(it.Len()));
    }
  }

  // Whole datagrams and whole dumps.

  predicate AllLinkItems(items: seq<Item>) {
    forall it :: it in items ==> IsLinkItem(it)
  }

  function NamesIn(items: seq<Item>): seq<seq<byte>> {
    if items == [] then [] else Names(items[0]) + NamesIn(items[1..])
  }

  /** What a datagram prints besides its names: those behind a link that comes last. */
  function Extra(mem: seq<byte>, end: nat, items: seq<Item>, tail: seq<Message>): seq<seq<byte>>
    requires end + SLACK <= |mem|
  {
    if items == [] || tail != [] then [] else Behind(mem, end, items[|items| - 1])
  }

  /** Behind any other message comes a header, and that shows no name. */
  lemma NothingBetween(mem: seq<byte>, off: nat, len: nat, it: Item, items: seq<Item>, tail: seq<Message>)
    requires HoldsItems(mem, off, len, items, tail) && MessagesOf(items) + tail != []
    ensures off + SLACK <= |mem| && Behind(mem, off, it) == []
  {
    hide Quiet, ShowsName, Behind, Budget, Get32, At, NlmsgOk;
    BehindFirst(mem, off, len, items, tail);
    HeaderIsQuiet(mem, off);
    BehindIff(mem, off, it);
    QuietShowsNothing(mem, off, Budget(it.Len()));
  }

  /** The names of a datagram's messages: those in them, then the extra ones. */
  lemma {:induction false} NamesInDatagram(mem: seq<byte>, off: nat, len: nat, items: seq<Item>, tail: seq<Message>)
    requires HoldsItems(mem, off, len, items, tail) && AllLinkItems(items)
    requires AllFramed(mem, MessageOffsets(off, MessagesOf(items)), |mem| - SLACK)
    ensures End(off, items, tail) + SLACK <= |mem|
    ensures AllNames(mem, MessageOffsets(off, MessagesOf(items)))
            == NamesIn(items) + Extra(mem, End(off, items, tail), items, tail)
    decreases |items|
  {
    hide At, RawMessage, AllFramed, AllNames, MessageNames, MessageOffsets, Align4, HoldsItems, Item.Msg, Names,
         IsLinkItem, Item.Valid, End, Behind, Extra;
    EndInMemory(mem, off, len, items, tail);
    if items == [] {
      NoMessages(mem, off, tail);
    } else {
      var it, rest := items[0], items[1..];
      var next := off + Align4(it.Len());
      HoldsFewerItems(mem, off, len, items, tail);
      assert items[0] in items;
      ItemNames(mem, off, it);
      FirstNames(mem, off, items);
      NamesInDatagram(mem, next, off + len - next, rest, tail);
      FirstExtra(mem, next, off + len - next, items, tail);
    }
  }

  lemma NoMessages(mem: seq<byte>, off: nat, tail: seq<Message>)
    requires End(off, [], tail) + SLACK <= |mem|
    ensures AllFramed(mem, MessageOffsets(off, MessagesOf([])), |mem| - SLACK)
    ensures AllNames(mem, MessageOffsets(off, MessagesOf([]))) == [] && Extra(mem, End(off, [], tail), [], tail) == []
  {
    hide End;
  }

  lemma FirstNames(mem: seq<byte>, off: nat, items: seq<Item>)
    requires items != [] && Framed(mem, off, |mem| - SLACK)
    requires AllFramed(mem, MessageOffsets(off, MessagesOf(items)), |mem| - SLACK)
    ensures var later := MessageOffsets(off + Align4(items[0].Len()), MessagesOf(items[1..]));
            && AllFramed(mem, later, |mem| - SLACK)
            && AllNames(mem, MessageOffsets(off, MessagesOf(items))) == MessageNames(mem, off) + AllNames(mem, later)
  {
    hide Framed, MessageNames, Align4, Item.Msg;
    FirstOffset(off, items);
    var later := MessageOffsets(off + Align4(items[0].Len()), MessagesOf(items[1..]));
    assert MessageOffsets(off, MessagesOf(items))[1..] == later;
    forall i | 0 <= i < |later| ensures Framed(mem, later[i], |mem| - SLACK) {
      assert later[i] == MessageOffsets(off, MessagesOf(items))[i + 1];
    }
  }

  /** Only behind the last message something extra can show. */
  lemma FirstExtra(mem: seq<byte>, next: nat, len: nat, items: seq<Item>, tail: seq<Message>)
    requires items != [] && HoldsItems(mem, next, len, items[1..], tail)
    ensures var end := End(next, items[1..], tail);
            && end + SLACK <= |mem| && next + SLACK <= |mem|
            && Extra(mem, end, items, tail) == Behind(mem, next, items[0]) + Extra(mem, end, items[1..], tail)
            && (items[1..] != [] ==> Behind(mem, next, items[0]) == [])
  {
    hide HoldsItems, Behind, End, Item.Msg;
    EndInMemory(mem, next, len, items[1..], tail);
    if MessagesOf(items[1..]) + tail != [] {
      NothingBetween(mem, next, len, items[0], items[1..], tail);
    } else {
      BehindFirst(mem, next, len, items[1..], tail);
    }
  }

  /** Return code of read_message for such a datagram. */
  function EndingCode(p: Part): int {
    if p.Lost? then -1
    else if EndingType(p.tail) == NLMSG_DONE then 1
    else if EndingType(p.tail) == NLMSG_ERROR then -1
    else 0
  }

  function PartNames(p: Part): seq<seq<byte>> {
    if p.Lost? then [] else NamesIn(p.items)
  }

  predicate LinkPart(p: Part) { p.Part? ==> AllLinkItems(p.items) }

  /** The names a received datagram prints besides its own. */
  function Stale(r: Receipt, p: Part): seq<seq<byte>>
    requires Carries(r, p)
  {
    if p.Lost? then []
    else
      EndInMemory(r.mem, 0, r.len, p.items, p.tail);
      Extra(r.mem, End(0, p.items, p.tail), p.items, p.tail)
  }

  /** One receipt: its names, then the stale ones, and the return code its end calls for. */
  lemma DatagramNames(r: Receipt, p: Part)
    requires Carries(r, p) && LinkPart(p)
    ensures ReceiptNames(r) == PartNames(p) + Stale(r, p) && Code(r) == EndingCode(p)
  {
    hide Offsets, Handled, StopType, AllFramed, HoldsItems, Extra, End, AllNames, NamesIn, MessageOffsets, EndingType;
    if p.Part? {
      DatagramHandled(r.mem, 0, r.len, p.items, p.tail);
      NamesInDatagram(r.mem, 0, r.len, p.items, p.tail);
    }
  }

  /** The datagram ends in a link message, and the bytes behind it show a name. */
  predicate ShowsStale(r: Receipt, p: Part)
    requires Carries(r, p)
  {
    && p.Part? && p.items != [] && p.tail == []
    && var last := p.items[|p.items| - 1];
       EndInMemory(r.mem, 0, r.len, p.items, p.tail);
       last.WithAttrs? && ShowsName(r.mem, End(0, p.items, p.tail), Budget(last.Len()))
  }

  lemma StaleIff(r: Receipt, p: Part)
    requires Carries(r, p)
    ensures Stale(r, p) != [] <==> ShowsStale(r, p)
  {
    hide HoldsItems, End, Behind, ShowsName, Budget, Item.Msg;
    if p.Part? {
      EndInMemory(r.mem, 0, r.len, p.items, p.tail);
      if p.items != [] {
        BehindIff(r.mem, End(0, p.items, p.tail), p.items[|p.items| - 1]);
      }
    }
  }

  function AllNamesIn(parts: seq<Part>): seq<seq<byte>> {
    if parts == [] then [] else PartNames(parts[0]) + AllNamesIn(parts[1..])
  }

  /** A run: the receipts carry these parts, and only the last of them ends it, by
      DONE, by ERROR or by a failed receive. */
  ghost predicate IsDump(input: seq<Receipt>, parts: seq<Part>) {
    && AllCarry(input, parts) && |parts| > 0
    && (forall i :: 0 <= i < |parts| ==> LinkPart(parts[i]))
    && (forall i :: 0 <= i < |parts| ==> (EndingCode(parts[i]) == 0 <==> i < |parts| - 1))
  }

  /** No datagram shows a stale name. */
  ghost predicate NothingStale(input: seq<Receipt>, parts: seq<Part>)
    requires IsDump(input, parts)
  {
    forall i :: 0 <= i < |parts| ==> !ShowsStale(input[i], parts[i])
  }

  /** The whole run: over any number of datagrams up to the first DONE, ERROR or failed
      receive, get-links prints exactly the interface names in them, in order, if and
      only if no datagram that ends in a link message has bytes behind it that show a
      name. It never prints fewer lines, and reads nothing of `later`. */
  lemma {:induction false} DumpIsExactIff(input: seq<Receipt>, parts: seq<Part>, later: seq<Receipt>)
    requires IsDump(input, parts) && GetLinks.AllValid(later)
    ensures GetLinks.AllValid(input + later)
    ensures |DumpNames(input + later)| >= |AllNamesIn(parts)|
    ensures DumpNames(input + later) == AllNamesIn(parts) <==> NothingStale(input, parts)
    decreases |input|
  {
    hide PartNames, LinkPart, EndingCode, ReceiptNames, Code, Stale, ShowsStale, HoldsItems;
    assert LinkPart(parts[0]);
    DatagramNames(input[0], parts[0]);
    StaleIff(input[0], parts[0]);
    assert (input + later)[1..] == input[1..] + later;
    var names, stale := PartNames(parts[0]), Stale(input[0], parts[0]);
    if |input| > 1 {
      DumpIsExactIff(input[1..], parts[1..], later);
      var rest := DumpNames(input[1..] + later);
      assert DumpNames(input + later) == names + stale + rest;
      Cancel(names, stale, rest, AllNamesIn(parts[1..]));
      assert NothingStale(input, parts) <==> stale == [] && NothingStale(input[1..], parts[1..]);
    } else {
      assert DumpNames(input + later) == names + stale + [];
      Cancel(names, stale, [], []);
    }
  }

  /** In particular it is exact if behind every datagram that ends in a link message
      there is no attribute header of length 4 to 16. */
  lemma DumpPrintsEveryName(input: seq<Receipt>, parts: seq<Part>, later: seq<Receipt>)
    requires IsDump(input, parts) && GetLinks.AllValid(later)
    requires forall i :: 0 <= i < |parts| ==> QuietAfter(input[i], parts[i])
    ensures GetLinks.AllValid(input + later)
    ensures DumpNames(input + later) == AllNamesIn(parts)
  {
    hide Carries, AllNamesIn, DumpNames, QuietAfter, ShowsStale;
    forall i | 0 <= i < |parts| ensures !ShowsStale(input[i], parts[i]) {
      QuietIsNotStale(input[i], parts[i]);
    }
    DumpIsExactIff(input, parts, later);
  }

  ghost predicate QuietAfter(r: Receipt, p: Part)
    requires Carries(r, p)
  {
    if p.Part? && p.items != [] && p.tail == [] && p.items[|p.items| - 1].WithAttrs? then
      EndInMemory(r.mem, 0, r.len, p.items, p.tail);
      Quiet(r.mem, End(0, p.items, p.tail))
    else true
  }

  lemma QuietIsNotStale(r: Receipt, p: Part)
    requires Carries(r, p) && QuietAfter(r, p)
    ensures !ShowsStale(r, p)
  {
    hide HoldsItems, Quiet, End, ShowsName, Budget, Item.Msg;
    if p.Part? && p.items != [] && p.tail == [] && p.items[|p.items| - 1].WithAttrs? {
      EndInMemory(r.mem, 0, r.len, p.items, p.tail);
      QuietShowsNothing(r.mem, End(0, p.items, p.tail), Budget(p.items[|p.items| - 1].Len()));
    }
  }

  // The condition is needed.

  /** A link message without attributes, alone in a datagram, and behind it what an
      earlier datagram left in the buffer: an attribute with the name `a`. */
  const BARE_LINK := WithAttrs(RTM_NEWLINK, 0, 0, 0, Zeros(IFINFOMSG), [], 0)
  const STALE := Attr(IFLA_IFNAME, [97, 0])

  lemma StaleBytes()
    ensures RawMessage(BARE_LINK.Msg()) == [32, 0, 0, 0, 16, 0, 0, 0, 0, 0, 0, 0, 0, 0, 0, 0] + Zeros(16)
    ensures Raw(STALE) == [6, 0, 3, 0, 97, 0]
  {
    assert Encode([]) == [];
    assert Zeros(16) + [] + Zeros(0) == Zeros(16);
  }

  function StaleReceipt(): (r: Receipt)
    ensures r.Datagram? && r.len == 32 && r.Valid() && |r.mem| == BUFFER + SLACK
    ensures At(r.mem, 0, RawMessage(BARE_LINK.Msg())) && At(r.mem, 32, Raw(STALE))
    ensures r.mem[40] == r.mem[41] == 0
  {
    StaleBytes();
    Datagram([32, 0, 0, 0, 16, 0, 0, 0, 0, 0, 0, 0, 0, 0, 0, 0] + Zeros(16) + [6, 0, 3, 0, 97, 0] + Zeros(8170), 32)
  }

  /** get-links prints a name that was not sent. */
  lemma StaleNameIsPrinted()
    ensures Carries(StaleReceipt(), Part([BARE_LINK], [])) && PartNames(Part([BARE_LINK], [])) == []
    ensures ReceiptNames(StaleReceipt()) == [[97]]
  {
    hide StaleReceipt, Stale, Code, ReceiptNames, HoldsItems;
    var r, p := StaleReceipt(), Part([BARE_LINK], []);
    BareLinkAlone(r.mem);
    DatagramNames(r, p);
    StaleIs(r);
    NothingSent(p.items);
  }

  lemma NothingSent(items: seq<Item>)
    requires items == [BARE_LINK]
    ensures NamesIn(items) == []
  {
    assert items[1..] == [];
  }

  lemma BareLinkAlone(mem: seq<byte>)
    requires |mem| == BUFFER + SLACK && At(mem, 0, RawMessage(BARE_LINK.Msg()))
    ensures HoldsItems(mem, 0, 32, [BARE_LINK], []) && End(0, [BARE_LINK], []) == 32
  {
    hide RawMessage, At;
    var msg := BARE_LINK.Msg();
    assert MessagesOf([BARE_LINK]) + [] == [msg];
    assert [msg][1..] == [] && DatagramBytes([]) == [];
    assert Pad4(RawMessage(msg)) == RawMessage(msg);
    assert DatagramBytes([msg]) == RawMessage(msg) + [];
  }

  lemma StaleIs(r: Receipt)
    requires Carries(r, Part([BARE_LINK], [])) && r.mem[40] == r.mem[41] == 0 && At(r.mem, 32, Raw(STALE))
    requires End(0, [BARE_LINK], []) == 32
    ensures Stale(r, Part([BARE_LINK], [])) == [[97]]
  {
    hide Raw, Walk, HoldsItems, End, NamesAt, At;
    assert BARE_LINK.Len() == 32 && Budget(32) == 16 && Align4(STALE.Len()) == 8;
    WalkStep(r.mem, 32, 16, STALE);
    StopsAtZeros(r.mem, 40, 8);
    NameInPlace(r.mem, 32, STALE);
    OneVisit(r.mem, Visit(32, STALE));
    assert CString([97, 0], 0) == [97];
  }

  lemma OneVisit(mem: seq<byte>, v: Visit)
    ensures [v] + [] == [v] && NamesAt(mem, [v]) == NameAt(mem, v)
  {
  }
}
