/** The single-producer single-consumer rings of libbpf's xsk.h: free-running 32-bit
    indices that wrap, a slot found by masking an index, and an application that
    works on private copies of both indices. Each operation is stated beside the
    same operation on an unbounded log, and the lemmas say that the two agree past
    any number of wraparounds. libbpf itself is not part of the repository: these
    definitions are what af_xdp/ relies on. */
module XskRing {
  import opened Bytes

  /** Default frame size, and what RX and TX slots hold: fill and completion slots
      hold an address alone. */
  const FRAME := 4096

  datatype Desc = Desc(addr: nat, len: nat)

  function Add32(a: nat, b: nat): u32 { (a + b) % U32 }

  function Sub32(a: int, b: int): u32 { (a - b) % U32 }

  function Pow2(k: nat): (p: nat)
    ensures p > 0
  {
    if k == 0 then 1 else 2 * Pow2(k - 1)
  }

  /** Bitwise and. */
  function BitAnd(x: nat, y: nat): nat
  {
    if x == 0 || y == 0 then 0 else 2 * BitAnd(x / 2, y / 2) + (x % 2) * (y % 2)
  }

  // Remainders modulo a power of two.

  lemma MulAtLeast(k: int, d: nat)
    requires k >= 1
    ensures k * d >= d
  {
    assert k * d == (k - 1) * d + d;
    assert (k - 1) * d >= 0;
  }

  lemma ModIs(x: nat, d: nat, q: int, r: nat)
    requires d > 0 && r < d && x == q * d + r
    ensures x % d == r
  {
    var k := x / d - q;
    assert x == x / d * d + x % d;
    assert k * d == x / d * d - q * d;
    if k >= 1 {
      MulAtLeast(k, d);
    } else if k <= -1 {
      MulAtLeast(-k, d);
    }
  }

  lemma HalfMod(x: nat, p: nat)
    requires p > 0
    ensures x % (2 * p) == 2 * (x / 2 % p) + x % 2
  {
    var q, r := x / 2 / p, x / 2 % p;
    assert x / 2 == q * p + r;
    assert q * (2 * p) == 2 * (q * p);
    ModIs(x, 2 * p, q, 2 * r + x % 2);
  }

  /** Masking with 2^k - 1 is the remainder modulo 2^k. */
  lemma {:induction false} MaskIsMod(x: nat, k: nat)
    ensures BitAnd(x, Pow2(k) - 1) == x % Pow2(k)
    decreases k
  {
    hide BitAnd, Pow2;
    if k == 0 {
      MaskZero(x);
    } else {
      var p := Pow2(k - 1);
      MaskIsMod(x / 2, k - 1);
      HalfMod(x, p);
      MaskStep(x, p);
      assert Pow2(k) == 2 * p by { Pow2Doubles(k); }
    }
  }

  lemma MaskZero(x: nat)
    ensures BitAnd(x, Pow2(0) - 1) == x % Pow2(0) == 0
  {
  }

  lemma Pow2Doubles(k: nat)
    requires k > 0
    ensures Pow2(k) == 2 * Pow2(k - 1)
  {
  }

  lemma MaskStep(x: nat, p: nat)
    requires p > 0
    ensures BitAnd(x, 2 * p - 1) == 2 * BitAnd(x / 2, p - 1) + x % 2
  {
    assert (2 * p - 1) / 2 == p - 1 && (2 * p - 1) % 2 == 1;
  }

  /** Cutting a number to more bits first does not change its low bits. */
  lemma {:induction false} ModMod(n: nat, k: nat, m: nat)
    requires k <= m
    ensures n % Pow2(m) % Pow2(k) == n % Pow2(k)
    decreases k
  {
    if k > 0 {
      var y := n % Pow2(m);
      HalfMod(n, Pow2(m - 1));
      HalfMod(n, Pow2(k - 1));
      HalfMod(y, Pow2(k - 1));
      ModMod(n / 2, k - 1, m - 1);
      HalvesOf(y, n / 2 % Pow2(m - 1), n % 2);
    }
  }

  lemma HalvesOf(y: nat, h: nat, b: nat)
    requires y == 2 * h + b && b < 2
    ensures y / 2 == h && y % 2 == b
  {
  }

  /** Wrapping an index at 2^32 does not change its slot. */
  lemma WrapKeepsSlot(n: nat, k: nat)
    requires k <= 32
    ensures BitAnd(n % U32, Pow2(k) - 1) == n % Pow2(k)
  {
    MaskIsMod(n % U32, k);
    Pow2Of32();
    ModMod(n, k, 32);
  }

  lemma Pow2Of32()
    ensures Pow2(32) == U32
  {
    assert Pow2(8) == 256;
    assert Pow2(16) == 256 * Pow2(8);
    assert Pow2(24) == 256 * Pow2(16);
  }

  // The ring as libbpf keeps it.

  /** `size` is 2^order. `producer` and `consumer` are shared with the kernel, the
      cached indices belong to the application. For a ring it produces on,
      `cachedCons` runs `size` ahead of the consumer index it stands for. */
  datatype Ring<T> = Ring(order: nat, slots: seq<T>, producer: u32, consumer: u32, cachedProd: u32, cachedCons: u32) {
    predicate Valid() { order <= 31 && |slots| == Pow2(order) }

    function Slot(idx: u32): (i: nat)
      requires Valid()
      ensures i < |slots|
    {
      MaskIsMod(idx, order);
      BitAnd(idx, Pow2(order) - 1)
    }

    // The application as producer.

    /** `nb` slots or none; the consumer index is read only when the private copy
        leaves too few. Gives the ring, the number granted and the first index. */
    function Reserve(nb: u32): (Ring<T>, u32, u32)
    {
      var r := if Sub32(cachedCons, cachedProd) >= nb then this
               else this.(cachedCons := Add32(consumer, Pow2(order)));
      if Sub32(r.cachedCons, r.cachedProd) < nb then (r, 0, 0)
      else (r.(cachedProd := Add32(r.cachedProd, nb)), nb, r.cachedProd)
    }

    function Write(idx: u32, v: T): Ring<T>
      requires Valid()
    {
      this.(slots := slots[Slot(idx) := v])
    }

    function Submit(nb: u32): Ring<T> { this.(producer := Add32(producer, nb)) }

    // The application as consumer.

    /** At most `nb` entries; the producer index is read only when the private copy
        shows none. Gives the ring, the number and the first index. */
    function Peek(nb: u32): (Ring<T>, u32, u32)
    {
      var r := if Sub32(cachedProd, cachedCons) != 0 then this else this.(cachedProd := producer);
      var entries := Sub32(r.cachedProd, r.cachedCons);
      var n := if entries > nb then nb else entries;
      (r.(cachedCons := Add32(r.cachedCons, n)), n, r.cachedCons)
    }

    function Read(idx: u32): T
      requires Valid()
    {
      slots[Slot(idx)]
    }

    function Release(nb: u32): Ring<T> { this.(consumer := Add32(consumer, nb)) }

    // The kernel's side.

    predicate HasEntry() { producer != consumer }

    function Take(): (Ring<T>, T)
      requires Valid()
    {
      (this.(consumer := Add32(consumer, 1)), Read(consumer))
    }

    predicate HasRoom() { Sub32(producer, consumer) < Pow2(order) }

    function Publish(v: T): Ring<T>
      requires Valid()
    {
      Write(producer, v).(producer := Add32(producer, 1))
    }
  }

  // Unbounded logs.

  /** Everything the application ever wrote to a ring, and how far each step got:
      `taken` by the kernel, `submitted` to it, `reserved`; `seen` is the kernel's
      position the application knows of. */
  datatype ProdLog<T> = ProdLog(log: seq<T>, reserved: nat, submitted: nat, taken: nat, seen: nat) {
    predicate Valid(size: nat) {
      seen <= taken <= submitted <= |log| <= reserved <= seen + size
    }

    function Reserve(nb: nat, size: nat): (ProdLog<T>, nat)
    {
      var q := if seen + size - reserved >= nb then this else this.(seen := taken);
      if q.seen + size - reserved < nb then (q, 0) else (q.(reserved := reserved + nb), nb)
    }
  }

  /** Everything the kernel ever put on a ring, and how far the application got:
      `released` entries given back, `claimed` by a peek, `seen` known to it. */
  datatype ConsLog<T> = ConsLog(log: seq<T>, seen: nat, claimed: nat, released: nat) {
    predicate Valid(size: nat) {
      released <= claimed <= seen <= |log| <= released + size
    }

    function Peek(nb: nat): (ConsLog<T>, nat)
    {
      var q := if seen != claimed then this else this.(seen := |log|);
      var n := if q.seen < claimed then 0 else if q.seen - claimed > nb then nb else q.seen - claimed;
      (q.(claimed := claimed + n), n)
    }
  }

  /** The ring shows a window of the log. */
  ghost predicate Window<T>(r: Ring<T>, log: seq<T>, lo: nat) {
    && r.Valid() && lo <= |log| <= lo + |r.slots|
    && forall k :: lo <= k < |log| ==> r.slots[k % |r.slots|] == log[k]
  }

  ghost predicate ProdCoupled<T>(r: Ring<T>, q: ProdLog<T>) {
    && Window(r, q.log, q.taken) && q.Valid(Pow2(r.order))
    && r.producer == q.submitted % U32 && r.consumer == q.taken % U32
    && r.cachedProd == q.reserved % U32 && r.cachedCons == (q.seen + Pow2(r.order)) % U32
  }

  ghost predicate ConsCoupled<T>(r: Ring<T>, q: ConsLog<T>) {
    && Window(r, q.log, q.released) && q.Valid(Pow2(r.order))
    && r.producer == |q.log| % U32 && r.consumer == q.released % U32
    && r.cachedProd == q.seen % U32 && r.cachedCons == q.claimed % U32
  }

  // Index arithmetic.

  lemma AddWraps(a: nat, n: nat)
    ensures Add32(a % U32, n) == (a + n) % U32
  {
    var low := a % U32 + n;
    ModIs(a + n, U32, a / U32 + low / U32, low % U32);
  }

  /** The distance of two wrapped indices is exact as long as it is below 2^32. */
  lemma SubWraps(a: nat, b: nat)
    requires b <= a < b + U32
    ensures Sub32(a % U32, b % U32) == a - b
  {
    AddWraps(b, a - b);
  }

  lemma Pow2Bound(k: nat)
    requires k <= 31
    ensures Pow2(k) <= 0x8000_0000
  {
    Pow2Grows(k, 31);
    Pow2Of32();
  }

  lemma {:induction false} Pow2Grows(k: nat, n: nat)
    requires k <= n
    ensures Pow2(k) <= Pow2(n)
    decreases n
  {
    if k < n {
      Pow2Grows(k, n - 1);
    }
  }

  // Slots.

  lemma SlotOf<T>(r: Ring<T>, n: nat)
    requires r.Valid()
    ensures r.Slot(n % U32) == n % |r.slots|
  {
    WrapKeepsSlot(n, r.order);
  }

  /** Two log positions less than a ring apart have different slots. */
  lemma SlotsDiffer(a: nat, b: nat, size: nat)
    requires a < b < a + size
    ensures a % size != b % size
  {
    if a % size == b % size {
      var k := b / size - a / size;
      assert b - a == k * size by {
        assert b == b / size * size + b % size && a == a / size * size + a % size;
        assert k * size == b / size * size - a / size * size;
      }
      if k >= 1 {
        MulAtLeast(k, size);
      }
    }
  }

  lemma ReadWindow<T>(r: Ring<T>, log: seq<T>, lo: nat, k: nat)
    requires Window(r, log, lo) && lo <= k < |log|
    ensures r.Read(k % U32) == log[k]
  {
    SlotOf(r, k);
  }

  lemma WindowSize<T>(r: Ring<T>, log: seq<T>, lo: nat)
    requires Window(r, log, lo)
    ensures r.Valid() && Pow2(r.order) <= 0x8000_0000
  {
    Pow2Bound(r.order);
  }

  /** The window depends on the slots alone. */
  lemma SameWindow<T>(r: Ring<T>, r': Ring<T>, log: seq<T>, lo: nat)
    requires Window(r, log, lo) && r'.slots == r.slots && r'.order == r.order
    ensures Window(r', log, lo)
  {
  }

  lemma ShorterWindow<T>(r: Ring<T>, log: seq<T>, lo: nat)
    requires Window(r, log, lo) && lo < |log|
    ensures Window(r, log, lo + 1)
  {
  }

  /** A value written at the next index extends the window by that value. */
  lemma WriteWindow<T>(r: Ring<T>, log: seq<T>, lo: nat, v: T)
    requires Window(r, log, lo) && |log| < lo + |r.slots|
    ensures Window(r.Write(|log| % U32, v), log + [v], lo)
  {
    SlotOf(r, |log|);
    var size := |r.slots|;
    forall k | lo <= k < |log| ensures k % size != |log| % size {
      SlotsDiffer(k, |log|, size);
    }
  }

  // Each operation agrees with the log, whatever the indices have wrapped to.

  /** Free slots by the private copies, and after reading the consumer index. */
  lemma FreeAgrees<T>(r: Ring<T>, q: ProdLog<T>)
    requires ProdCoupled(r, q)
    ensures q.seen <= q.taken
    ensures Sub32(r.cachedCons, r.cachedProd) == q.seen + Pow2(r.order) - q.reserved
    ensures Add32(r.consumer, Pow2(r.order)) == (q.taken + Pow2(r.order)) % U32
    ensures Sub32(Add32(r.consumer, Pow2(r.order)), r.cachedProd) == q.taken + Pow2(r.order) - q.reserved
  {
    hide Add32, Sub32, Window, Pow2;
    WindowSize(r, q.log, q.taken);
    FreeNumbers(q.seen, q.taken, q.reserved, Pow2(r.order));
  }

  lemma FreeNumbers(seen: nat, taken: nat, reserved: nat, size: nat)
    requires seen <= taken <= reserved <= seen + size && size < U32
    ensures Sub32((seen + size) % U32, reserved % U32) == seen + size - reserved
    ensures Add32(taken % U32, size) == (taken + size) % U32
    ensures Sub32((taken + size) % U32, reserved % U32) == taken + size - reserved
  {
    hide Add32, Sub32;
    SubWraps(seen + size, reserved);
    SubWraps(taken + size, reserved);
    AddWraps(taken, size);
  }

  /** The consumer index is read. */
  lemma RefreshAgrees<T>(r: Ring<T>, q: ProdLog<T>)
    requires ProdCoupled(r, q)
    ensures ProdCoupled(r.(cachedCons := Add32(r.consumer, Pow2(r.order))), q.(seen := q.taken))
  {
    hide Add32, Sub32, Window, Pow2;
    FreeAgrees(r, q);
    SameWindow(r, r.(cachedCons := Add32(r.consumer, Pow2(r.order))), q.log, q.taken);
  }

  /** `nb` slots are taken. */
  lemma GrantAgrees<T>(r: Ring<T>, q: ProdLog<T>, nb: u32)
    requires ProdCoupled(r, q) && q.reserved + nb <= q.seen + Pow2(r.order)
    ensures r.cachedProd == q.reserved % U32
    ensures ProdCoupled(r.(cachedProd := Add32(r.cachedProd, nb)), q.(reserved := q.reserved + nb))
  {
    hide Add32, Window, Pow2;
    AddWraps(q.reserved, nb);
    SameWindow(r, r.(cachedProd := Add32(r.cachedProd, nb)), q.log, q.taken);
  }

  /** A reserve grants all `nb` slots exactly when the kernel has left that many free. */
  lemma ReserveAgrees<T>(r: Ring<T>, q: ProdLog<T>, nb: u32)
    requires ProdCoupled(r, q)
    ensures var (r', n, idx) := r.Reserve(nb);
            var (q', m) := q.Reserve(nb, Pow2(r.order));
            && ProdCoupled(r', q') && r'.order == r.order && n == m
            && (0 < n ==> idx == q.reserved % U32)
    ensures r.Reserve(nb).1 == if q.reserved + nb <= q.taken + Pow2(r.order) then nb else 0
  {
    hide Add32, Sub32, Pow2, ProdCoupled;
    FreeAgrees(r, q);
    if q.seen + Pow2(r.order) - q.reserved >= nb {
      GrantAgrees(r, q, nb);
    } else {
      RefreshAgrees(r, q);
      if q.taken + Pow2(r.order) - q.reserved >= nb {
        GrantAgrees(r.(cachedCons := Add32(r.consumer, Pow2(r.order))), q.(seen := q.taken), nb);
      }
    }
  }

  /** Slots are written in order: the next one behind the log. */
  lemma WriteAgrees<T>(r: Ring<T>, q: ProdLog<T>, v: T)
    requires ProdCoupled(r, q) && |q.log| < q.reserved
    ensures var r' := r.Write(|q.log| % U32, v);
            ProdCoupled(r', q.(log := q.log + [v])) && r'.order == r.order
  {
    WriteWindow(r, q.log, q.taken, v);
  }

  lemma SubmitAgrees<T>(r: Ring<T>, q: ProdLog<T>, nb: u32)
    requires ProdCoupled(r, q) && q.submitted + nb <= |q.log|
    ensures ProdCoupled(r.Submit(nb), q.(submitted := q.submitted + nb))
  {
    AddWraps(q.submitted, nb);
  }

  /** The kernel finds an entry exactly when one is submitted and not taken, and it
      gets the oldest. */
  lemma TakeAgrees<T>(r: Ring<T>, q: ProdLog<T>)
    requires ProdCoupled(r, q)
    ensures r.HasEntry() <==> q.taken < q.submitted
    ensures r.HasEntry() ==>
              var (r', v) := r.Take();
              v == q.log[q.taken] && ProdCoupled(r', q.(taken := q.taken + 1)) && r'.order == r.order
  {
    hide Pow2, Add32, Window, Ring.Read;
    WindowSize(r, q.log, q.taken);
    EntryAgrees(r, q);
    if r.HasEntry() {
      ReadWindow(r, q.log, q.taken, q.taken);
      ShorterWindow(r, q.log, q.taken);
      SameWindow(r, r.(consumer := Add32(r.consumer, 1)), q.log, q.taken + 1);
      AddWraps(q.taken, 1);
    }
  }

  lemma EntryAgrees<T>(r: Ring<T>, q: ProdLog<T>)
    requires ProdCoupled(r, q)
    ensures r.HasEntry() <==> q.taken < q.submitted
  {
    hide Pow2, Window, Sub32;
    WindowSize(r, q.log, q.taken);
    SubWraps(q.submitted, q.taken);
    SubWraps(q.taken, q.taken);
  }

  /** A peek claims the entries the application knows of, or if it knows of none all
      there are, but at most `nb`. */
  lemma PeekAgrees<T>(r: Ring<T>, q: ConsLog<T>, nb: u32)
    requires ConsCoupled(r, q)
    ensures var (r', n, idx) := r.Peek(nb);
            var (q', m) := q.Peek(nb);
            && ConsCoupled(r', q') && r'.order == r.order && n == m <= nb && idx == q.claimed % U32
    ensures q.claimed <= q.seen <= |q.log|
    ensures var known, all := q.seen - q.claimed, |q.log| - q.claimed;
            var (r', n, idx) := r.Peek(nb);
            n == Min(nb, if known != 0 then known else all)
    ensures var (r', n, idx) := r.Peek(nb);
            q.Peek(nb).0 == q.(seen := if q.seen != q.claimed then q.seen else |q.log|, claimed := q.claimed + n)
  {
    Pow2Bound(r.order);
    SubWraps(q.seen, q.claimed);
    SubWraps(|q.log|, q.claimed);
    var n := q.Peek(nb).1;
    AddWraps(q.claimed, n);
    hide Sub32, Add32, Window, Pow2;
  }

  lemma ReleaseAgrees<T>(r: Ring<T>, q: ConsLog<T>, nb: u32)
    requires ConsCoupled(r, q) && q.released + nb <= q.claimed
    ensures ConsCoupled(r.Release(nb), q.(released := q.released + nb))
  {
    AddWraps(q.released, nb);
  }

  /** The kernel may publish exactly when the application has released a slot, and
      what it publishes goes to the end of the log. */
  lemma PublishAgrees<T>(r: Ring<T>, q: ConsLog<T>, v: T)
    requires ConsCoupled(r, q)
    ensures r.HasRoom() <==> |q.log| < q.released + Pow2(r.order)
    ensures r.HasRoom() ==> ConsCoupled(r.Publish(v), q.(log := q.log + [v])) && r.Publish(v).order == r.order
  {
    Pow2Bound(r.order);
    SubWraps(|q.log|, q.released);
    if r.HasRoom() {
      WriteWindow(r, q.log, q.released, v);
      AddWraps(|q.log|, 1);
    }
  }
}
