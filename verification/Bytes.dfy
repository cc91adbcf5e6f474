/** Byte strings as the netlink programs lay them out: little-endian fields,
    padding to four bytes, C strings, and writes into a zeroed buffer. */
module Bytes {

  type byte = n: nat | n < 256

  const U32 := 0x1_0000_0000

  type u32 = n: nat | n < 0x1_0000_0000

  /** A stored `unsigned short`: what does not fit in 16 bits is cut off. */
  function LE16(v: nat): (s: seq<byte>)
    ensures |s| == 2
  {
    [v % 256, v / 256 % 256]
  }

  /** A stored `__u32`: what does not fit in 32 bits is cut off. */
  function LE32(v: nat): (s: seq<byte>)
    ensures |s| == 4
  {
    [v % 256, v / 256 % 256, v / 65536 % 256, v / 16777216 % 256]
  }

  function Get16(s: seq<byte>, off: nat): (v: nat)
    requires off + 2 <= |s|
    ensures v < 65536
  {
    s[off] as int + 256 * (s[off + 1] as int)
  }

  function Get32(s: seq<byte>, off: nat): (v: nat)
    requires off + 4 <= |s|
    ensures v < 0x1_0000_0000
  {
    s[off] as int + 256 * (s[off + 1] as int) + 65536 * (s[off + 2] as int)
    + 16777216 * (s[off + 3] as int)
  }

  lemma Get16OfLE16(s: seq<byte>, off: nat, v: nat)
    requires off + 2 <= |s| && v < 65536
    requires s[off..off + 2] == LE16(v)
    ensures Get16(s, off) == v
  {
    assert s[off] == s[off..off + 2][0] && s[off + 1] == s[off..off + 2][1];
  }

  lemma Get32OfLE32(s: seq<byte>, off: nat, v: nat)
    requires off + 4 <= |s| && v < 0x1_0000_0000
    requires s[off..off + 4] == LE32(v)
    ensures Get32(s, off) == v
  {
    var f := s[off..off + 4];
    assert s[off] == f[0] && s[off + 1] == f[1] && s[off + 2] == f[2] && s[off + 3] == f[3];
    assert v / 65536 == v / 256 / 256 && v / 16777216 == v / 256 / 256 / 256;
  }

  /** NLMSG_ALIGN and RTA_ALIGN. */
  function Align4(n: nat): (r: nat)
    ensures r % 4 == 0 && n <= r < n + 4
  {
    (n + 3) / 4 * 4
  }

  lemma Align4Add(h: nat, n: nat, sum: nat)
    requires h % 4 == 0 && sum == h + n
    ensures Align4(sum) == h + Align4(n)
  {
  }

  function Zeros(n: nat): (z: seq<byte>)
    ensures |z| == n && forall i :: 0 <= i < n ==> z[i] == 0
  {
    seq(n, i => 0)
  }

  /** `s` followed by the zero bytes that bring it to a multiple of four. */
  function Pad4(s: seq<byte>): (p: seq<byte>)
    ensures |p| == Align4(|s|) && s <= p
  {
    s + Zeros(Align4(|s|) - |s|)
  }

  function Min(a: nat, b: nat): nat { if a < b then a else b }

  /** strnlen(s, max) characters of a string. */
  function Truncated(s: seq<byte>, max: nat): (t: seq<byte>)
    ensures |t| == Min(|s|, max) && t <= s
  {
    s[..Min(|s|, max)]
  }

  /** What `%s` prints for a pointer to `off`: the bytes before the first NUL. */
  function CString(mem: seq<byte>, off: nat): (s: seq<byte>)
    ensures 0 !in s
    ensures off <= |mem| ==> off + |s| <= |mem| && mem[off..off + |s|] == s
    ensures off + |s| < |mem| ==> mem[off + |s|] == 0
    decreases |mem| - off
  {
    if off >= |mem| || mem[off] == 0 then [] else [mem[off]] + CString(mem, off + 1)
  }

  /** The first NUL settles the string: nothing after it matters. */
  lemma {:induction false} CStringIs(mem: seq<byte>, off: nat, s: seq<byte>)
    requires 0 !in s && off + |s| < |mem|
    requires mem[off..off + |s|] == s && mem[off + |s|] == 0
    ensures CString(mem, off) == s
    decreases |s|
  {
    if s != [] {
      assert mem[off] == mem[off..off + |s|][0];
      assert mem[off + 1..off + |s|] == mem[off..off + |s|][1..];
      CStringIs(mem, off + 1, s[1..]);
    }
  }

  /** memcpy of `data` to offset `off`, as a function on the buffer's contents. */
  function PutBytes(s: seq<byte>, off: nat, data: seq<byte>): (r: seq<byte>)
    requires off + |data| <= |s|
    ensures |r| == |s|
  {
    s[..off] + data + s[off + |data|..]
  }

  method Store(buf: array<byte>, off: nat, data: seq<byte>)
    requires off + |data| <= buf.Length
    modifies buf
    ensures buf[..] == PutBytes(old(buf[..]), off, data)
  {
    var i := 0;
    while i < |data|
      invariant 0 <= i <= |data|
      invariant buf[..] == PutBytes(old(buf[..]), off, data[..i])
    {
      buf[off + i] := data[i];
      i := i + 1;
    }
  }

  /** The buffer holds `p` and then only zeros: the state a builder keeps while
      it appends to a buffer that started out zeroed. */
  ghost predicate Holds(s: seq<byte>, p: seq<byte>) {
    |p| <= |s| && s == p + Zeros(|s| - |p|)
  }

  /** Writing right after the contents appends to them. */
  lemma HoldsAppend(s: seq<byte>, p: seq<byte>, data: seq<byte>)
    requires Holds(s, p) && |p| + |data| <= |s|
    ensures Holds(PutBytes(s, |p|, data), p + data)
  {
    var r := PutBytes(s, |p|, data);
    assert r == p + data + Zeros(|s| - |p| - |data|);
  }

  /** Skipping bytes of a zeroed buffer appends zeros. */
  lemma HoldsSkip(s: seq<byte>, p: seq<byte>, n: nat)
    requires Holds(s, p) && |p| + n <= |s|
    ensures Holds(s, p + Zeros(n))
  {
    assert p + Zeros(n) + Zeros(|s| - |p| - n) == p + Zeros(|s| - |p|);
  }

  /** Back-patching a field inside the contents changes that field only. */
  lemma HoldsPatch(s: seq<byte>, a: seq<byte>, x: seq<byte>, y: seq<byte>, b: seq<byte>)
    requires |x| == |y| && Holds(s, a + x + b)
    ensures Holds(PutBytes(s, |a|, y), a + y + b)
  {
    assert PutBytes(s, |a|, y) == a + y + b + Zeros(|s| - |a + x + b|);
  }
}
