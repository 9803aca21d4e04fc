/** Byte strings: little-endian words, zero padding, and "this part lies at that offset". */
module Bytes {

  type byte = b: int | 0 <= b < 256

  const SECTOR_SIZE: nat := 512
  const U32_LIMIT: nat := 0x1_0000_0000
  const U64_LIMIT: nat := 0x1_0000_0000_0000_0000

  type u16 = n: nat | n < 0x1_0000
  type Positive = n: nat | n > 0 witness 1
  type u32 = n: nat | n < U32_LIMIT
  type u64 = n: nat | n < U64_LIMIT

  /** Rust's `as u32`: keep the low 32 bits. */
  function AsU32(n: nat): (r: u32)
    ensures n < U32_LIMIT ==> r == n
  {
    n % U32_LIMIT
  }

  /** A 64-bit register: arithmetic wraps. */
  function AsU64(n: nat): (r: u64)
    ensures n < U64_LIMIT ==> r == n
  {
    n % U64_LIMIT
  }

  function Pow256(w: nat): (p: nat)
    ensures p > 0
  {
    if w == 0 then 1 else 256 * Pow256(w - 1)
  }

  lemma Pow256Values()
    ensures Pow256(2) == 65536 && Pow256(4) == U32_LIMIT && Pow256(8) == U64_LIMIT
  {
    assert Pow256(2) == 65536;
    assert Pow256(4) == 65536 * Pow256(2);
    assert Pow256(6) == 65536 * Pow256(4);
    assert Pow256(8) == 65536 * Pow256(6);
  }

  function LeByte(n: nat, i: nat): byte {
    n / Pow256(i) % 256
  }

  /** `to_le_bytes` of an integer that is `w` bytes wide; higher bytes are dropped. */
  function Le(n: nat, w: nat): (s: seq<byte>)
    ensures |s| == w
  {
    seq(w, i requires 0 <= i => LeByte(n, i))
  }

  /** `from_le_bytes`. */
  function FromLe(s: seq<byte>): nat {
    if s == [] then 0 else s[0] + 256 * FromLe(s[1..])
  }

  lemma ModStep(n: nat, p: nat)
    requires p > 0
    ensures n % (256 * p) == n % 256 + 256 * ((n / 256) % p)
  {
    var q, r := n / 256, n % 256;
    var a, b := q / p, q % p;
    var m := r + 256 * b;
    assert q == p * a + b;
    assert n == (256 * p) * a + m by {
      assert 256 * (p * a + b) == (256 * p) * a + 256 * b;
    }
    assert m < 256 * p;
    RemainderUnique(n, 256 * p, a, m);
  }

  lemma RemainderUnique(n: nat, d: nat, q: nat, r: nat)
    requires 0 <= r < d && n == d * q + r
    ensures n % d == r && n / d == q
  {
    var q' := n / d;
    assert n == d * q' + n % d;
    MulOrder(d, q', q);
    MulOrder(d, q, q');
  }

  lemma MulOrder(d: nat, a: nat, b: nat)
    ensures a < b ==> d * a + d <= d * b
  {
    if a < b {
      var k := b - a - 1;
      assert b == a + 1 + k;
      assert d * (a + 1 + k) == d * a + d + d * k;
      assert d * k >= 0;
    }
  }

  lemma DivTwice(n: nat, p: nat)
    requires p > 0
    ensures n / 256 / p == n / (256 * p)
  {
    var q, r := n / 256, n % 256;
    assert q == p * (q / p) + q % p;
    assert n == (256 * p) * (q / p) + (256 * (q % p) + r) by {
      assert 256 * (p * (q / p)) == (256 * p) * (q / p);
    }
    RemainderUnique(n, 256 * p, q / p, 256 * (q % p) + r);
  }

  lemma LeTail(n: nat, w: nat)
    requires w > 0
    ensures Le(n, w) == [n % 256] + Le(n / 256, w - 1)
  {
    forall i | 0 < i < w
      ensures Le(n, w)[i] == Le(n / 256, w - 1)[i - 1]
    {
      DivTwice(n, Pow256(i - 1));
    }
  }

  /** Decoding what was encoded gives the value modulo the width: exact when it fits. */
  lemma {:induction false} LeRoundTrip(n: nat, w: nat)
    ensures FromLe(Le(n, w)) == n % Pow256(w)
  {
    if w > 0 {
      LeTail(n, w);
      LeRoundTrip(n / 256, w - 1);
      assert Le(n, w)[1..] == Le(n / 256, w - 1);
      ModStep(n, Pow256(w - 1));
    }
  }

  lemma LeWidths(n: nat)
    ensures FromLe(Le(n, 4)) == AsU32(n)
    ensures n < U64_LIMIT ==> FromLe(Le(n, 8)) == n
  {
    Pow256Values();
    LeRoundTrip(n, 4);
    LeRoundTrip(n, 8);
  }

  function Zeros(n: nat): (s: seq<byte>)
    ensures |s| == n
    ensures forall i | 0 <= i < n :: s[i] == 0
  {
    seq(n, i => 0)
  }

  type AsciiText = t: string | forall i | 0 <= i < |t| :: t[i] < '\U{0080}' witness ""

  /** ASCII text as bytes. */
  function Ascii(t: AsciiText): (s: seq<byte>)
    ensures |s| == |t| && forall i | 0 <= i < |s| :: s[i] == t[i] as int
  {
    seq(|t|, i requires 0 <= i < |t| => t[i] as int)
  }

  predicate AllZero(s: seq<byte>) {
    forall i | 0 <= i < |s| :: s[i] == 0
  }

  /** Bytes missing to the next sector boundary. */
  function Padding(n: nat): (p: nat)
    ensures p < SECTOR_SIZE && (n + p) % SECTOR_SIZE == 0
  {
    PaddingAligns(n);
    (SECTOR_SIZE - n % SECTOR_SIZE) % SECTOR_SIZE
  }

  lemma PaddingAligns(n: nat)
    ensures (n + (SECTOR_SIZE - n % SECTOR_SIZE) % SECTOR_SIZE) % SECTOR_SIZE
         == 0
  {
    var q, r := n / SECTOR_SIZE, n % SECTOR_SIZE;
    if r != 0 {
      RemainderUnique(n + (SECTOR_SIZE - r), SECTOR_SIZE, q + 1, 0);
    }
  }

  /** No other amount below one sector aligns. */
  lemma PaddingUnique(n: nat, p: nat)
    requires p < SECTOR_SIZE && (n + p) % SECTOR_SIZE == 0
    ensures p == Padding(n)
  {
    var a, b := (n + p) / SECTOR_SIZE, (n + Padding(n)) / SECTOR_SIZE;
    assert n + p == SECTOR_SIZE * a && n + Padding(n) == SECTOR_SIZE * b;
  }

  lemma AlignedRest(a: nat, b: nat)
    requires a % SECTOR_SIZE == 0 && (a + b) % SECTOR_SIZE == 0
    ensures b % SECTOR_SIZE == 0
  {
    var x, y := a / SECTOR_SIZE, (a + b) / SECTOR_SIZE;
    assert b == SECTOR_SIZE * (y - x);
  }

  lemma PaddedSize(n: nat)
    ensures n + Padding(n) == (n + SECTOR_SIZE - 1) / SECTOR_SIZE * SECTOR_SIZE
  {
    var k := (n + Padding(n)) / SECTOR_SIZE;
    assert n + Padding(n) == SECTOR_SIZE * k;
    RemainderUnique(n + SECTOR_SIZE - 1, SECTOR_SIZE, k, SECTOR_SIZE - 1 - Padding(n));
  }

  function PadToSector(s: seq<byte>): (r: seq<byte>)
    ensures |r| % SECTOR_SIZE == 0 && s <= r
  {
    s + Zeros(Padding(|s|))
  }

  lemma AlignedSum(a: nat, b: nat)
    requires a % SECTOR_SIZE == 0 && b % SECTOR_SIZE == 0
    ensures (a + b) % SECTOR_SIZE == 0
    ensures (a + b) / SECTOR_SIZE == a / SECTOR_SIZE + b / SECTOR_SIZE
  {
    RemainderUnique(a + b, SECTOR_SIZE, a / SECTOR_SIZE + b / SECTOR_SIZE, 0);
  }

  lemma NoPadding(s: seq<byte>)
    requires |s| % SECTOR_SIZE == 0
    ensures PadToSector(s) == s
  {
    assert Zeros(0) == [];
  }

  lemma Assoc<T>(a: seq<T>, b: seq<T>, c: seq<T>)
    ensures a + b + c == a + (b + c)
  {
  }

  /** `part` lies in `s` at offset `at`. */
  predicate Holds(s: seq<byte>, at: nat, part: seq<byte>) {
    && at + |part| <= |s|
    && s[at..at + |part|] == part
  }

  lemma HoldsMiddle(pre: seq<byte>, part: seq<byte>, post: seq<byte>)
    ensures Holds(pre + part + post, |pre|, part)
  {
  }

  lemma HoldsEnd(a: seq<byte>, b: seq<byte>)
    ensures Holds(a + b, |a|, b)
  {
  }

  lemma HoldsLonger(a: seq<byte>, b: seq<byte>, at: nat, part: seq<byte>)
    requires Holds(a, at, part)
    ensures Holds(a + b, at, part)
  {
    assert (a + b)[at..at + |part|] == a[at..at + |part|];
  }

  /** Whatever lies in a part lies in the whole, shifted. */
  lemma HoldsNested(s: seq<byte>, at: nat, outer: seq<byte>, k: nat, inner: seq<byte>)
    requires Holds(s, at, outer) && Holds(outer, k, inner)
    ensures Holds(s, at + k, inner)
  {
    var part := s[at + k..at + k + |inner|];
    forall i | 0 <= i < |inner|
      ensures part[i] == inner[i]
    {
      assert part[i] == s[at..at + |outer|][k + i] == outer[k..k + |inner|][i];
    }
  }

  lemma HoldsParts(s: seq<byte>, at: nat, a: seq<byte>, b: seq<byte>)
    requires Holds(s, at, a + b)
    ensures Holds(s, at, a) && Holds(s, at + |a|, b)
  {
    assert (a + b)[..|a|] == a && (a + b)[|a|..] == b;
    HoldsNested(s, at, a + b, 0, a);
    HoldsNested(s, at, a + b, |a|, b);
  }

  /** The little-endian word of width `w` at offset `at`. */
  function ReadLe(s: seq<byte>, at: nat, w: nat): nat
    requires at + w <= |s|
  {
    FromLe(s[at..at + w])
  }

  lemma ReadHeld32(s: seq<byte>, at: nat, n: nat)
    requires Holds(s, at, Le(n, 4))
    ensures ReadLe(s, at, 4) == AsU32(n)
  {
    LeWidths(n);
  }

  lemma ReadHeld64(s: seq<byte>, at: nat, n: nat)
    requires n < U64_LIMIT && Holds(s, at, Le(n, 8))
    ensures ReadLe(s, at, 8) == n
  {
    LeWidths(n);
  }

  /** A table of 32-bit words. */
  function Words(ws: seq<nat>): (s: seq<byte>)
    ensures |s| == 4 * |ws|
  {
    seq(4 * |ws|, i requires 0 <= i < 4 * |ws| => LeByte(ws[i / 4], i % 4))
  }

  lemma WordsSnoc(ws: seq<nat>, w: nat)
    ensures Words(ws + [w]) == Words(ws) + Le(w, 4)
  {
    var s, t := Words(ws + [w]), Words(ws) + Le(w, 4);
    forall i | 0 <= i < |s|
      ensures s[i] == t[i]
    {
      if i >= 4 * |ws| {
        assert i / 4 == |ws| && i % 4 == i - 4 * |ws|;
      }
    }
  }

  lemma WordHeld(ws: seq<nat>, i: nat)
    requires i < |ws|
    ensures Holds(Words(ws), 4 * i, Le(ws[i], 4))
  {
    var part := Words(ws)[4 * i..4 * i + 4];
    forall k | 0 <= k < 4
      ensures part[k] == Le(ws[i], 4)[k]
    {
      assert (4 * i + k) / 4 == i && (4 * i + k) % 4 == k;
    }
  }

  lemma ReadWord(s: seq<byte>, at: nat, ws: seq<nat>, i: nat)
    requires i < |ws| && Holds(s, at, Words(ws))
    ensures at + 4 * i + 4 <= |s|
    ensures ReadLe(s, at + 4 * i, 4) == AsU32(ws[i])
  {
    WordHeld(ws, i);
    HoldsNested(s, at, Words(ws), 4 * i, Le(ws[i], 4));
    ReadHeld32(s, at + 4 * i, ws[i]);
  }

  /** The buffer with `part` copied over it at `at`, as `copy_from_slice` on a sub-slice does. */
  function Splice(s: seq<byte>, at: nat, part: seq<byte>): (r: seq<byte>)
    requires at + |part| <= |s|
    ensures |r| == |s|
  {
    s[..at] + part + s[at + |part|..]
  }

  method CopyInto(buf: array<byte>, at: nat, part: seq<byte>)
    requires at + |part| <= buf.Length
    modifies buf
    ensures buf[..] == Splice(old(buf[..]), at, part)
  {
    for i := 0 to |part|
      invariant forall k | 0 <= k < i :: buf[at + k] == part[k]
      invariant forall k | 0 <= k < buf.Length && !(at <= k < at + i) :: buf[k] == old(buf[k])
    {
      buf[at + i] := part[i];
    }
  }

  /** The first `at` bytes of `target` are in place and the rest of the buffer is still zero. */
  ghost predicate FilledTo(buf: seq<byte>, target: seq<byte>, at: nat) {
    |buf| == |target| && at <= |target| && buf == target[..at] + Zeros(|target| - at)
  }

  /** Copying the next field of `target` extends the filled prefix by that field. */
  lemma FillNext(buf: seq<byte>, target: seq<byte>, at: nat, part: seq<byte>)
    requires FilledTo(buf, target, at) && Holds(target, at, part)
    ensures FilledTo(Splice(buf, at, part), target, at + |part|)
  {
    var r := Splice(buf, at, part);
    var end := at + |part|;
    assert target[..end] == target[..at] + target[at..end];
    assert r == target[..end] + Zeros(|target| - end);
  }

  method PutField(buf: array<byte>, ghost target: seq<byte>, at: nat, part: seq<byte>)
    requires FilledTo(buf[..], target, at) && Holds(target, at, part)
    modifies buf
    ensures FilledTo(buf[..], target, at + |part|)
  {
    FillNext(buf[..], target, at, part);
    CopyInto(buf, at, part);
  }

  /** A run of zeros in `target` needs no copying. */
  lemma FillSkip(buf: seq<byte>, target: seq<byte>, at: nat, n: nat)
    requires FilledTo(buf, target, at) && Holds(target, at, Zeros(n))
    ensures FilledTo(buf, target, at + n)
  {
    var end := at + n;
    assert target[..end] == target[..at] + target[at..end];
    assert Zeros(|target| - at) == Zeros(n) + Zeros(|target| - end);
  }

  lemma FillStart(buf: seq<byte>, target: seq<byte>)
    requires |buf| == |target| && AllZero(buf)
    ensures FilledTo(buf, target, 0)
  {
    assert target[..0] == [];
  }

  lemma FillEnd(buf: seq<byte>, target: seq<byte>)
    requires FilledTo(buf, target, |target|)
    ensures buf == target
  {
    assert target[..|target|] == target && Zeros(0) == [];
  }
}
