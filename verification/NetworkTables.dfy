/** The tables of local, private and reserved ranges in terms of the bytes of an address. */
module NetworkTables {
  import opened Cidr
  import opened NetworkFilters

  predicate Local4(b: seq<bv8>)
    requires |b| == 4
  {
    b[0] == 127 || b == [0, 0, 0, 0]
  }

  predicate Private4(b: seq<bv8>)
    requires |b| == 4
  {
    || b[0] == 10
    || (b[0] == 100 && 64 <= b[1] < 128)
    || (b[0] == 169 && b[1] == 254)
    || (b[0] == 172 && 16 <= b[1] < 32)
    || (b[0] == 192 && b[1] == 168)
  }

  predicate Reserved4(b: seq<bv8>)
    requires |b| == 4
  {
    (b[0] == 192 && b[1] == 0 && b[2] == 0) || b[0] >= 224
  }

  predicate Local6(b: seq<bv8>)
    requires |b| == 16
  {
    b[..15] == seq(15, _ => 0) && b[15] <= 1
  }

  predicate Private6(b: seq<bv8>)
    requires |b| == 16
  {
    b[0] == 0xfc || b[0] == 0xfd || (b[0] == 0xfe && 0x80 <= b[1] < 0xc0)
  }

  predicate Reserved6(b: seq<bv8>)
    requires |b| == 16
  {
    (b[0] == 0x20 && b[1] == 0x01 && b[2] <= 1) || b[0] == 0xff
  }

  /** The first `m` bits of a byte. */
  function Masked(y: bv8, m: nat): bv8
    requires m < 8
  {
    y & Mask(m)
  }

  /** The byte at `k` counts in whole, in its first bits, or not at all. */
  predicate ByteAgrees(x: bv8, y: bv8, k: nat, n: nat) {
    if n <= 8 * k then true else if n < 8 * k + 8 then x == Masked(y, n - 8 * k) else x == y
  }

  predicate BytesAgree4(x: seq<bv8>, y: seq<bv8>, n: nat)
    requires |x| >= 4 && |y| >= 4
  {
    ByteAgrees(x[0], y[0], 0, n) && ByteAgrees(x[1], y[1], 1, n) &&
    ByteAgrees(x[2], y[2], 2, n) && ByteAgrees(x[3], y[3], 3, n)
  }

  lemma Prefix4(r: CidrRange, y: seq<bv8>)
    requires ValidRange(r) && r.bitCount <= 32 && |y| >= 4
    ensures SamePrefix(r.bits, y, r.bitCount) <==> BytesAgree4(r.bits, y, r.bitCount)
  {
    var x, n, z := r.bits, r.bitCount, y + [0];
    PrefixBehind(x, y, [0], n);
    BytesMatchExact(x, z, n);
    MaskedNothing(x, z, n);
    Match4(x, z, n);
    hide SamePrefix, Masked, ZeroFrom, BytesMatch;
  }

  lemma Match4(x: seq<bv8>, z: seq<bv8>, n: nat)
    requires |x| == 16 && |z| > 4 && n <= 32
    requires n % 8 == 0 ==> x[n / 8] == Masked(z[n / 8], 0)
    ensures BytesMatch(x, z, n) <==> BytesAgree4(x, z, n)
  {
    var q, r := n / 8, n % 8;
    assert BytesMatch(x, z, n) <==> x[..q] == z[..q] && x[q] == Masked(z[q], r);
    hide BytesMatch, Masked;
    SameFirst(x, z, q);
    forall k | 0 <= k < 4
      ensures ByteAgrees(x[k], z[k], k, n) <==> if k < q then x[k] == z[k] else k == q ==> x[q] == Masked(z[q], r)
    {
      ByteCase(x[k], z[k], k, n);
    }
    hide ByteAgrees;
  }

  lemma ByteCase(x: bv8, y: bv8, k: nat, n: nat)
    ensures 8 * k + 8 <= n ==> (ByteAgrees(x, y, k, n) <==> x == y)
    ensures n <= 8 * k ==> ByteAgrees(x, y, k, n)
    ensures 8 * k < n < 8 * k + 8 ==> (ByteAgrees(x, y, k, n) <==> x == Masked(y, n - 8 * k))
  {
    hide Masked;
  }

  lemma SameFirst(x: seq<bv8>, z: seq<bv8>, q: nat)
    requires q <= |x| && q <= |z|
    ensures x[..q] == z[..q] <==> forall k | 0 <= k < q :: x[k] == z[k]
  {
    if x[..q] == z[..q] {
      forall k | 0 <= k < q ensures x[k] == z[k] { assert x[..q][k] == z[..q][k]; }
    }
  }

  /** Under an empty mask the next byte of a range agrees with any. */
  lemma MaskedNothing(x: seq<bv8>, z: seq<bv8>, n: nat)
    requires |x| == 16 && n <= 32 && |z| > 4 && ZeroFrom(x, n)
    ensures n % 8 == 0 ==> x[n / 8] == Masked(z[n / 8], 0)
  {
    if n % 8 == 0 {
      MaskIs(0);
      SameByte(x[n / 8], 0);
      forall i: nat | i < 8 ensures !BitOf(x[n / 8], i) {
        BitAt(x, n / 8, i);
        assert !Bit(x, 8 * (n / 8) + i);
      }
      ZeroBits();
      assert z[n / 8] & 0 == 0;
    }
    hide Mask;
  }

  lemma ZeroBits()
    ensures forall i: nat | i < 8 :: !BitOf(0, i)
  {
  }

  lemma Masks(b: bv8)
    ensures Masked(b, 2) == b & 0xc0 && Masked(b, 4) == b & 0xf0 && Masked(b, 7) == b & 0xfe
  {
    MaskIs(2);
    MaskIs(4);
    MaskIs(7);
    hide Mask;
  }

  lemma AnyOfFour(rs: seq<CidrRange>, addr: Address)
    requires ValidRanges(rs) && ValidAddress(addr) && |rs| >= 4
    requires forall i | 4 <= i < |rs| :: !InRange(rs[i], addr)
    ensures AnyIn(rs, addr) <==>
            InRange(rs[0], addr) || InRange(rs[1], addr) || InRange(rs[2], addr) || InRange(rs[3], addr)
  {
    hide InRange, ValidRange;
  }

  lemma AnyOfFive(rs: seq<CidrRange>, addr: Address)
    requires ValidRanges(rs) && ValidAddress(addr) && |rs| >= 5
    requires forall i | 5 <= i < |rs| :: !InRange(rs[i], addr)
    ensures AnyIn(rs, addr) <==>
            InRange(rs[0], addr) || InRange(rs[1], addr) || InRange(rs[2], addr) || InRange(rs[3], addr) ||
            InRange(rs[4], addr)
  {
    hide InRange, ValidRange;
  }

  lemma NotOfOther(rs: seq<CidrRange>, y: seq<bv8>, m: nat)
    requires ValidRanges(rs) && |y| == 4 && forall i | m <= i < |rs| :: rs[i].family == Inet6
    ensures forall i | m <= i < |rs| :: !InRange(rs[i], V4(y))
  {
    forall i | m <= i < |rs| ensures !InRange(rs[i], V4(y)) { assert ValidRange(rs[i]); }
    hide ValidRange;
  }

  // ---------------------------------------------------------------------------
  // Version 4.

  lemma In4(a: bv8, b: bv8, c: bv8, d: bv8, n: nat, y: seq<bv8>)
    requires ValidRange(Range4(a, b, c, d, n)) && |y| == 4
    ensures InRange(Range4(a, b, c, d, n), V4(y)) <==>
            ByteAgrees(a, y[0], 0, n) && ByteAgrees(b, y[1], 1, n) &&
            ByteAgrees(c, y[2], 2, n) && ByteAgrees(d, y[3], 3, n)
  {
    Prefix4(Range4(a, b, c, d, n), y);
    hide SamePrefix, Masked, ZeroFrom;
  }

  /** Ranges that end at a byte. */
  lemma WholeBytes(a: bv8, b: bv8, c: bv8, d: bv8, n: nat, y: seq<bv8>)
    requires ValidRange(Range4(a, b, c, d, n)) && |y| == 4 && n % 8 == 0
    ensures InRange(Range4(a, b, c, d, n), V4(y)) <==>
            (n >= 8 ==> y[0] == a) && (n >= 16 ==> y[1] == b) && (n >= 24 ==> y[2] == c) && (n >= 32 ==> y[3] == d)
  {
    In4(a, b, c, d, n, y);
    hide InRange, ValidRange, Masked;
  }

  /** Ranges that end within the first byte, or within the second. */
  lemma FirstByte(a: bv8, n: nat, y: seq<bv8>)
    requires ValidRange(Range4(a, 0, 0, 0, n)) && |y| == 4 && 0 < n < 8
    ensures InRange(Range4(a, 0, 0, 0, n), V4(y)) <==> a == Masked(y[0], n)
  {
    In4(a, 0, 0, 0, n, y);
    hide InRange, ValidRange, Masked;
  }

  lemma SecondByte(a: bv8, b: bv8, n: nat, y: seq<bv8>)
    requires ValidRange(Range4(a, b, 0, 0, n)) && |y| == 4 && 8 < n < 16
    ensures InRange(Range4(a, b, 0, 0, n), V4(y)) <==> a == y[0] && b == Masked(y[1], n - 8)
  {
    In4(a, b, 0, 0, n, y);
    hide InRange, ValidRange, Masked;
  }

  lemma Local4Is(y: seq<bv8>)
    requires |y| == 4
    ensures ValidRanges(LOCAL) && (AnyIn(LOCAL, V4(y)) <==> Local4(y))
  {
    LocalValid();
    assert ValidRange(LOCAL[0]) && ValidRange(LOCAL[2]);
    WholeBytes(127, 0, 0, 0, 8, y);
    WholeBytes(0, 0, 0, 0, 32, y);
    assert !InRange(LOCAL[1], V4(y)) && !InRange(LOCAL[3], V4(y));
    AnyOfFour(LOCAL, V4(y));
    hide ValidRange, InRange, AnyIn;
  }

  lemma Private4Rows(y: seq<bv8>)
    requires |y| == 4 && ValidRanges(PRIVATE)
    ensures InRange(PRIVATE[0], V4(y)) <==> y[0] == 10
    ensures InRange(PRIVATE[2], V4(y)) <==> y[0] == 169 && y[1] == 254
    ensures InRange(PRIVATE[4], V4(y)) <==> y[0] == 192 && y[1] == 168
  {
    assert ValidRange(PRIVATE[0]) && ValidRange(PRIVATE[2]) && ValidRange(PRIVATE[4]);
    hide ValidRange, InRange;
    WholeBytes(10, 0, 0, 0, 8, y);
    WholeBytes(169, 254, 0, 0, 16, y);
    WholeBytes(192, 168, 0, 0, 16, y);
  }

  lemma Private4Parts(y: seq<bv8>)
    requires |y| == 4 && ValidRanges(PRIVATE)
    ensures InRange(PRIVATE[1], V4(y)) <==> y[0] == 100 && 64 <= y[1] < 128
    ensures InRange(PRIVATE[3], V4(y)) <==> y[0] == 172 && 16 <= y[1] < 32
  {
    assert ValidRange(PRIVATE[1]) && ValidRange(PRIVATE[3]);
    hide ValidRange, InRange, Masked;
    SecondByte(100, 64, 10, y);
    SecondByte(172, 16, 12, y);
    Private4Bits(y[1]);
  }

  lemma Private4Is(y: seq<bv8>)
    requires |y| == 4
    ensures ValidRanges(PRIVATE) && (AnyIn(PRIVATE, V4(y)) <==> Private4(y))
  {
    PrivateValid();
    hide ValidRange, InRange;
    NotOfOther(PRIVATE, y, 5);
    AnyOfFive(PRIVATE, V4(y));
    Private4Rows(y);
    Private4Parts(y);
    hide AnyIn;
  }

  lemma Private4Bits(b: bv8)
    ensures 64 == Masked(b, 2) <==> 64 <= b < 128
    ensures 16 == Masked(b, 4) <==> 16 <= b < 32
  {
    Masks(b);
    hide Masked;
  }

  lemma Reserved4Rows(y: seq<bv8>)
    requires |y| == 4 && ValidRanges(RESERVED)
    ensures InRange(RESERVED[0], V4(y)) <==> y[0] == 192 && y[1] == 0 && y[2] == 0
    ensures InRange(RESERVED[1], V4(y)) || InRange(RESERVED[2], V4(y)) <==> y[0] >= 224
    ensures InRange(RESERVED[3], V4(y)) <==> y[0] == 255 && y[1] == 255 && y[2] == 255 && y[3] == 255
  {
    assert ValidRange(RESERVED[0]) && ValidRange(RESERVED[1]) && ValidRange(RESERVED[2]) && ValidRange(RESERVED[3]);
    hide ValidRange, InRange, Masked;
    WholeBytes(192, 0, 0, 0, 24, y);
    FirstByte(224, 4, y);
    FirstByte(240, 4, y);
    WholeBytes(255, 255, 255, 255, 32, y);
    Reserved4Bits(y[0]);
  }

  lemma Reserved4Is(y: seq<bv8>)
    requires |y| == 4
    ensures ValidRanges(RESERVED) && (AnyIn(RESERVED, V4(y)) <==> Reserved4(y))
  {
    ReservedValid();
    hide ValidRange, InRange;
    NotOfOther(RESERVED, y, 4);
    AnyOfFour(RESERVED, V4(y));
    Reserved4Rows(y);
    hide AnyIn;
  }

  lemma Reserved4Bits(b: bv8)
    ensures 224 == Masked(b, 4) || 240 == Masked(b, 4) <==> b >= 224
  {
    Masks(b);
    hide Masked;
  }

  // ---------------------------------------------------------------------------
  // Version 6, with the addresses that stand for ones of version 4.

  lemma In6(a: bv8, b: bv8, c: bv8, d: bv8, n: nat, y: seq<bv8>)
    requires n <= 32 && ValidRange(Range6(a, b, c, d, 0, n)) && |y| == 16
    ensures InRange(Range6(a, b, c, d, 0, n), V6(y)) <==>
            ByteAgrees(a, y[0], 0, n) && ByteAgrees(b, y[1], 1, n) &&
            ByteAgrees(c, y[2], 2, n) && ByteAgrees(d, y[3], 3, n)
  {
    Prefix4(Range6(a, b, c, d, 0, n), y);
    hide SamePrefix, Masked, ZeroFrom;
  }

  /** A single address. */
  lemma Whole6Is(last: bv8, y: seq<bv8>)
    requires |y| == 16
    ensures ValidRange(Range6(0, 0, 0, 0, last, 128))
    ensures InRange(Range6(0, 0, 0, 0, last, 128), V6(y)) <==> y[..15] == seq(15, _ => 0) && y[15] == last
  {
    Whole6(last);
    var x := Range6(0, 0, 0, 0, last, 128).bits;
    BytesMatchExact(x, y, 128);
    assert x[..16] == x && y[..16] == y;
    if x == y {
      assert y[..15] == seq(15, _ => 0) && y[15] == last;
    }
    if y[..15] == seq(15, _ => 0) && y[15] == last {
      forall k | 0 <= k < 16 ensures x[k] == y[k] { if k < 15 { assert y[k] == y[..15][k] == 0; } }
    }
    hide SamePrefix, ZeroFrom, Mask;
  }

  /** A range of version 4 holds the mapped addresses of those it holds. */
  lemma MappedIn(r: CidrRange, y: seq<bv8>)
    requires ValidRange(r) && r.family == Inet && |y| == 16
    ensures InRange(r, V6(y)) <==> IsMapped(y) && InRange(r, V4(y[12..]))
  {
    hide SamePrefix;
  }

  lemma Local6Is(y: seq<bv8>)
    requires |y| == 16
    ensures ValidRanges(LOCAL)
    ensures AnyIn(LOCAL, V6(y)) <==> Local6(y) || (IsMapped(y) && Local4(y[12..]))
  {
    LocalValid();
    Local4Is(y[12..]);
    Whole6Is(0, y);
    Whole6Is(1, y);
    assert ValidRange(LOCAL[0]) && ValidRange(LOCAL[2]);
    MappedIn(LOCAL[0], y);
    MappedIn(LOCAL[2], y);
    hide ValidRange;
    assert !InRange(LOCAL[1], V4(y[12..])) && !InRange(LOCAL[3], V4(y[12..]));
    hide InRange, Local4;
  }

  lemma Private6Is(y: seq<bv8>)
    requires |y| == 16
    ensures ValidRanges(PRIVATE)
    ensures AnyIn(PRIVATE, V6(y)) <==> Private6(y) || (IsMapped(y) && Private4(y[12..]))
  {
    PrivateValid();
    Private4Is(y[12..]);
    assert ValidRange(PRIVATE[5]) && ValidRange(PRIVATE[6]);
    In6(0xfc, 0, 0, 0, 7, y);
    In6(0xfe, 0x80, 0, 0, 10, y);
    Private6Bits(y[0], y[1]);
    assert Private6(y) <==> InRange(PRIVATE[5], V6(y)) || InRange(PRIVATE[6], V6(y)) by {
      hide InRange, ValidRange, Masked, AnyIn;
    }
    MappedAny(PRIVATE, 5, y);
    hide ValidRange, InRange, Masked, Private4, Private6, IsMapped;
  }

  /** Of ranges the first `m` of which are of version 4 the others hold no address of version 4, and
      of the first ones every one holds the mapped addresses of those it holds. */
  lemma MappedAny(rs: seq<CidrRange>, m: nat, y: seq<bv8>)
    requires ValidRanges(rs) && |y| == 16 && m <= |rs|
    requires forall i | 0 <= i < |rs| :: rs[i].family == Inet <==> i < m
    ensures AnyIn(rs, V6(y)) <==>
            (IsMapped(y) && AnyIn(rs, V4(y[12..]))) || exists i :: m <= i < |rs| && InRange(rs[i], V6(y))
  {
    forall i | 0 <= i < m ensures InRange(rs[i], V6(y)) <==> IsMapped(y) && InRange(rs[i], V4(y[12..])) {
      assert ValidRange(rs[i]);
      MappedIn(rs[i], y);
    }
    forall i | m <= i < |rs| ensures !InRange(rs[i], V4(y[12..])) { assert ValidRange(rs[i]); }
    hide ValidRange, InRange, IsMapped;
  }

  lemma Private6Bits(a: bv8, b: bv8)
    ensures 0xfc == Masked(a, 7) <==> a == 0xfc || a == 0xfd
    ensures 0x80 == Masked(b, 2) <==> 0x80 <= b < 0xc0
  {
    Masks(a);
    Masks(b);
    hide Masked;
  }

  lemma Reserved6Is(y: seq<bv8>)
    requires |y| == 16
    ensures ValidRanges(RESERVED)
    ensures AnyIn(RESERVED, V6(y)) <==> Reserved6(y) || (IsMapped(y) && Reserved4(y[12..]))
  {
    ReservedValid();
    Reserved4Is(y[12..]);
    assert ValidRange(RESERVED[4]) && ValidRange(RESERVED[5]);
    In6(0x20, 0x01, 0, 0, 23, y);
    In6(0xff, 0, 0, 0, 8, y);
    Reserved6Bits(y[2]);
    assert Reserved6(y) <==> InRange(RESERVED[4], V6(y)) || InRange(RESERVED[5], V6(y)) by {
      hide InRange, ValidRange, Masked, AnyIn;
    }
    MappedAny(RESERVED, 4, y);
    hide ValidRange, InRange, Masked, Reserved4, Reserved6, IsMapped;
  }

  lemma Reserved6Bits(b: bv8)
    ensures 0 == Masked(b, 7) <==> b <= 1
  {
    Masks(b);
    hide Masked;
  }
}
