/** Address ranges in CIDR notation (CidrRange, libraries/zc/core/cidr.cc): membership by whole
    bytes and a masked byte is equality of the first bits. */
module Cidr {
  import opened Wrappers

  datatype Family = Inet | Inet6

  /** A socket address: of either internet family, a Unix socket's path, or of another family. */
  datatype Address = V4(bytes: seq<bv8>) | V6(bytes: seq<bv8>) | Unix(path: seq<bv8>) | Other

  datatype CidrRange = CidrRange(family: Family, bits: seq<bv8>, bitCount: nat)

  const V6MAPPED: seq<bv8> := [0, 0, 0, 0, 0, 0, 0, 0, 0, 0, 0xff, 0xff]

  predicate ValidAddress(addr: Address) {
    match addr
    case V4(b) => |b| == 4
    case V6(b) => |b| == 16
    case _ => true
  }

  // ---------------------------------------------------------------------------
  // Bits.

  /** Bit `i` of a byte, the highest first. */
  predicate BitOf(b: bv8, i: nat)
    requires i < 8
  {
    (b >> (7 - i)) & 1 == 1
  }

  /** Bit `i` of a byte string, in network order. */
  predicate Bit(s: seq<bv8>, i: nat)
    requires i < 8 * |s|
  {
    BitOf(s[i / 8], i % 8)
  }

  /** The first `n` bits agree. */
  ghost predicate SamePrefix(x: seq<bv8>, y: seq<bv8>, n: nat)
    requires n <= 8 * |x| && n <= 8 * |y|
  {
    forall i | 0 <= i < n :: Bit(x, i) == Bit(y, i)
  }

  /** `0xff00 >> k`, cut to a byte. */
  function Mask(k: nat): bv8
    requires k < 8
  {
    (((0xff00 as bv16) >> k) & 0xff) as bv8
  }

  lemma MaskBit(b: bv8, k: nat, i: nat)
    requires k < 8 && i < 8
    ensures BitOf(b & Mask(k), i) <==> i < k && BitOf(b, i)
  {
    MaskBits(b, Mask(k));
    MaskTop(k);
    hide BitOf, Mask;
  }

  /** The mask has exactly the first `k` bits. */
  lemma MaskTop(k: nat)
    requires k < 8
    ensures forall i: nat | i < 8 :: BitOf(Mask(k), i) <==> i < k
  {
    MaskIs(k);
    hide Mask;
    var m := Mask(k);
    assert BitOf(m, 0) <==> 0 < k;
    assert BitOf(m, 1) <==> 1 < k;
    assert BitOf(m, 2) <==> 2 < k;
    assert BitOf(m, 3) <==> 3 < k;
    assert BitOf(m, 4) <==> 4 < k;
    assert BitOf(m, 5) <==> 5 < k;
    assert BitOf(m, 6) <==> 6 < k;
    assert BitOf(m, 7) <==> 7 < k;
    hide BitOf;
  }

  lemma MaskIs(k: nat)
    requires k < 8
    ensures Mask(k) == if k == 0 then 0 else if k == 1 then 0x80 else if k == 2 then 0xc0 else if k == 3 then 0xe0
                       else if k == 4 then 0xf0 else if k == 5 then 0xf8 else if k == 6 then 0xfc else 0xfe
  {
  }

  lemma MaskBits(b: bv8, m: bv8)
    ensures forall i: nat | i < 8 :: BitOf(b & m, i) <==> BitOf(b, i) && BitOf(m, i)
  {
  }

  lemma SameByte(a: bv8, b: bv8)
    ensures a == b <==> forall i: nat | i < 8 :: BitOf(a, i) == BitOf(b, i)
  {
    if forall i: nat | i < 8 :: BitOf(a, i) == BitOf(b, i) {
      assert BitOf(a, 0) == BitOf(b, 0) && BitOf(a, 1) == BitOf(b, 1);
      assert BitOf(a, 2) == BitOf(b, 2) && BitOf(a, 3) == BitOf(b, 3);
      assert BitOf(a, 4) == BitOf(b, 4) && BitOf(a, 5) == BitOf(b, 5);
      assert BitOf(a, 6) == BitOf(b, 6) && BitOf(a, 7) == BitOf(b, 7);
    }
  }

  /** Whole bytes and bit positions. */
  lemma BitAt(s: seq<bv8>, j: nat, i: nat)
    requires j < |s| && i < 8
    ensures Bit(s, 8 * j + i) == BitOf(s[j], i)
  {
  }

  // ---------------------------------------------------------------------------
  // Ranges.

  /** No bit from `n` on is set. */
  ghost predicate ZeroFrom(s: seq<bv8>, n: nat) {
    forall i | n <= i < 8 * |s| :: !Bit(s, i)
  }

  function MaxBits(family: Family): nat {
    if family == Inet then 32 else 128
  }

  ghost predicate ValidRange(r: CidrRange) {
    |r.bits| == 16 && r.bitCount <= MaxBits(r.family) && ZeroFrom(r.bits, r.bitCount)
  }

  predicate IsMapped(b: seq<bv8>) {
    |b| == 16 && b[..12] == V6MAPPED
  }

  /** The address is in the range: their first `bitCount` bits agree. A range of version 4
      addresses also holds those mapped into version 6 (section 2.5.5.2 of RFC 4291). */
  ghost predicate InRange(r: CidrRange, addr: Address)
    requires ValidRange(r) && ValidAddress(addr)
  {
    match (r.family, addr)
    case (Inet, V4(b)) => SamePrefix(r.bits, b, r.bitCount)
    case (Inet, V6(b)) => IsMapped(b) && SamePrefix(r.bits, b[12..], r.bitCount)
    case (Inet6, V6(b)) => SamePrefix(r.bits, b, r.bitCount)
    case _ => false
  }

  /** The comparison of whole bytes, and of what is left of `y`'s next byte under the mask. */
  predicate BytesMatch(x: seq<bv8>, y: seq<bv8>, n: nat)
    requires |x| == 16 && n <= 128 && n / 8 <= |y| && (n < 128 ==> n / 8 < |y|)
  {
    x[..n / 8] == y[..n / 8] && (n == 128 || x[n / 8] == y[n / 8] & Mask(n % 8))
  }

  lemma BytesAgree(x: seq<bv8>, y: seq<bv8>, n: nat)
    requires |x| == 16 && n <= 128 && n / 8 <= |y| && (n < 128 ==> n / 8 < |y|)
    requires BytesMatch(x, y, n)
    ensures SamePrefix(x, y, n)
  {
    hide BitOf, Mask;
    forall i | 0 <= i < n ensures Bit(x, i) == Bit(y, i) {
      if i / 8 < n / 8 {
        assert x[..n / 8][i / 8] == y[..n / 8][i / 8];
      } else {
        MaskBit(y[n / 8], n % 8, i % 8);
      }
    }
  }

  lemma AgreeingByte(x: seq<bv8>, y: seq<bv8>, n: nat, j: nat)
    requires n <= 8 * |x| && n <= 8 * |y| && j < n / 8 && SamePrefix(x, y, n)
    ensures x[j] == y[j]
  {
    hide BitOf, Bit;
    SameByte(x[j], y[j]);
    forall i: nat | i < 8 ensures BitOf(x[j], i) == BitOf(y[j], i) {
      BitAt(x, j, i);
      BitAt(y, j, i);
    }
  }

  lemma AgreeingMask(x: seq<bv8>, y: seq<bv8>, n: nat)
    requires n < 8 * |x| && n < 8 * |y| && SamePrefix(x, y, n) && ZeroFrom(x, n)
    ensures x[n / 8] == y[n / 8] & Mask(n % 8)
  {
    hide BitOf, Bit, Mask;
    var q, k := n / 8, n % 8;
    SameByte(x[q], y[q] & Mask(k));
    forall i: nat | i < 8 ensures BitOf(x[q], i) == BitOf(y[q] & Mask(k), i) {
      MaskBit(y[q], k, i);
      BitAt(x, q, i);
      BitAt(y, q, i);
    }
  }

  /** Comparing bytes is comparing bits, for a range without bits from `n` on. */
  lemma BytesMatchExact(x: seq<bv8>, y: seq<bv8>, n: nat)
    requires |x| == 16 && n <= 128 && n / 8 <= |y| && (n < 128 ==> n / 8 < |y|) && ZeroFrom(x, n)
    ensures BytesMatch(x, y, n) <==> SamePrefix(x, y, n)
  {
    if BytesMatch(x, y, n) { BytesAgree(x, y, n); }
    if SamePrefix(x, y, n) {
      forall j: nat | j < n / 8 ensures x[j] == y[j] { AgreeingByte(x, y, n, j); }
      if n < 128 { AgreeingMask(x, y, n); }
    }
    hide SamePrefix, ZeroFrom, Mask;
  }

  /** Only the first `n` bits count, so a byte behind the address makes no difference. */
  lemma PrefixBehind(x: seq<bv8>, y: seq<bv8>, z: seq<bv8>, n: nat)
    requires n <= 8 * |x| && n <= 8 * |y|
    ensures SamePrefix(x, y + z, n) <==> SamePrefix(x, y, n)
  {
    hide BitOf;
    forall i | 0 <= i < n ensures Bit(y + z, i) == Bit(y, i) {
      assert (y + z)[i / 8] == y[i / 8];
    }
  }

  /** CidrRange::matches. The masked byte may lie behind a version 4 address; `behind` is what is
      found there. */
  method Matches(r: CidrRange, addr: Address, behind: bv8) returns (matches: bool)
    requires ValidRange(r) && ValidAddress(addr)
    ensures matches <==> InRange(r, addr)
  {
    hide BitOf, Mask, Bit, ZeroFrom, SamePrefix, BytesMatch;
    var otherBits;
    match r.family {
      case Inet =>
        match addr {
          case V6(b) =>
            if b[..12] != V6MAPPED { return false; }
            otherBits := b[12..];
          case V4(b) => otherBits := b;
          case _ => return false;
        }
      case Inet6 =>
        if !addr.V6? { return false; }
        otherBits := addr.bytes;
    }
    PrefixBehind(r.bits, otherBits, [behind], r.bitCount);
    BytesMatchExact(r.bits, otherBits + [behind], r.bitCount);
    matches := CompareBytes(r.bits, otherBits + [behind], r.bitCount);
  }

  method CompareBytes(bits: seq<bv8>, otherBits: seq<bv8>, bitCount: nat) returns (same: bool)
    requires |bits| == 16 && bitCount <= 128 && bitCount / 8 <= |otherBits|
    requires (bitCount < 128 ==> bitCount / 8 < |otherBits|)
    ensures same == BytesMatch(bits, otherBits, bitCount)
  {
    hide Mask;
    if bits[..bitCount / 8] != otherBits[..bitCount / 8] { return false; }
    return bitCount == 128 || bits[bitCount / 8] == otherBits[bitCount / 8] & Mask(bitCount % 8);
  }

  /** CidrRange::matchesFamily: whether addresses of the family can be in the range at all. */
  function MatchesFamily(r: CidrRange, addr: Address): bool {
    match addr
    case V4(_) => r.family == Inet
    case V6(_) => true
    case _ => false
  }

  lemma MatchImpliesFamily(r: CidrRange, addr: Address)
    requires ValidRange(r) && ValidAddress(addr) && InRange(r, addr)
    ensures MatchesFamily(r, addr)
  {
    hide SamePrefix;
  }

  /** CidrRange::zeroIrrelevantBits */
  method ZeroIrrelevantBits(bits: array<bv8>, bitCount: nat)
    requires bits.Length == 16 && bitCount <= 128
    modifies bits
    ensures SamePrefix(bits[..], old(bits[..]), bitCount) && ZeroFrom(bits[..], bitCount)
  {
    hide BitOf, Mask, Bit, SamePrefix, ZeroFrom;
    ghost var was := bits[..];
    if bitCount < 128 {
      var q := bitCount / 8;
      bits[q] := bits[q] & Mask(bitCount % 8);
      FillZero(bits, q + 1);
      Zeroed(was, bits[..], bitCount);
    } else {
      NothingToZero(was);
    }
  }

  /** memset of the array's end. */
  method FillZero(bits: array<bv8>, from: nat)
    requires from <= bits.Length
    modifies bits
    ensures forall j | 0 <= j < bits.Length :: bits[j] == if j < from then old(bits[j]) else 0
  {
    var n := from;
    while n < bits.Length
      invariant from <= n <= bits.Length
      invariant forall j | 0 <= j < bits.Length :: bits[j] == if from <= j < n then 0 else old(bits[j])
    {
      bits[n] := 0;
      n := n + 1;
    }
  }

  lemma NothingToZero(s: seq<bv8>)
    requires |s| == 16
    ensures SamePrefix(s, s, 128) && ZeroFrom(s, 128)
  {
  }

  lemma Zeroed(was: seq<bv8>, now: seq<bv8>, n: nat)
    requires |was| == |now| == 16 && n < 128
    requires forall j | 0 <= j < n / 8 :: now[j] == was[j]
    requires now[n / 8] == was[n / 8] & Mask(n % 8)
    requires forall j | n / 8 < j < 16 :: now[j] == 0
    ensures SamePrefix(now, was, n) && ZeroFrom(now, n)
  {
    hide Mask;
    forall i: nat | i < 128 ensures Bit(now, i) == (i < n && Bit(was, i)) {
      if i / 8 == n / 8 {
        MaskBit(was[n / 8], n % 8, i % 8);
      } else if i / 8 > n / 8 {
        assert now[i / 8] == 0;
      }
    }
    hide Bit;
  }

  /** CidrRange::CidrRange: fails where the source requires otherwise. */
  method Make(family: Family, address: seq<bv8>, bitCount: nat) returns (r: Option<CidrRange>)
    ensures r == None <==> bitCount > MaxBits(family) || 8 * |address| < bitCount
    ensures r.Some? ==> ValidRange(r.value) && r.value.family == family && r.value.bitCount == bitCount
    ensures r.Some? ==> SamePrefix(r.value.bits, address, bitCount)
  {
    hide BitOf, Mask;
    if bitCount > MaxBits(family) || |address| * 8 < bitCount { return None; }
    var bits := new bv8[16];
    var byteCount := (bitCount + 7) / 8;
    var i := 0;
    while i < byteCount
      invariant i <= byteCount && bits[..i] == address[..i]
    {
      bits[i] := address[i];
      i := i + 1;
    }
    FillZero(bits, byteCount);
    assert bits[..byteCount] == address[..byteCount];
    SameBytes(bits[..], address, byteCount, bitCount);
    ghost var copied := bits[..];
    ZeroIrrelevantBits(bits, bitCount);
    SameTwice(bits[..], copied, address, bitCount);
    return Some(CidrRange(family, bits[..], bitCount));
  }

  lemma SameBytes(x: seq<bv8>, y: seq<bv8>, m: nat, n: nat)
    requires n <= 8 * m && m <= |x| && m <= |y| && x[..m] == y[..m]
    ensures SamePrefix(x, y, n)
  {
    forall i | 0 <= i < n ensures Bit(x, i) == Bit(y, i) {
      assert x[..m][i / 8] == y[..m][i / 8];
    }
    hide BitOf;
  }

  lemma SameTwice(x: seq<bv8>, y: seq<bv8>, z: seq<bv8>, n: nat)
    requires n <= 8 * |x| && n <= 8 * |y| && n <= 8 * |z| && SamePrefix(x, y, n) && SamePrefix(y, z, n)
    ensures SamePrefix(x, z, n)
  {
    hide Bit;
    forall i | 0 <= i < n ensures Bit(x, i) == Bit(z, i) {
      assert Bit(x, i) == Bit(y, i) && Bit(y, i) == Bit(z, i);
    }
  }
}
