/** Which addresses a network filter lets through (NetworkFilter, libraries/zc/async/async-io.cc). */
module NetworkFilters {
  import opened Cidr
  import opened Wrappers

  function Range4(a: bv8, b: bv8, c: bv8, d: bv8, bitCount: nat): CidrRange {
    CidrRange(Inet, [a, b, c, d, 0, 0, 0, 0, 0, 0, 0, 0, 0, 0, 0, 0], bitCount)
  }

  /** A version 6 range by its first four bytes and its last one. */
  function Range6(a: bv8, b: bv8, c: bv8, d: bv8, last: bv8, bitCount: nat): CidrRange {
    CidrRange(Inet6, [a, b, c, d, 0, 0, 0, 0, 0, 0, 0, 0, 0, 0, 0, last], bitCount)
  }

  const LOCAL: seq<CidrRange> := [
    Range4(127, 0, 0, 0, 8), Range6(0, 0, 0, 0, 1, 128), Range4(0, 0, 0, 0, 32), Range6(0, 0, 0, 0, 0, 128)]

  const PRIVATE: seq<CidrRange> := [
    Range4(10, 0, 0, 0, 8), Range4(100, 64, 0, 0, 10), Range4(169, 254, 0, 0, 16), Range4(172, 16, 0, 0, 12),
    Range4(192, 168, 0, 0, 16), Range6(0xfc, 0, 0, 0, 0, 7), Range6(0xfe, 0x80, 0, 0, 0, 10)]

  const RESERVED: seq<CidrRange> := [
    Range4(192, 0, 0, 0, 24), Range4(224, 0, 0, 0, 4), Range4(240, 0, 0, 0, 4), Range4(255, 255, 255, 255, 32),
    Range6(0x20, 0x01, 0, 0, 0, 23), Range6(0xff, 0, 0, 0, 0, 8)]

  /** A rule of the configuration; `Single` is one written in CIDR notation. */
  datatype Rule = Local | Network | Private | Public | UnixSockets | AbstractUnixSockets | Single(range: CidrRange)

  datatype Filter = Filter(
    allowCidrs: seq<CidrRange>,
    denyCidrs: seq<CidrRange>,
    allowUnix: bool,
    allowAbstractUnix: bool,
    allowPublic: bool,
    allowNetwork: bool,
    next: Option<Filter>)

  ghost predicate ValidRanges(rs: seq<CidrRange>) {
    forall i | 0 <= i < |rs| :: ValidRange(rs[i])
  }

  ghost predicate ValidFilter(f: Filter) {
    ValidRanges(f.allowCidrs) && ValidRanges(f.denyCidrs) && (f.next.Some? ==> ValidFilter(f.next.value))
  }

  // ---------------------------------------------------------------------------
  // The tables are valid.

  /** A byte under its mask with nothing but zeros behind it. */
  predicate Trimmed(bits: seq<bv8>, n: nat) {
    |bits| == 16 && (n < 128 ==> bits[n / 8] == bits[n / 8] & Mask(n % 8)) && forall j | n / 8 < j < 16 :: bits[j] == 0
  }

  lemma TrimmedIsValid(r: CidrRange)
    requires Trimmed(r.bits, r.bitCount) && r.bitCount <= MaxBits(r.family)
    ensures ValidRange(r)
  {
    if r.bitCount < 128 { Zeroed(r.bits, r.bits, r.bitCount); }
    hide Bit, Mask;
  }

  /** Byte `k` of an address of which only the first `n` bits may be set. */
  predicate Keeps(b: bv8, k: nat, n: nat) {
    if n <= 8 * k then b == 0 else if n < 8 * k + 8 then b == b & Mask(n - 8 * k) else true
  }

  lemma Valid4(a: bv8, b: bv8, c: bv8, d: bv8, n: nat)
    requires n <= 32 && Keeps(a, 0, n) && Keeps(b, 1, n) && Keeps(c, 2, n) && Keeps(d, 3, n)
    ensures ValidRange(Range4(a, b, c, d, n))
  {
    hide Mask;
    MaskIs(0);
    var bits := Range4(a, b, c, d, n).bits;
    assert n / 8 == 0 ==> n % 8 == n;
    assert n / 8 == 1 ==> n % 8 == n - 8;
    assert n / 8 == 2 ==> n % 8 == n - 16;
    assert n / 8 == 3 ==> n % 8 == n - 24;
    TrimmedIsValid(Range4(a, b, c, d, n));
  }

  lemma Valid6(a: bv8, b: bv8, c: bv8, d: bv8, last: bv8, n: nat)
    requires n <= 32 && Keeps(a, 0, n) && Keeps(b, 1, n) && Keeps(c, 2, n) && Keeps(d, 3, n) && last == 0
    ensures ValidRange(Range6(a, b, c, d, last, n))
  {
    Valid4(a, b, c, d, n);
  }

  lemma LocalValid()
    ensures ValidRanges(LOCAL)
  {
    hide ValidRange, Mask;
    Valid4(127, 0, 0, 0, 8);
    Valid4(0, 0, 0, 0, 32);
    Whole6(1);
    Whole6(0);
  }

  lemma Whole6(last: bv8)
    ensures ValidRange(Range6(0, 0, 0, 0, last, 128))
  {
  }

  lemma PrivateValid()
    ensures ValidRanges(PRIVATE)
  {
    hide ValidRange, Mask;
    MaskIs(2);
    MaskIs(4);
    MaskIs(7);
    Valid4(10, 0, 0, 0, 8);
    Valid4(100, 64, 0, 0, 10);
    Valid4(169, 254, 0, 0, 16);
    Valid4(172, 16, 0, 0, 12);
    Valid4(192, 168, 0, 0, 16);
    Valid6(0xfc, 0, 0, 0, 0, 7);
    Valid6(0xfe, 0x80, 0, 0, 0, 10);
  }

  lemma ReservedValid()
    ensures ValidRanges(RESERVED)
  {
    hide ValidRange, Mask;
    MaskIs(4);
    MaskIs(7);
    Valid4(192, 0, 0, 0, 24);
    Valid4(224, 0, 0, 0, 4);
    Valid4(240, 0, 0, 0, 4);
    Valid4(255, 255, 255, 255, 32);
    Valid6(0x20, 0x01, 0, 0, 0, 23);
    Valid6(0xff, 0, 0, 0, 0, 8);
  }

  // ---------------------------------------------------------------------------
  // What a filter means.

  ghost predicate AnyIn(rs: seq<CidrRange>, addr: Address)
    requires ValidRanges(rs) && ValidAddress(addr)
  {
    exists i | 0 <= i < |rs| :: InRange(rs[i], addr)
  }

  /** Some range that holds the address is more specific than `n` bits. */
  ghost predicate AnyNarrower(rs: seq<CidrRange>, addr: Address, n: nat)
    requires ValidRanges(rs) && ValidAddress(addr)
  {
    exists i | 0 <= i < |rs| :: InRange(rs[i], addr) && rs[i].bitCount > n
  }

  predicate IsInternet(addr: Address) {
    addr.V4? || addr.V6?
  }

  /** The flag for a Unix socket: the path of an abstract one starts with a zero byte. */
  predicate UnixAllowed(f: Filter, addr: Address)
    requires addr.Unix?
  {
    if addr.path != [] && addr.path[0] == 0 then f.allowAbstractUnix else f.allowUnix
  }

  ghost predicate IsNetwork(addr: Address)
    requires ValidAddress(addr)
  {
    LocalValid();
    ReservedValid();
    IsInternet(addr) && !AnyIn(LOCAL, addr) && !AnyIn(RESERVED, addr)
  }

  ghost predicate IsPublic(addr: Address)
    requires ValidAddress(addr)
  {
    PrivateValid();
    IsNetwork(addr) && !AnyIn(PRIVATE, addr)
  }

  /** Some allow rule holds for the address. */
  ghost predicate Allowed(f: Filter, addr: Address)
    requires ValidFilter(f) && ValidAddress(addr)
  {
    (f.allowPublic && IsPublic(addr)) || (f.allowNetwork && IsNetwork(addr)) || AnyIn(f.allowCidrs, addr)
  }

  /** Some allow rule holds, and every range denied that holds the address is less specific than
      some range allowed that holds it; `public` and `network` are never more specific. */
  ghost predicate Passes(f: Filter, addr: Address)
    requires ValidFilter(f) && ValidAddress(addr)
  {
    && Allowed(f, addr)
    && forall i | 0 <= i < |f.denyCidrs| ::
         InRange(f.denyCidrs[i], addr) ==> AnyNarrower(f.allowCidrs, addr, f.denyCidrs[i].bitCount)
  }

  /** An internet address passes every filter of the chain; a Unix socket only the first. */
  ghost predicate PassesChain(f: Filter, addr: Address)
    requires ValidFilter(f) && ValidAddress(addr)
    decreases f
  {
    if addr.Unix? then UnixAllowed(f, addr)
    else Passes(f, addr) && (f.next.Some? ==> PassesChain(f.next.value, addr))
  }

  predicate AnyFamily(rs: seq<CidrRange>, addr: Address) {
    exists i | 0 <= i < |rs| :: MatchesFamily(rs[i], addr)
  }

  /** Some allow rule could hold for an address of this family. */
  predicate Parses(f: Filter, addr: Address) {
    if addr.Unix? then UnixAllowed(f, addr)
    else (IsInternet(addr) && (f.allowPublic || f.allowNetwork)) || AnyFamily(f.allowCidrs, addr)
  }

  predicate ParsesChain(f: Filter, addr: Address)
    decreases f
  {
    Parses(f, addr) && (f.next.Some? ==> ParsesChain(f.next.value, addr))
  }

  // ---------------------------------------------------------------------------
  // The program's loops.

  method MatchesAny(cidrs: seq<CidrRange>, addr: Address, behind: bv8) returns (any: bool)
    requires ValidRanges(cidrs) && ValidAddress(addr)
    ensures any <==> AnyIn(cidrs, addr)
  {
    hide InRange, ValidRange;
    var i := 0;
    while i < |cidrs|
      invariant i <= |cidrs| && forall k | 0 <= k < i :: !InRange(cidrs[k], addr)
    {
      var matches := Matches(cidrs[i], addr, behind);
      if matches { return true; }
      i := i + 1;
    }
    return false;
  }

  /** The most specific of the allowed ranges that hold the address; 0 if there is none. */
  method AllowSpecificity(cidrs: seq<CidrRange>, addr: Address, behind: bv8) returns (any: bool, specificity: nat)
    requires ValidRanges(cidrs) && ValidAddress(addr)
    ensures any <==> AnyIn(cidrs, addr)
    ensures forall n: nat :: AnyNarrower(cidrs, addr, n) <==> specificity > n
  {
    hide InRange, ValidRange;
    any, specificity := false, 0;
    var i := 0;
    while i < |cidrs|
      invariant i <= |cidrs|
      invariant any <==> exists k :: 0 <= k < i && InRange(cidrs[k], addr)
      invariant forall k | 0 <= k < i :: InRange(cidrs[k], addr) ==> cidrs[k].bitCount <= specificity
      invariant specificity > 0 ==>
        exists k :: 0 <= k < i && InRange(cidrs[k], addr) && cidrs[k].bitCount == specificity
    {
      var matches := Matches(cidrs[i], addr, behind);
      if matches {
        any := true;
        specificity := if specificity < cidrs[i].bitCount then cidrs[i].bitCount else specificity;
      }
      i := i + 1;
    }
  }

  method PublicOrNetwork(f: Filter, addr: Address, behind: bv8) returns (allowed: bool)
    requires ValidAddress(addr)
    ensures allowed <==> (f.allowPublic && IsPublic(addr)) || (f.allowNetwork && IsNetwork(addr))
  {
    LocalValid();
    PrivateValid();
    ReservedValid();
    hide ValidRanges, AnyIn;
    allowed := false;
    var private := MatchesAny(PRIVATE, addr, behind);
    var local := MatchesAny(LOCAL, addr, behind);
    var reserved := MatchesAny(RESERVED, addr, behind);
    if f.allowPublic && IsInternet(addr) && !private && !local && !reserved { allowed := true; }
    if f.allowNetwork && IsInternet(addr) && !local && !reserved { allowed := true; }
  }

  /** NetworkFilter::shouldAllow */
  method ShouldAllow(f: Filter, addr: Address, behind: bv8) returns (allowed: bool)
    requires ValidFilter(f) && ValidAddress(addr)
    ensures allowed <==> PassesChain(f, addr)
    decreases f
  {
    hide IsPublic, IsNetwork, AnyIn, AnyNarrower, InRange, ValidRange;
    if addr.Unix? {
      return if addr.path != [] && addr.path[0] == 0 then f.allowAbstractUnix else f.allowUnix;
    }
    allowed := PublicOrNetwork(f, addr, behind);
    var any, allowSpecificity := AllowSpecificity(f.allowCidrs, addr, behind);
    allowed := allowed || any;
    if !allowed { return false; }
    var i := 0;
    while i < |f.denyCidrs|
      invariant i <= |f.denyCidrs|
      invariant forall k | 0 <= k < i :: InRange(f.denyCidrs[k], addr) ==> f.denyCidrs[k].bitCount < allowSpecificity
    {
      var matches := Matches(f.denyCidrs[i], addr, behind);
      if matches && f.denyCidrs[i].bitCount >= allowSpecificity { return false; }
      i := i + 1;
    }
    assert Passes(f, addr);
    if f.next.Some? {
      allowed := ShouldAllow(f.next.value, addr, behind);
    }
  }

  /** NetworkFilter::shouldAllowParse */
  method ShouldAllowParse(f: Filter, addr: Address) returns (allowed: bool)
    ensures allowed <==> ParsesChain(f, addr)
    decreases f
  {
    var matched := false;
    if addr.Unix? {
      if addr.path != [] && addr.path[0] == 0 {
        if f.allowAbstractUnix { matched := true; }
      } else {
        if f.allowUnix { matched := true; }
      }
    } else {
      if IsInternet(addr) && (f.allowPublic || f.allowNetwork) { matched := true; }
      var i := 0;
      while i < |f.allowCidrs|
        invariant i <= |f.allowCidrs|
        invariant matched <==> (IsInternet(addr) && (f.allowPublic || f.allowNetwork)) ||
                               exists k :: 0 <= k < i && MatchesFamily(f.allowCidrs[k], addr)
      {
        if MatchesFamily(f.allowCidrs[i], addr) { matched := true; }
        i := i + 1;
      }
    }
    if !matched { return false; }
    if f.next.None? { return true; }
    allowed := ShouldAllowParse(f.next.value, addr);
  }

  // ---------------------------------------------------------------------------
  // Properties.

  /** What is allowed may also be parsed, along any chain, but for Unix sockets. */
  lemma {:induction false} AllowedMayBeParsed(f: Filter, addr: Address)
    requires ValidFilter(f) && ValidAddress(addr) && PassesChain(f, addr) && !addr.Unix?
    ensures ParsesChain(f, addr)
    decreases f
  {
    hide IsPublic, InRange, ValidRange;
    if AnyIn(f.allowCidrs, addr) {
      var i :| 0 <= i < |f.allowCidrs| && InRange(f.allowCidrs[i], addr);
      MatchImpliesFamily(f.allowCidrs[i], addr);
    } else {
      PublicIsNetwork(addr);
    }
    if f.next.Some? { AllowedMayBeParsed(f.next.value, addr); }
  }

  lemma PublicIsNetwork(addr: Address)
    requires ValidAddress(addr) && (IsPublic(addr) || IsNetwork(addr))
    ensures IsInternet(addr)
  {
    hide AnyIn;
  }

  /** The filters behind the first one. */
  function Further(f: Filter): seq<Filter>
    decreases f
  {
    if f.next.None? then [] else [f.next.value] + Further(f.next.value)
  }

  /** A Unix socket that is allowed may be parsed if and only if all the further filters have its
      flag too, which were not asked when it was allowed. */
  lemma {:induction false} UnixMayBeParsedIff(f: Filter, addr: Address)
    requires ValidFilter(f) && addr.Unix? && PassesChain(f, addr)
    ensures var isAbstract := addr.path != [] && addr.path[0] == 0;
            ParsesChain(f, addr) <==>
              forall g | g in Further(f) :: if isAbstract then g.allowAbstractUnix else g.allowUnix
  {
    UnixParses(f, addr);
    hide Passes, ParsesChain, Further;
  }

  lemma {:induction false} UnixParses(f: Filter, addr: Address)
    requires addr.Unix?
    ensures ParsesChain(f, addr) <==> UnixAllowed(f, addr) && forall g | g in Further(f) :: UnixAllowed(g, addr)
    decreases f
  {
    if f.next.Some? { UnixParses(f.next.value, addr); }
  }

  /** A socket that is allowed and may not be parsed. */
  lemma UnixAllowedNotParsed()
    ensures var inner := Filter([], [], false, false, false, false, None);
            var f := Filter([], [], true, false, false, false, Some(inner));
            ValidFilter(f) && PassesChain(f, Unix([1])) && !ParsesChain(f, Unix([1]))
  {
    var inner := Filter([], [], false, false, false, false, None);
    assert !Parses(inner, Unix([1]));
  }

  ghost predicate SameRanges(x: seq<CidrRange>, y: seq<CidrRange>) {
    forall r: CidrRange :: r in x <==> r in y
  }

  lemma SameAnswers(x: seq<CidrRange>, y: seq<CidrRange>, addr: Address, n: nat)
    requires ValidRanges(x) && ValidRanges(y) && ValidAddress(addr) && SameRanges(x, y)
    ensures AnyIn(x, addr) ==> AnyIn(y, addr)
    ensures AnyNarrower(x, addr, n) ==> AnyNarrower(y, addr, n)
  {
    hide InRange, ValidRange;
    if AnyIn(x, addr) {
      var i :| 0 <= i < |x| && InRange(x[i], addr);
      assert x[i] in y;
    }
    if AnyNarrower(x, addr, n) {
      var i :| 0 <= i < |x| && InRange(x[i], addr) && x[i].bitCount > n;
      assert x[i] in y;
    }
  }

  /** Neither the order of the rules nor repeating them matters. */
  lemma OrderIrrelevant(f: Filter, g: Filter, addr: Address)
    requires ValidFilter(f) && ValidFilter(g) && ValidAddress(addr)
    requires SameRanges(f.allowCidrs, g.allowCidrs) && SameRanges(f.denyCidrs, g.denyCidrs)
    requires f.allowPublic == g.allowPublic && f.allowNetwork == g.allowNetwork
    requires Passes(f, addr)
    ensures Passes(g, addr)
  {
    hide InRange, ValidRange, AnyIn, AnyNarrower, IsPublic, IsNetwork;
    SameAnswers(f.allowCidrs, g.allowCidrs, addr, 0);
    forall i | 0 <= i < |g.denyCidrs| && InRange(g.denyCidrs[i], addr)
      ensures AnyNarrower(g.allowCidrs, addr, g.denyCidrs[i].bitCount)
    {
      var d := g.denyCidrs[i];
      assert d in f.denyCidrs;
      var k :| 0 <= k < |f.denyCidrs| && f.denyCidrs[k] == d;
      SameAnswers(f.allowCidrs, g.allowCidrs, addr, d.bitCount);
    }
  }

  /** Denying one more range keeps out its addresses, but for those in a narrower range allowed. */
  lemma DenyExact(f: Filter, r: CidrRange, addr: Address)
    requires ValidFilter(f) && ValidRange(r) && ValidAddress(addr)
    ensures var g := f.(denyCidrs := f.denyCidrs + [r]);
            ValidFilter(g) && (Passes(g, addr) <==>
              Passes(f, addr) && (InRange(r, addr) ==> AnyNarrower(f.allowCidrs, addr, r.bitCount)))
  {
    hide InRange, ValidRange, AnyIn, AnyNarrower, IsPublic, IsNetwork;
    var g := f.(denyCidrs := f.denyCidrs + [r]);
    if Passes(g, addr) {
      assert forall i | 0 <= i < |f.denyCidrs| :: g.denyCidrs[i] == f.denyCidrs[i];
      assert g.denyCidrs[|f.denyCidrs|] == r;
    }
  }

  // ---------------------------------------------------------------------------
  // Configuration.

  /** The ranges an allow rule adds, and those a deny rule adds. */
  function AllowRanges(rule: Rule): seq<CidrRange> {
    match rule
    case Local => LOCAL
    case Private => PRIVATE + LOCAL
    case Single(r) => [r]
    case _ => []
  }

  function DenyRanges(rule: Rule): seq<CidrRange> {
    match rule
    case Local => LOCAL
    case Private => PRIVATE
    case Single(r) => [r]
    case _ => []
  }

  ghost predicate ValidRules(rules: seq<Rule>) {
    forall i | 0 <= i < |rules| :: rules[i].Single? ==> ValidRange(rules[i].range)
  }

  lemma AllowRangesValid(rule: Rule)
    requires rule.Single? ==> ValidRange(rule.range)
    ensures ValidRanges(AllowRanges(rule)) && ValidRanges(DenyRanges(rule))
  {
    LocalValid();
    PrivateValid();
    hide ValidRange;
  }

  /** The address is one of those the allow rule speaks of. */
  ghost predicate RuleAllows(rule: Rule, addr: Address)
    requires (rule.Single? ==> ValidRange(rule.range)) && ValidAddress(addr)
  {
    LocalValid();
    PrivateValid();
    match rule
    case Local => AnyIn(LOCAL, addr)
    case Network => IsNetwork(addr)
    case Private => AnyIn(PRIVATE, addr) || AnyIn(LOCAL, addr)
    case Public => IsPublic(addr)
    case Single(r) => InRange(r, addr)
    case _ => false
  }

  /** The same for a deny rule; a denied `private` leaves the local addresses out. */
  ghost predicate RuleDenies(rule: Rule, addr: Address)
    requires (rule.Single? ==> ValidRange(rule.range)) && ValidAddress(addr)
  {
    LocalValid();
    PrivateValid();
    match rule
    case Local => AnyIn(LOCAL, addr)
    case Private => AnyIn(PRIVATE, addr)
    case Single(r) => InRange(r, addr)
    case _ => false
  }

  /** The ranges whose widths count when an allow rule and a deny rule meet. */
  predicate AllowLists(rule: Rule, r: CidrRange) {
    match rule
    case Local => r in LOCAL
    case Private => r in PRIVATE || r in LOCAL
    case Single(q) => r == q
    case _ => false
  }

  predicate DenyLists(rule: Rule, r: CidrRange) {
    match rule
    case Local => r in LOCAL
    case Private => r in PRIVATE
    case Single(q) => r == q
    case _ => false
  }

  lemma ListedRanges(rule: Rule)
    ensures forall r: CidrRange :: r in AllowRanges(rule) <==> AllowLists(rule, r)
    ensures forall r: CidrRange :: r in DenyRanges(rule) <==> DenyLists(rule, r)
  {
  }

  ghost predicate SomeAllows(rules: seq<Rule>, addr: Address)
    requires ValidRules(rules) && ValidAddress(addr)
  {
    exists i :: 0 <= i < |rules| && RuleAllows(rules[i], addr)
  }

  ghost predicate SomeDenies(rules: seq<Rule>, addr: Address)
    requires ValidRules(rules) && ValidAddress(addr)
  {
    exists i :: 0 <= i < |rules| && RuleDenies(rules[i], addr)
  }

  ghost predicate SomeAllowLists(rules: seq<Rule>, r: CidrRange) {
    exists i :: 0 <= i < |rules| && AllowLists(rules[i], r)
  }

  ghost predicate SomeDenyLists(rules: seq<Rule>, r: CidrRange) {
    exists i :: 0 <= i < |rules| && DenyLists(rules[i], r)
  }

  /** The filter made of these rules: it allows what some rule allows, denies what some rule denies,
      and has just the ranges that they list. */
  ghost predicate Configured(f: Filter, allow: seq<Rule>, deny: seq<Rule>)
    requires ValidRules(allow) && ValidRules(deny)
  {
    && ValidFilter(f)
    && (f.allowUnix <==> UnixSockets in allow && UnixSockets !in deny)
    && (f.allowAbstractUnix <==> AbstractUnixSockets in allow && AbstractUnixSockets !in deny)
    && (forall addr | ValidAddress(addr) :: Allowed(f, addr) <==> SomeAllows(allow, addr))
    && (forall addr | ValidAddress(addr) :: AnyIn(f.denyCidrs, addr) <==> SomeDenies(deny, addr))
    && (forall r: CidrRange :: r in f.allowCidrs <==> SomeAllowLists(allow, r))
    && (forall r: CidrRange :: r in f.denyCidrs <==> SomeDenyLists(deny, r))
  }

  /** NetworkFilter::NetworkFilter: `network` and `public` cannot be denied. */
  method Configure(allow: seq<Rule>, deny: seq<Rule>, next: Option<Filter>) returns (f: Option<Filter>)
    requires ValidRules(allow) && ValidRules(deny) && (next.Some? ==> ValidFilter(next.value))
    ensures f == None <==> Network in deny || Public in deny
    ensures f.Some? ==> f.value.next == next && Configured(f.value, allow, deny)
  {
    hide ValidRange, InRange, AllowRanges, DenyRanges, Allowed, AnyIn, SomeAllows, SomeDenies, SomeAllowLists,
      SomeDenyLists, ValidFilter, ValidRules;
    var g := AddAllowRules(allow, next);
    f := AddDenyRules(g, deny);
  }

  method AddAllowRules(allow: seq<Rule>, next: Option<Filter>) returns (g: Filter)
    requires ValidRules(allow) && (next.Some? ==> ValidFilter(next.value))
    ensures ValidFilter(g) && g.next == next && g.denyCidrs == []
    ensures g.allowUnix == (UnixSockets in allow) && g.allowAbstractUnix == (AbstractUnixSockets in allow)
    ensures forall addr | ValidAddress(addr) :: Allowed(g, addr) <==> SomeAllows(allow, addr)
    ensures forall r: CidrRange :: r in g.allowCidrs <==> SomeAllowLists(allow, r)
  {
    hide ValidRange, InRange, IsPublic, IsNetwork, AllowRanges, AnyIn, RuleAllows, AllowLists, WithAllow, Allowed;
    g := Filter([], [], false, false, false, false, next);
    var i := 0;
    NothingAllowed(g);
    while i < |allow|
      invariant i <= |allow| && ValidFilter(g) && g.next == next && g.denyCidrs == []
      invariant g.allowUnix == (UnixSockets in allow[..i]) && g.allowAbstractUnix == (AbstractUnixSockets in allow[..i])
      invariant forall addr | ValidAddress(addr) ::
        Allowed(g, addr) <==> exists k :: 0 <= k < i && RuleAllows(allow[k], addr)
      invariant forall r: CidrRange :: r in g.allowCidrs <==> exists k :: 0 <= k < i && AllowLists(allow[k], r)
    {
      assert allow[..i + 1] == allow[..i] + [allow[i]];
      AddAllow(g, allow[i]);
      g := WithAllow(g, allow[i]);
      i := i + 1;
    }
    assert allow[..|allow|] == allow;
  }

  method AddDenyRules(f: Filter, deny: seq<Rule>) returns (g: Option<Filter>)
    requires ValidFilter(f) && ValidRules(deny) && f.denyCidrs == []
    ensures g == None <==> Network in deny || Public in deny
    ensures g.Some? ==> ValidFilter(g.value) && g.value.next == f.next
    ensures g.Some? ==> (g.value.allowUnix <==> f.allowUnix && UnixSockets !in deny)
    ensures g.Some? ==> (g.value.allowAbstractUnix <==> f.allowAbstractUnix && AbstractUnixSockets !in deny)
    ensures g.Some? ==> g.value.allowCidrs == f.allowCidrs
    ensures g.Some? ==> forall addr | ValidAddress(addr) :: Allowed(g.value, addr) == Allowed(f, addr)
    ensures g.Some? ==> forall addr | ValidAddress(addr) :: AnyIn(g.value.denyCidrs, addr) <==> SomeDenies(deny, addr)
    ensures g.Some? ==> forall r: CidrRange :: r in g.value.denyCidrs <==> SomeDenyLists(deny, r)
  {
    hide ValidRange, InRange, DenyRanges, Allowed, AnyIn, RuleDenies, DenyLists, WithDeny;
    NothingDenied(f);
    var h := f;
    var i := 0;
    while i < |deny|
      invariant i <= |deny| && ValidFilter(h) && h.next == f.next
      invariant Network !in deny[..i] && Public !in deny[..i]
      invariant h.allowUnix == (f.allowUnix && UnixSockets !in deny[..i])
      invariant h.allowAbstractUnix == (f.allowAbstractUnix && AbstractUnixSockets !in deny[..i])
      invariant h.allowCidrs == f.allowCidrs
      invariant forall addr | ValidAddress(addr) :: Allowed(h, addr) == Allowed(f, addr)
      invariant forall addr | ValidAddress(addr) ::
        AnyIn(h.denyCidrs, addr) <==> exists k :: 0 <= k < i && RuleDenies(deny[k], addr)
      invariant forall r: CidrRange :: r in h.denyCidrs <==> exists k :: 0 <= k < i && DenyLists(deny[k], r)
    {
      if deny[i] == Network || deny[i] == Public { return None; }
      assert deny[..i + 1] == deny[..i] + [deny[i]];
      AllowRangesValid(deny[i]);
      AddDeny(h, deny[i]);
      h := WithDeny(h, deny[i]);
      i := i + 1;
    }
    assert deny[..|deny|] == deny;
    return Some(h);
  }

  /** One allow rule is taken into account. */
  function WithAllow(f: Filter, rule: Rule): Filter {
    match rule
    case Network => f.(allowNetwork := true)
    case Public => f.(allowPublic := true)
    case UnixSockets => f.(allowUnix := true)
    case AbstractUnixSockets => f.(allowAbstractUnix := true)
    case _ => f.(allowCidrs := f.allowCidrs + AllowRanges(rule))
  }

  /** One deny rule, which is neither `network` nor `public`. */
  function WithDeny(f: Filter, rule: Rule): Filter {
    match rule
    case UnixSockets => f.(allowUnix := false)
    case AbstractUnixSockets => f.(allowAbstractUnix := false)
    case _ => f.(denyCidrs := f.denyCidrs + DenyRanges(rule))
  }

  lemma NothingAllowed(f: Filter)
    requires ValidFilter(f) && f.allowCidrs == [] && !f.allowPublic && !f.allowNetwork
    ensures forall addr | ValidAddress(addr) :: !Allowed(f, addr)
  {
    hide IsPublic, IsNetwork, InRange;
  }

  lemma NothingDenied(f: Filter)
    requires ValidFilter(f) && f.denyCidrs == []
    ensures forall addr | ValidAddress(addr) :: !AnyIn(f.denyCidrs, addr)
  {
    hide InRange;
  }

  /** What the ranges of an allow rule hold is what the rule allows, but for `network` and `public`. */
  lemma RangesAllow(rule: Rule, addr: Address)
    requires (rule.Single? ==> ValidRange(rule.range)) && ValidAddress(addr)
    ensures ValidRanges(AllowRanges(rule)) && ValidRanges(DenyRanges(rule))
    ensures rule != Network && rule != Public ==> (AnyIn(AllowRanges(rule), addr) <==> RuleAllows(rule, addr))
    ensures AnyIn(DenyRanges(rule), addr) <==> RuleDenies(rule, addr)
  {
    AllowRangesValid(rule);
    LocalValid();
    PrivateValid();
    hide ValidRange, InRange, IsNetwork, IsPublic;
    match rule
    case Private => AnyInConcat(PRIVATE, LOCAL, addr);
    case Single(r) => AnyInOne(r, addr);
    case _ =>
  }

  lemma AnyInOne(r: CidrRange, addr: Address)
    requires ValidRange(r) && ValidAddress(addr)
    ensures ValidRanges([r]) && (AnyIn([r], addr) <==> InRange(r, addr))
  {
    hide ValidRange, InRange;
    assert [r][0] == r;
  }

  lemma AddAllow(f: Filter, rule: Rule)
    requires ValidFilter(f) && (rule.Single? ==> ValidRange(rule.range))
    ensures ValidFilter(WithAllow(f, rule))
    ensures var g := WithAllow(f, rule);
            && g.next == f.next && g.denyCidrs == f.denyCidrs
            && g.allowUnix == (f.allowUnix || rule == UnixSockets)
            && g.allowAbstractUnix == (f.allowAbstractUnix || rule == AbstractUnixSockets)
    ensures forall r: CidrRange :: r in WithAllow(f, rule).allowCidrs <==> r in f.allowCidrs || AllowLists(rule, r)
    ensures forall addr | ValidAddress(addr) ::
              Allowed(WithAllow(f, rule), addr) <==> Allowed(f, addr) || RuleAllows(rule, addr)
  {
    hide ValidRange, InRange, IsPublic, IsNetwork;
    AllowRangesValid(rule);
    ListedRanges(rule);
    hide AllowRanges, AnyIn, AllowLists, RuleAllows;
    NothingListed(rule);
    forall addr | ValidAddress(addr)
      ensures Allowed(WithAllow(f, rule), addr) <==> Allowed(f, addr) || RuleAllows(rule, addr)
    {
      AnyInConcat(f.allowCidrs, AllowRanges(rule), addr);
      RangesAllow(rule, addr);
      FlagAllows(rule, addr);
    }
  }

  lemma NothingListed(rule: Rule)
    ensures rule.Network? || rule.Public? || rule.UnixSockets? || rule.AbstractUnixSockets? ==>
              forall r: CidrRange :: !AllowLists(rule, r) && !DenyLists(rule, r)
  {
  }

  lemma FlagAllows(rule: Rule, addr: Address)
    requires (rule.Single? ==> ValidRange(rule.range)) && ValidAddress(addr)
    ensures rule == Network ==> (RuleAllows(rule, addr) <==> IsNetwork(addr))
    ensures rule == Public ==> (RuleAllows(rule, addr) <==> IsPublic(addr))
    ensures rule == UnixSockets || rule == AbstractUnixSockets ==> !RuleAllows(rule, addr) && !RuleDenies(rule, addr)
  {
    hide IsNetwork, IsPublic;
  }

  lemma AnyInConcat(x: seq<CidrRange>, y: seq<CidrRange>, addr: Address)
    requires ValidRanges(x) && ValidRanges(y) && ValidAddress(addr)
    ensures ValidRanges(x + y) && (AnyIn(x + y, addr) <==> AnyIn(x, addr) || AnyIn(y, addr))
  {
    hide ValidRange, InRange;
    assert forall i | 0 <= i < |x| :: (x + y)[i] == x[i];
    assert forall i | 0 <= i < |y| :: (x + y)[|x| + i] == y[i];
  }

  lemma AddDeny(f: Filter, rule: Rule)
    requires ValidFilter(f) && (rule.Single? ==> ValidRange(rule.range)) && rule != Network && rule != Public
    ensures ValidFilter(WithDeny(f, rule))
    ensures var g := WithDeny(f, rule);
            && g.next == f.next && g.allowCidrs == f.allowCidrs
            && g.allowUnix == (f.allowUnix && rule != UnixSockets)
            && g.allowAbstractUnix == (f.allowAbstractUnix && rule != AbstractUnixSockets)
    ensures forall addr | ValidAddress(addr) :: Allowed(WithDeny(f, rule), addr) == Allowed(f, addr)
    ensures forall addr | ValidAddress(addr) ::
              AnyIn(WithDeny(f, rule).denyCidrs, addr) <==> AnyIn(f.denyCidrs, addr) || RuleDenies(rule, addr)
    ensures forall r: CidrRange :: r in WithDeny(f, rule).denyCidrs <==> r in f.denyCidrs || DenyLists(rule, r)
  {
    AllowRangesValid(rule);
    ListedRanges(rule);
    NothingListed(rule);
    hide ValidRange, InRange, AnyIn, IsPublic, IsNetwork, DenyRanges, DenyLists, RuleDenies;
    forall addr | ValidAddress(addr)
      ensures AnyIn(WithDeny(f, rule).denyCidrs, addr) <==> AnyIn(f.denyCidrs, addr) || RuleDenies(rule, addr)
    {
      AnyInConcat(f.denyCidrs, DenyRanges(rule), addr);
      RangesAllow(rule, addr);
      FlagAllows(rule, addr);
    }
  }

  /** The whole rule for an internet address: it passes if and only if some allow rule allows it, and
      for every range that a deny rule lists and that holds it, an allow rule lists a narrower one
      that does. */
  lemma ConfiguredPasses(f: Filter, allow: seq<Rule>, deny: seq<Rule>, addr: Address)
    requires ValidRules(allow) && ValidRules(deny) && Configured(f, allow, deny) && ValidAddress(addr)
    ensures forall r: CidrRange | SomeAllowLists(allow, r) || SomeDenyLists(deny, r) :: ValidRange(r)
    ensures Passes(f, addr) <==>
            && SomeAllows(allow, addr)
            && forall r: CidrRange | SomeDenyLists(deny, r) && InRange(r, addr) ::
                 exists q: CidrRange :: SomeAllowLists(allow, q) && InRange(q, addr) && q.bitCount > r.bitCount
  {
    hide ValidRange, InRange, Allowed, SomeAllows, SomeDenies, SomeAllowLists, SomeDenyLists, ValidRules;
    forall r: CidrRange | SomeAllowLists(allow, r) || SomeDenyLists(deny, r) ensures ValidRange(r) {
      if SomeAllowLists(allow, r) {
        var i :| 0 <= i < |f.allowCidrs| && f.allowCidrs[i] == r;
      } else {
        var i :| 0 <= i < |f.denyCidrs| && f.denyCidrs[i] == r;
      }
    }
    forall n: nat
      ensures AnyNarrower(f.allowCidrs, addr, n) <==>
              exists q: CidrRange :: SomeAllowLists(allow, q) && InRange(q, addr) && q.bitCount > n
    {
      if AnyNarrower(f.allowCidrs, addr, n) {
        var i :| 0 <= i < |f.allowCidrs| && InRange(f.allowCidrs[i], addr) && f.allowCidrs[i].bitCount > n;
        assert SomeAllowLists(allow, f.allowCidrs[i]);
      }
      if q: CidrRange :| SomeAllowLists(allow, q) && InRange(q, addr) && q.bitCount > n {
        var i :| 0 <= i < |f.allowCidrs| && f.allowCidrs[i] == q;
      }
    }
    hide AnyNarrower;
    if forall r: CidrRange | SomeDenyLists(deny, r) && InRange(r, addr) :: AnyNarrower(f.allowCidrs, addr, r.bitCount) {
      forall i | 0 <= i < |f.denyCidrs| && InRange(f.denyCidrs[i], addr)
        ensures AnyNarrower(f.allowCidrs, addr, f.denyCidrs[i].bitCount)
      {
        assert SomeDenyLists(deny, f.denyCidrs[i]);
      }
    }
    if Passes(f, addr) {
      forall r: CidrRange | SomeDenyLists(deny, r) && InRange(r, addr)
        ensures AnyNarrower(f.allowCidrs, addr, r.bitCount)
      {
        var i :| 0 <= i < |f.denyCidrs| && f.denyCidrs[i] == r;
      }
    }
  }

  /** What a rule denies and no rule lists a range for never passes, not as part of `network` or
      `public` either. */
  lemma DeniedNeverPasses(f: Filter, allow: seq<Rule>, deny: seq<Rule>, addr: Address)
    requires ValidRules(allow) && ValidRules(deny) && Configured(f, allow, deny) && ValidAddress(addr)
    requires SomeDenies(deny, addr)
    requires forall i | 0 <= i < |allow| :: allow[i] == Network || allow[i] == Public || !RuleAllows(allow[i], addr)
    ensures !Passes(f, addr)
  {
    hide ValidRange, InRange, Allowed, SomeDenies, SomeDenyLists, IsNetwork, IsPublic;
    assert AnyIn(f.denyCidrs, addr);
    var i :| 0 <= i < |f.denyCidrs| && InRange(f.denyCidrs[i], addr);
    if AnyNarrower(f.allowCidrs, addr, f.denyCidrs[i].bitCount) {
      var j :| 0 <= j < |f.allowCidrs| && InRange(f.allowCidrs[j], addr);
      assert SomeAllowLists(allow, f.allowCidrs[j]);
      var k :| 0 <= k < |allow| && AllowLists(allow[k], f.allowCidrs[j]);
      ListedIsAllowed(allow[k], f.allowCidrs[j], addr);
    }
  }

  lemma ListedIsAllowed(rule: Rule, r: CidrRange, addr: Address)
    requires (rule.Single? ==> ValidRange(rule.range)) && ValidRange(r) && ValidAddress(addr)
    requires AllowLists(rule, r) && InRange(r, addr)
    ensures RuleAllows(rule, addr) && rule != Network && rule != Public
  {
    LocalValid();
    PrivateValid();
    hide ValidRange, InRange;
  }

  /** The filter that a program starts with. */
  const DEFAULT: Filter := Filter(
    [Range4(0, 0, 0, 0, 0), Range6(0, 0, 0, 0, 0, 0)], [], true, true, false, false, None)

  /** It lets everything through. */
  lemma DefaultPasses(addr: Address)
    requires ValidAddress(addr) && addr != Other
    ensures ValidFilter(DEFAULT) && PassesChain(DEFAULT, addr) && ParsesChain(DEFAULT, addr)
  {
    Valid4(0, 0, 0, 0, 0);
    Valid6(0, 0, 0, 0, 0, 0);
    assert ValidRange(DEFAULT.allowCidrs[0]) && ValidRange(DEFAULT.allowCidrs[1]);
    hide ValidRange, IsNetwork, IsPublic;
    if !addr.Unix? {
      var i := if addr.V4? then 0 else 1;
      assert InRange(DEFAULT.allowCidrs[i], addr);
      assert MatchesFamily(DEFAULT.allowCidrs[i], addr);
    }
  }
}
