/** Conservative pricing: decimal dollar prices turned into whole picodollars, rounded up,
    and a peak rate quoted from them, all in checked 64-bit arithmetic. */
module Pricing {
  import opened Basics
  import opened Bytes

  const MAX_I64 := 0x7fff_ffff_ffff_ffff
  const MAX_TEXT := 64
  const DOT: byte := 46
  const ZERO: byte := 48

  predicate IsDigit(b: byte) {
    ZERO <= b <= ZERO + 9
  }

  predicate AllDigits(s: seq<byte>) {
    forall i :: 0 <= i < |s| ==> IsDigit(s[i])
  }

  function Pow10(n: nat): (r: nat)
    ensures r > 0
  {
    if n == 0 then 1 else 10 * Pow10(n - 1)
  }

  /** What a run of digits denotes. */
  function Number(s: seq<byte>): nat
    requires AllDigits(s)
  {
    if s == [] then 0 else Number(s[..|s| - 1]) * 10 + (s[|s| - 1] - ZERO)
  }

  // ----- the decimal -----

  datatype Decimal = Decimal(whole: seq<byte>, fraction: seq<byte>)

  /** `split_once('.')`, the whole text where there is no dot. */
  function Split(text: seq<byte>): Decimal {
    var dot := FirstDot(text);
    if dot == |text| then Decimal(text, []) else Decimal(text[..dot], text[dot + 1..])
  }

  function FirstDot(text: seq<byte>): (i: nat)
    ensures i <= |text| && (i < |text| ==> text[i] == DOT)
    ensures forall j :: 0 <= j < i ==> text[j] != DOT
  {
    if text == [] || text[0] == DOT then 0 else 1 + FirstDot(text[1..])
  }

  predicate WellFormed(d: Decimal) {
    d.whole != [] && AllDigits(d.whole) && AllDigits(d.fraction)
  }

  /** The value is `Numerator / Pow10(|fraction|)` dollars. */
  function Numerator(d: Decimal): nat
    requires WellFormed(d)
  {
    Number(d.whole + d.fraction)
  }

  /** `q` is the least whole number of picodollars that is not below the value. */
  ghost predicate IsCeiling(d: Decimal, q: int)
    requires WellFormed(d)
  {
    (q - 1) * Pow10(|d.fraction|) < Numerator(d) * Pow10(12) <= q * Pow10(|d.fraction|)
  }

  lemma CeilingUnique(d: Decimal, q: int, r: int)
    requires WellFormed(d) && IsCeiling(d, q) && IsCeiling(d, r)
    ensures q == r
  {
    var p := Pow10(|d.fraction|);
    if q < r { MulMonotone(q, r - 1, p); }
    if r < q { MulMonotone(r, q - 1, p); }
  }

  lemma MulStrict(a: int, b: int, p: int)
    requires a < b && p > 0
    ensures a * p < b * p
  {
    MulMonotone(a + 1, b, p);
    NextMultiple(a, p);
  }

  // ----- digits and powers -----

  lemma {:induction false} PowAdd(a: nat, b: nat)
    ensures Pow10(a + b) == Pow10(a) * Pow10(b)
    decreases a
  {
    if a > 0 {
      PowAdd(a - 1, b);
      Regroup(10, Pow10(a - 1), Pow10(b));
    }
  }

  lemma {:induction false} NumberConcat(a: seq<byte>, b: seq<byte>)
    requires AllDigits(a) && AllDigits(b)
    ensures AllDigits(a + b) && Number(a + b) == Number(a) * Pow10(|b|) + Number(b)
    decreases |b|
  {
    if b == [] {
      assert a + b == a;
    } else {
      var n := |b| - 1;
      NumberConcat(a, b[..n]);
      assert (a + b)[..|a + b| - 1] == a + b[..n];
      NumberShift(Number(a), Pow10(n), Number(b[..n]), b[n] - ZERO);
    }
  }

  lemma NumberShift(a: nat, p: nat, b: nat, c: nat)
    ensures (a * p + b) * 10 + c == a * (10 * p) + (b * 10 + c)
  {
  }

  /** A run of digits denotes less than its power of ten, and nothing exactly when it is all
      zeros. */
  lemma {:induction false} NumberBound(s: seq<byte>)
    requires AllDigits(s)
    ensures Number(s) < Pow10(|s|)
    ensures Number(s) == 0 <==> AllZeros(s)
    decreases |s|
  {
    if s != [] {
      NumberBound(s[..|s| - 1]);
    }
  }

  predicate AllZeros(s: seq<byte>) {
    forall i :: 0 <= i < |s| ==> s[i] == ZERO
  }

  // ----- twelve places -----

  /** A fraction's digit at a place, zero beyond its end. */
  function Place(fraction: seq<byte>, i: nat): nat
    requires AllDigits(fraction)
  {
    if i < |fraction| then fraction[i] - ZERO else 0
  }

  /** The first `n` places as a number. */
  function Places(fraction: seq<byte>, n: nat): nat
    requires AllDigits(fraction)
  {
    if n == 0 then 0 else Places(fraction, n - 1) * 10 + Place(fraction, n - 1)
  }

  lemma {:induction false} PlacesWithin(fraction: seq<byte>, n: nat)
    requires AllDigits(fraction) && n <= |fraction|
    ensures Places(fraction, n) == Number(fraction[..n])
    decreases n
  {
    if n > 0 {
      PlacesWithin(fraction, n - 1);
      assert fraction[..n][..n - 1] == fraction[..n - 1];
    }
  }

  lemma {:induction false} PlacesBeyond(fraction: seq<byte>, extra: nat)
    requires AllDigits(fraction)
    ensures Places(fraction, |fraction| + extra) == Number(fraction) * Pow10(extra)
    decreases extra
  {
    if extra == 0 {
      PlacesWithin(fraction, |fraction|);
      assert fraction[..|fraction|] == fraction;
    } else {
      PlacesBeyond(fraction, extra - 1);
      assert Number(fraction) * Pow10(extra - 1) * 10 == Number(fraction) * (10 * Pow10(extra - 1));
    }
  }

  lemma {:induction false} PlacesBound(fraction: seq<byte>, n: nat)
    requires AllDigits(fraction)
    ensures Places(fraction, n) < Pow10(n)
    decreases n
  {
    if n > 0 {
      PlacesBound(fraction, n - 1);
    }
  }

  function Tail(fraction: seq<byte>): seq<byte> {
    if |fraction| <= 12 then [] else fraction[12..]
  }

  /** What the code adds up. */
  function Picodollars(d: Decimal): int
    requires WellFormed(d)
  {
    Number(d.whole) * Pow10(12) + Places(d.fraction, 12) + if AllZeros(Tail(d.fraction)) then 0 else 1
  }

  lemma ShortCeiling(d: Decimal)
    requires WellFormed(d) && |d.fraction| <= 12
    ensures IsCeiling(d, Picodollars(d))
  {
    var n := |d.fraction|;
    var extra := 12 - n;
    PlacesBeyond(d.fraction, extra);
    NumberConcat(d.whole, d.fraction);
    PowAdd(n, extra);
    ShortSum(Number(d.whole), Number(d.fraction), Pow10(n), Pow10(extra));
  }

  lemma ShortSum(w: nat, f: nat, p: nat, e: nat)
    requires p > 0 && e > 0
    ensures var q := w * (p * e) + f * e;
            (q - 1) * p < (w * p + f) * (p * e) == q * p
  {
    assert (w * p + f) * (p * e) == (w * (p * e) + f * e) * p;
  }

  /** With more than twelve places: those up to the twelfth, and the rest. */
  lemma LongParts(d: Decimal) returns (base: nat, rest: nat, p: nat)
    requires WellFormed(d) && |d.fraction| > 12
    ensures Numerator(d) == base * p + rest && rest < p && Pow10(|d.fraction|) == p * Pow10(12)
    ensures Picodollars(d) == base + if rest == 0 then 0 else 1
  {
    var a, b := d.fraction[..12], d.fraction[12..];
    assert d.fraction == a + b && d.whole + d.fraction == (d.whole + a) + b;
    base, rest, p := Number(d.whole + a), Number(b), Pow10(|b|);
    PlacesWithin(d.fraction, 12);
    NumberConcat(d.whole, a);
    NumberConcat(d.whole + a, b);
    NumberBound(b);
    PowAdd(|b|, 12);
  }

  lemma LongCeiling(d: Decimal)
    requires WellFormed(d) && |d.fraction| > 12
    ensures IsCeiling(d, Picodollars(d))
  {
    var base, rest, p := LongParts(d);
    LongSum(base, rest, p, Pow10(12));
  }

  lemma LongSum(base: nat, rest: nat, p: nat, t: nat)
    requires rest < p && t > 0
    ensures var q := base + if rest == 0 then 0 else 1;
            (q - 1) * (p * t) < (base * p + rest) * t <= q * (p * t)
  {
    var q := base + if rest == 0 then 0 else 1;
    NextMultiple(q - 1, p);
    NextMultiple(base, p);
    Regroup(q - 1, p, t);
    Regroup(q, p, t);
    MulStrict((q - 1) * p, base * p + rest, t);
    MulMonotone(base * p + rest, q * p, t);
  }

  lemma PicodollarsIsCeiling(d: Decimal)
    requires WellFormed(d)
    ensures IsCeiling(d, Picodollars(d))
  {
    if |d.fraction| <= 12 { ShortCeiling(d); } else { LongCeiling(d); }
  }

  // ----- the checked code -----

  lemma OnlyPicodollars(text: seq<byte>)
    requires WellFormed(Split(text))
    ensures forall q :: Priced(text, q) ==> q == Picodollars(Split(text))
  {
    var d := Split(text);
    PicodollarsIsCeiling(d);
    forall q | Priced(text, q) ensures q == Picodollars(d) {
      CeilingUnique(d, q, Picodollars(d));
    }
  }

  function Checked(n: int): Option<int> {
    if -MAX_I64 - 1 <= n <= MAX_I64 then Some(n) else None
  }

  /** `parse::<i64>` on digits. */
  function ParseI64(s: seq<byte>): Option<int>
    requires AllDigits(s)
  {
    Checked(Number(s))
  }

  /** `text` is accepted with `q`: a well-formed decimal of at most 64 bytes whose value,
      rounded up to whole picodollars, is `q`, which is positive and fits. */
  ghost predicate Priced(text: seq<byte>, q: int) {
    |text| <= MAX_TEXT && WellFormed(Split(text)) && IsCeiling(Split(text), q) && 1 <= q <= MAX_I64
  }

  method CheckedTotal(whole: int, fractional: int, roundUp: int) returns (r: Option<int>)
    requires whole >= 0 && fractional >= 0 && roundUp >= 0
    ensures var total := whole * 1_000_000_000_000 + fractional + roundUp;
            r == if 0 < total <= MAX_I64 then Some(total) else None
  {
    var product := Checked(whole * 1_000_000_000_000);
    if product.None? {
      return None;
    }
    var sum := Checked(product.value + fractional);
    if sum.None? {
      return None;
    }
    var total := Checked(sum.value + roundUp);
    if total.None? || total.value <= 0 {
      return None;
    }
    return total;
  }

  // ----- the same, on the text -----

  /** A non-empty run of digits, and behind a dot, if there is one, another run. */
  ghost predicate Spells(text: seq<byte>, whole: seq<byte>, fraction: seq<byte>) {
    && whole != [] && ((text == whole && fraction == []) || text == whole + [46] + fraction)
    && (forall i :: 0 <= i < |whole| ==> 48 <= whole[i] <= 57)
    && (forall i :: 0 <= i < |fraction| ==> 48 <= fraction[i] <= 57)
  }

  /** `q` is the least integer not below the number the digits make, scaled by ten to the
      twelfth and down by ten for each digit behind the dot. */
  ghost predicate Ceils(whole: seq<byte>, fraction: seq<byte>, q: int)
    requires AllDigits(whole + fraction)
  {
    (q - 1) * Pow10(|fraction|) < Number(whole + fraction) * Pow10(12) <= q * Pow10(|fraction|)
  }

  ghost predicate PricedText(text: seq<byte>, q: int) {
    |text| <= 64 && 1 <= q <= 0x7fff_ffff_ffff_ffff &&
    exists whole, fraction :: Spells(text, whole, fraction) && Ceils(whole, fraction, q)
  }

  lemma SpelledSplits(text: seq<byte>, whole: seq<byte>, fraction: seq<byte>)
    requires Spells(text, whole, fraction)
    ensures Split(text) == Decimal(whole, fraction) && WellFormed(Split(text))
  {
    var dot := FirstDot(text);
    assert forall i :: 0 <= i < |whole| ==> text[i] == whole[i] != 46;
    if text != whole {
      assert text[|whole|] == 46;
      assert text[..|whole|] == whole && text[|whole| + 1..] == fraction;
    }
  }

  lemma SplitSpells(text: seq<byte>)
    requires WellFormed(Split(text))
    ensures Spells(text, Split(text).whole, Split(text).fraction)
  {
    var dot := FirstDot(text);
    if dot < |text| {
      assert text == text[..dot] + [46] + text[dot + 1..];
    }
  }

  /** What the split text says is what the text says. */
  lemma PricedIff(text: seq<byte>, q: int)
    ensures PricedText(text, q) <==> Priced(text, q)
  {
    if PricedText(text, q) {
      var whole, fraction :| Spells(text, whole, fraction) && Ceils(whole, fraction, q);
      SpelledSplits(text, whole, fraction);
    }
    if Priced(text, q) {
      SplitSpells(text);
      assert Ceils(Split(text).whole, Split(text).fraction, q);
    }
  }

  /** A price is accepted exactly when it is digits, or digits, a dot and digits, at most 64
      bytes in all, whose value, rounded up to whole picodollars, is positive and fits; that is
      the result. */
  method DecimalPicodollars(text: seq<byte>) returns (r: Option<int>)
    ensures r.Some? ==> PricedText(text, r.value)
    ensures r.None? ==> forall q :: !PricedText(text, q)
  {
    r := SplitPicodollars(text);
    forall q ensures PricedText(text, q) <==> Priced(text, q) {
      PricedIff(text, q);
    }
  }

  method SplitPicodollars(text: seq<byte>) returns (r: Option<int>)
    ensures r.Some? ==> Priced(text, r.value)
    ensures r.None? ==> forall q :: !Priced(text, q)
  {
    if |text| > MAX_TEXT {
      return None;
    }
    var d := Split(text);
    if !WellFormed(d) {
      return None;
    }
    PicodollarsIsCeiling(d);
    PlacesBound(d.fraction, 12);
    Pow10Of12();
    OnlyPicodollars(text);
    var whole := ParseI64(d.whole);
    if whole.None? {
      return None;
    }
    var fractional := 0;
    for index := 0 to 12
      invariant fractional == Places(d.fraction, index)
    {
      fractional := fractional * 10 + Place(d.fraction, index);
    }
    var roundUp := if AllZeros(Tail(d.fraction)) then 0 else 1;
    r := CheckedTotal(whole.value, fractional, roundUp);
  }

  lemma Pow10Of12()
    ensures Pow10(12) == 1_000_000_000_000
  {
    assert Pow10(4) == 10_000;
    PowAdd(4, 4);
    PowAdd(8, 4);
  }

  // ----- the quote -----

  /** Gigabytes and vCPUs at peak for each memory size sold. */
  function Peak(minimumMemoryMib: int): Option<(int, int)> {
    match minimumMemoryMib
    case 512 => Some((2, 1))
    case 1024 => Some((4, 2))
    case 2048 => Some((8, 4))
    case 4096 => Some((16, 8))
    case 8192 => Some((32, 16))
    case _ => None
  }

  /** A decimal's exact value in picodollars. */
  ghost function Exact(d: Decimal): real
    requires WellFormed(d)
  {
    (Numerator(d) * Pow10(12)) as real / Pow10(|d.fraction|) as real
  }

  ghost predicate RoundsUp(x: real, q: int) {
    q as real - 1.0 < x <= q as real
  }

  lemma PricedRoundsUp(text: seq<byte>, q: int)
    requires Priced(text, q)
    ensures RoundsUp(Exact(Split(text)), q)
  {
    CeilingOfExact(Split(text), q);
  }

  lemma CeilingOfExact(d: Decimal, q: int)
    requires WellFormed(d) && IsCeiling(d, q)
    ensures RoundsUp(Exact(d), q)
  {
    QuotientBounds(q, Numerator(d) * Pow10(12), Pow10(|d.fraction|));
  }

  lemma QuotientBounds(q: int, n: int, p: int)
    requires p > 0 && (q - 1) * p < n <= q * p
    ensures (q - 1) as real < n as real / p as real <= q as real
  {
    RealProduct(q, p);
    RealProduct(q - 1, p);
    LessQuotient((q - 1) as real, n as real, p as real);
    QuotientAtMost(q as real, n as real, p as real);
  }

  lemma RealProduct(a: int, b: int)
    ensures (a * b) as real == a as real * b as real
  {
  }

  lemma ProductSign(a: real, b: real)
    requires a >= 0.0 && b >= 0.0
    ensures a * b >= 0.0
  {
  }

  lemma LessQuotient(a: real, n: real, p: real)
    requires p > 0.0 && a * p < n
    ensures a < n / p
  {
    var x := n / p;
    assert x * p == n && (a - x) * p == a * p - x * p;
    if a >= x {
      ProductSign(a - x, p);
      assert false;
    }
  }

  lemma QuotientAtMost(a: real, n: real, p: real)
    requires p > 0.0 && n <= a * p
    ensures n / p <= a
  {
    var x := n / p;
    assert x * p == n && (x - a) * p == x * p - a * p;
    if x > a {
      assert false;
    }
  }

  /** The checked products and sum of positive rates and weights. */
  method PeakRate(cpuRate: int, memoryRate: int, cpu: int, memory: int) returns (r: Option<int>)
    requires cpuRate > 0 && memoryRate > 0 && cpu > 0 && memory > 0
    ensures r == if cpuRate * cpu + memoryRate * memory <= MAX_I64 then Some(cpuRate * cpu + memoryRate * memory) else None
  {
    var cpuCost, memoryCost := Checked(cpuRate * cpu), Checked(memoryRate * memory);
    assert cpuRate * cpu > 0 && memoryRate * memory > 0;
    if cpuCost.None? || memoryCost.None? {
      return None;
    }
    r := Checked(cpuCost.value + memoryCost.value);
    if r.Some? && r.value <= 0 {
      r := None;
    }
  }

  /** Not below the exact amount, and above it by less than `units`. */
  ghost predicate Covers(amount: int, exact: real, units: int) {
    exact <= amount as real < exact + units as real
  }

  /** The rate at a size's peak, for prices in whole picodollars. */
  function RateAt(minimumMemoryMib: int, cpuRate: int, memoryRate: int): int
    requires Peak(minimumMemoryMib).Some?
  {
    var (memory, cpu) := Peak(minimumMemoryMib).value;
    cpuRate * cpu + memoryRate * memory
  }

  predicate RateFits(minimumMemoryMib: int, cpuRate: int, memoryRate: int) {
    Peak(minimumMemoryMib).Some? && RateAt(minimumMemoryMib, cpuRate, memoryRate) <= MAX_I64
  }

  /** `rate` is what accepted prices come to at that size, and it fits. */
  ghost predicate QuotedAt(cpuPrice: seq<byte>, memoryPrice: seq<byte>, minimumMemoryMib: int, rate: int) {
    exists p, q :: Priced(cpuPrice, p) && Priced(memoryPrice, q) && RateFits(minimumMemoryMib, p, q)
                   && rate == RateAt(minimumMemoryMib, p, q)
  }

  lemma PricedUnique(text: seq<byte>, p: int, q: int)
    requires Priced(text, p) && Priced(text, q)
    ensures p == q
  {
    CeilingUnique(Split(text), p, q);
  }

  /** A rate never below the exact peak price, for exact prices `x` and `y`, and above it by
      less than one picodollar for each unit priced. */
  ghost predicate CoversPeak(x: real, y: real, minimumMemoryMib: int, rate: int) {
    Peak(minimumMemoryMib).Some? && 0 < rate &&
    var (memory, cpu) := Peak(minimumMemoryMib).value;
    Covers(rate, cpu as real * x + memory as real * y, cpu + memory)
  }

  lemma RateCoversPeak(minimumMemoryMib: int, p: int, q: int, x: real, y: real)
    requires Peak(minimumMemoryMib).Some? && p > 0 && q > 0 && RoundsUp(x, p) && RoundsUp(y, q)
    ensures CoversPeak(x, y, minimumMemoryMib, RateAt(minimumMemoryMib, p, q))
  {
    var (memory, cpu) := Peak(minimumMemoryMib).value;
    assert memory > 0 && cpu > 0;
    Weighted(cpu, memory, p, q, x, y, RateAt(minimumMemoryMib, p, q));
  }

  ghost predicate CoversPrices(cpuPrice: seq<byte>, memoryPrice: seq<byte>, minimumMemoryMib: int, rate: int) {
    && WellFormed(Split(cpuPrice)) && WellFormed(Split(memoryPrice))
    && CoversPeak(Exact(Split(cpuPrice)), Exact(Split(memoryPrice)), minimumMemoryMib, rate)
  }

  lemma PricedCovers(cpuPrice: seq<byte>, memoryPrice: seq<byte>, minimumMemoryMib: int, p: int, q: int)
    requires Priced(cpuPrice, p) && Priced(memoryPrice, q) && RateFits(minimumMemoryMib, p, q)
    ensures CoversPrices(cpuPrice, memoryPrice, minimumMemoryMib, RateAt(minimumMemoryMib, p, q))
  {
    PricedRoundsUp(cpuPrice, p);
    PricedRoundsUp(memoryPrice, q);
    RateCoversPeak(minimumMemoryMib, p, q, Exact(Split(cpuPrice)), Exact(Split(memoryPrice)));
  }

  /** A quoted rate covers the exact prices at the peak. */
  lemma QuotedCovers(cpuPrice: seq<byte>, memoryPrice: seq<byte>, minimumMemoryMib: int, rate: int)
    requires QuotedAt(cpuPrice, memoryPrice, minimumMemoryMib, rate)
    ensures CoversPrices(cpuPrice, memoryPrice, minimumMemoryMib, rate)
  {
    var p, q :| Priced(cpuPrice, p) && Priced(memoryPrice, q) && RateFits(minimumMemoryMib, p, q)
                && rate == RateAt(minimumMemoryMib, p, q);
    PricedCovers(cpuPrice, memoryPrice, minimumMemoryMib, p, q);
  }

  /** The rate for prices already in picodollars. */
  method QuoteRates(cpuRate: Option<int>, memoryRate: Option<int>, minimumMemoryMib: int) returns (r: Option<int>)
    requires (cpuRate.Some? ==> cpuRate.value > 0) && (memoryRate.Some? ==> memoryRate.value > 0)
    ensures r.Some? <==> cpuRate.Some? && memoryRate.Some? && RateFits(minimumMemoryMib, cpuRate.value, memoryRate.value)
    ensures r.Some? ==> r.value == RateAt(minimumMemoryMib, cpuRate.value, memoryRate.value)
  {
    var peak := Peak(minimumMemoryMib);
    if peak.None? || cpuRate.None? || memoryRate.None? {
      return None;
    }
    var (memory, cpu) := peak.value;
    assert memory > 0 && cpu > 0;
    r := PeakRate(cpuRate.value, memoryRate.value, cpu, memory);
  }

  /** `rate` is the text's price, if it has one. */
  ghost predicate PriceOf(text: seq<byte>, rate: Option<int>) {
    if rate.Some? then Priced(text, rate.value) else forall p :: !Priced(text, p)
  }

  lemma NothingQuoted(cpuPrice: seq<byte>, memoryPrice: seq<byte>, cpuRate: Option<int>, memoryRate: Option<int>, minimumMemoryMib: int)
    requires PriceOf(cpuPrice, cpuRate) && PriceOf(memoryPrice, memoryRate)
    requires cpuRate.Some? && memoryRate.Some? ==> !RateFits(minimumMemoryMib, cpuRate.value, memoryRate.value)
    ensures forall rate :: !QuotedAt(cpuPrice, memoryPrice, minimumMemoryMib, rate)
  {
    forall p, q | Priced(cpuPrice, p) && Priced(memoryPrice, q) ensures !RateFits(minimumMemoryMib, p, q) {
      PricedUnique(cpuPrice, p, cpuRate.value);
      PricedUnique(memoryPrice, q, memoryRate.value);
    }
  }

  lemma Weighted(a: int, b: int, p: int, q: int, x: real, y: real, total: int)
    requires a > 0 && b > 0 && RoundsUp(x, p) && RoundsUp(y, q) && total == p * a + q * b
    ensures Covers(total, a as real * x + b as real * y, a + b)
  {
    var pa, qb := p * a, q * b;
    RealProduct(p, a);
    RealProduct(q, b);
    Scaled(a as real, p as real, x, pa as real, a as real * x);
    Scaled(b as real, q as real, y, qb as real, b as real * y);
    CoversSum(pa, a as real * x, a, qb, b as real * y, b);
  }

  lemma CoversSum(m: int, x: real, a: int, n: int, y: real, b: int)
    requires Covers(m, x, a) && Covers(n, y, b)
    ensures Covers(m + n, x + y, a + b)
  {
  }

  lemma Scaled(a: real, p: real, x: real, pa: real, ax: real)
    requires a > 0.0 && p - 1.0 < x <= p && pa == p * a && ax == a * x
    ensures ax <= pa < ax + a
  {
    var d := p - x;
    ProductSign(a, d);
    ProductBelow(a, d);
    assert a * d == pa - ax;
  }

  lemma ProductBelow(a: real, d: real)
    requires a > 0.0 && d < 1.0
    ensures a * d < a
  {
    var e := 1.0 - d;
    assert a * e > 0.0 && a * e == a - a * d;
  }

  // ----- the quote, on the texts -----

  /** `rate` is that of `cpu` virtual processors and twice as many gigabytes, the peak of a
      size of 512 MiB for each processor, at the prices the texts give, and it fits. */
  ghost predicate Quotes(cpuPrice: seq<byte>, memoryPrice: seq<byte>, minimumMemoryMib: int, rate: int, cpu: int, p: int, q: int) {
    && cpu in {1, 2, 4, 8, 16} && minimumMemoryMib == 512 * cpu
    && PricedText(cpuPrice, p) && PricedText(memoryPrice, q)
    && rate == p * cpu + q * (2 * cpu) && rate <= 0x7fff_ffff_ffff_ffff
  }

  lemma PeakIs(minimumMemoryMib: int)
    ensures Peak(minimumMemoryMib).Some? <==> exists cpu :: cpu in {1, 2, 4, 8, 16} && minimumMemoryMib == 512 * cpu
    ensures forall cpu :: cpu in {1, 2, 4, 8, 16} && minimumMemoryMib == 512 * cpu ==> Peak(minimumMemoryMib) == Some((2 * cpu, cpu))
  {
    if Peak(minimumMemoryMib).Some? {
      var cpu := Peak(minimumMemoryMib).value.1;
      assert cpu in {1, 2, 4, 8, 16} && minimumMemoryMib == 512 * cpu;
    }
  }

  lemma QuotedIsQuotes(cpuPrice: seq<byte>, memoryPrice: seq<byte>, minimumMemoryMib: int, rate: int)
    requires QuotedAt(cpuPrice, memoryPrice, minimumMemoryMib, rate)
    ensures exists cpu, p, q :: Quotes(cpuPrice, memoryPrice, minimumMemoryMib, rate, cpu, p, q)
  {
    PeakIs(minimumMemoryMib);
    var p, q :| Priced(cpuPrice, p) && Priced(memoryPrice, q) && RateFits(minimumMemoryMib, p, q)
                && rate == RateAt(minimumMemoryMib, p, q);
    PricedIff(cpuPrice, p);
    PricedIff(memoryPrice, q);
    var cpu :| cpu in {1, 2, 4, 8, 16} && minimumMemoryMib == 512 * cpu;
    assert Quotes(cpuPrice, memoryPrice, minimumMemoryMib, rate, cpu, p, q);
  }

  lemma QuotesIsQuoted(cpuPrice: seq<byte>, memoryPrice: seq<byte>, minimumMemoryMib: int, rate: int, cpu: int, p: int, q: int)
    requires Quotes(cpuPrice, memoryPrice, minimumMemoryMib, rate, cpu, p, q)
    ensures QuotedAt(cpuPrice, memoryPrice, minimumMemoryMib, rate)
  {
    PeakIs(minimumMemoryMib);
    PricedIff(cpuPrice, p);
    PricedIff(memoryPrice, q);
    assert rate == RateAt(minimumMemoryMib, p, q) && RateFits(minimumMemoryMib, p, q);
  }

  /** A quote is refused exactly for an unknown size, an unaccepted price or a rate that does
      not fit; otherwise it is the rate of the accepted prices. */
  method Quote(cpuPrice: seq<byte>, memoryPrice: seq<byte>, minimumMemoryMib: int) returns (r: Option<int>)
    ensures r.Some? ==> exists cpu, p, q :: Quotes(cpuPrice, memoryPrice, minimumMemoryMib, r.value, cpu, p, q)
    ensures r.Some? ==> CoversPrices(cpuPrice, memoryPrice, minimumMemoryMib, r.value)
    ensures r.None? ==> forall rate, cpu, p, q :: !Quotes(cpuPrice, memoryPrice, minimumMemoryMib, rate, cpu, p, q)
  {
    var cpuRate := SplitPicodollars(cpuPrice);
    var memoryRate := SplitPicodollars(memoryPrice);
    r := QuoteRates(cpuRate, memoryRate, minimumMemoryMib);
    if r.None? {
      NothingQuoted(cpuPrice, memoryPrice, cpuRate, memoryRate, minimumMemoryMib);
      forall rate, cpu, p, q ensures !Quotes(cpuPrice, memoryPrice, minimumMemoryMib, rate, cpu, p, q) {
        if Quotes(cpuPrice, memoryPrice, minimumMemoryMib, rate, cpu, p, q) {
          QuotesIsQuoted(cpuPrice, memoryPrice, minimumMemoryMib, rate, cpu, p, q);
        }
      }
    } else {
      QuotedIsQuotes(cpuPrice, memoryPrice, minimumMemoryMib, r.value);
      QuotedCovers(cpuPrice, memoryPrice, minimumMemoryMib, r.value);
    }
  }

  /** The exact price of a text, of which `CoversPrices` speaks: its digits as a number, by
      ten to the twelfth, over ten for each digit behind the dot. */
  lemma ExactOfText(text: seq<byte>, whole: seq<byte>, fraction: seq<byte>)
    requires Spells(text, whole, fraction)
    ensures WellFormed(Split(text))
    ensures Exact(Split(text)) == (Number(whole + fraction) * Pow10(12)) as real / Pow10(|fraction|) as real
  {
    SpelledSplits(text, whole, fraction);
  }

  lemma PriceWithDot()
    ensures PricedText([49, 46, 53], 1_500_000_000_000)
  {
    Pow10Of12();
    assert [49] + [46] + [53] == [49, 46, 53] && [49] + [53] == [49, 53] && [49, 53][..1] == [49] && [49][..0] == [];
    assert Number([49]) == 1 && Number([49, 53]) == 15 && Pow10(1) == 10;
    assert Spells([49, 46, 53], [49], [53]) && Ceils([49], [53], 1_500_000_000_000);
  }

  lemma PriceWithoutDot()
    ensures PricedText([51], 3_000_000_000_000)
  {
    Pow10Of12();
    assert [51] + [] == [51] && [51][..0] == [] && Number([51]) == 3;
    assert Spells([51], [51], []) && Ceils([51], [], 3_000_000_000_000);
  }

  /** "1.5" and "3" in picodollars. */
  lemma PricesOfTexts()
    ensures PricedText([49, 46, 53], 1_500_000_000_000) && PricedText([51], 3_000_000_000_000)
  {
    PriceWithDot();
    PriceWithoutDot();
  }
}
