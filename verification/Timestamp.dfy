/** Fixed-width UTC timestamps: digits written in place, truncated never rounded, and ordered as bytes. */
module Timestamp {
  import opened Wire

  const NANOS_PER_SECOND: nat := 1_000_000_000
  const SECONDS_LEN: nat := 17
  const PREFIX_LEN: nat := 18
  const MAX_FRACTION_DIGITS: nat := 9

  /**
   A calendar reading. A leap second is a nanosecond count of a whole second or more on top of
   second 59.
   */
  datatype Reading = Reading(year: int, month: nat, day: nat, hour: nat, minute: nat, second: nat, nanos: nat)

  predicate ValidReading(r: Reading) {
    && 1 <= r.month <= 12 && 1 <= r.day <= 31 && r.hour < 24 && r.minute < 60 && r.second < 60
    && r.nanos < 2 * NANOS_PER_SECOND
    && (r.nanos >= NANOS_PER_SECOND ==> r.second == 59)
  }

  // ----- zero-padded decimals -----

  /** `v` without its last `k` decimal digits. */
  function Drop(v: nat, k: nat): nat {
    if k == 0 then v else Drop(v, k - 1) / 10
  }

  /** The last `n` decimal digits of `v`, as ASCII. */
  function Padded(v: nat, n: nat): (digits: seq<Byte>)
    ensures |digits| == n && AllDigits(digits)
  {
    if n == 0 then [] else Padded(v / 10, n - 1) + [48 + v % 10]
  }

  lemma {:induction false} DropFromFront(v: nat, k: nat)
    requires k > 0
    ensures Drop(v, k) == Drop(v / 10, k - 1)
  {
    if k > 1 {
      DropFromFront(v, k - 1);
    }
  }

  /** Exactly the values below 10^n fit in n digits. */
  lemma {:induction false} FitsWhenNothingIsDropped(v: nat, n: nat)
    ensures Drop(v, n) == 0 <==> v < Pow10(n)
  {
    if n > 0 {
      DropFromFront(v, n);
      FitsWhenNothingIsDropped(v / 10, n - 1);
    }
  }

  /** Read back as a number, the digits give the value. */
  lemma {:induction false} PaddedReadsBack(v: nat, n: nat)
    requires v < Pow10(n)
    ensures DecimalValue(Padded(v, n)) == v
  {
    if n > 0 {
      PaddedReadsBack(v / 10, n - 1);
      var digits := Padded(v, n);
      assert digits[..n - 1] == Padded(v / 10, n - 1);
    }
  }

  lemma {:induction false} PaddedFront(v: nat, k: nat)
    ensures Padded(v, k + 1) == [48 + Drop(v, k) % 10] + Padded(v, k)
  {
    if k > 0 {
      PaddedFront(v / 10, k - 1);
      DropFromFront(v, k);
      assert [48 + Drop(v, k) % 10] + Padded(v / 10, k - 1) + [48 + v % 10]
             == [48 + Drop(v, k) % 10] + (Padded(v / 10, k - 1) + [48 + v % 10]);
    }
  }

  /** Fewer digits are a prefix: truncation. */
  lemma {:induction false} PaddedPrefix(v: nat, n: nat, k: nat)
    ensures Padded(v, n + k)[..n] == Padded(Drop(v, k), n)
  {
    if k > 0 {
      PaddedPrefix(v / 10, n, k - 1);
      DropFromFront(v, k);
      assert Padded(v, n + k)[..n] == Padded(v / 10, n + k - 1)[..n];
    }
  }

  lemma MultiplesStepBy(d: int, k: int)
    requires d > 0
    ensures k >= 1 ==> d * k >= d
    ensures k <= -1 ==> d * k <= -d
  {
  }

  lemma QuotientIsUnique(x: nat, d: nat, q: nat, r: nat)
    requires d > 0 && x == d * q + r && r < d
    ensures x / d == q
  {
    var e := x / d;
    assert x == d * e + x % d;
    assert d * (q - e) == x % d - r;
    MultiplesStepBy(d, q - e);
  }

  lemma DivideByTenFirst(v: nat, p: nat)
    requires p > 0
    ensures v / (10 * p) == (v / 10) / p
  {
    var a := v / 10;
    var q, s := a / p, a % p;
    assert a == p * q + s;
    assert v == (10 * p) * q + (10 * s + v % 10) by {
      assert (10 * p) * q == 10 * (p * q);
    }
    QuotientIsUnique(v, 10 * p, q, 10 * s + v % 10);
  }

  /** Dropping digits is dividing by a power of ten. */
  lemma {:induction false} DropDivides(v: nat, k: nat)
    ensures Drop(v, k) == v / Pow10(k)
  {
    if k > 0 {
      DropFromFront(v, k);
      DropDivides(v / 10, k - 1);
      DivideByTenFirst(v, Pow10(k - 1));
    }
  }

  /** Writes `value` into `out[lo..hi]`, last digit first. */
  method PutDigits(out: array<Byte>, lo: nat, hi: nat, value: nat) returns (fits: bool)
    requires lo <= hi <= out.Length
    modifies out
    ensures fits <==> value < Pow10(hi - lo)
    ensures out[lo..hi] == Padded(value, hi - lo)
    ensures out[..lo] == old(out[..lo]) && out[hi..] == old(out[hi..])
  {
    var slot, rest := hi, value;
    while slot > lo
      invariant lo <= slot <= hi && rest == Drop(value, hi - slot)
      invariant out[slot..hi] == Padded(value, hi - slot)
      invariant out[..lo] == old(out[..lo]) && out[hi..] == old(out[hi..])
    {
      PaddedFront(value, hi - slot);
      slot := slot - 1;
      out[slot] := 48 + rest % 10;
      rest := rest / 10;
      assert out[slot..hi] == [out[slot]] + out[slot + 1..hi];
    }
    FitsWhenNothingIsDropped(value, hi - lo);
    fits := rest == 0;
  }

  // ----- the printed form -----

  /** The second as printed: 60 in a leap second. */
  function PrintedSecond(r: Reading): nat {
    r.second + r.nanos / NANOS_PER_SECOND
  }

  /** The fraction cut, not rounded, to `digits` digits. */
  function Fraction(r: Reading, digits: nat): nat
    requires digits <= MAX_FRACTION_DIGITS
  {
    Drop(r.nanos % NANOS_PER_SECOND, MAX_FRACTION_DIGITS - digits)
  }

  function Date(r: Reading): seq<Byte>
    requires r.year >= 0
  {
    Padded(r.year, 4) + Padded(r.month, 2) + Padded(r.day, 2) + ['-' as int] + Padded(r.hour, 2) + [':' as int]
    + Padded(r.minute, 2) + [':' as int] + Padded(PrintedSecond(r), 2)
  }

  function Printed(r: Reading, digits: nat): (text: seq<Byte>)
    requires r.year >= 0 && digits <= MAX_FRACTION_DIGITS
    ensures |text| == if digits == 0 then SECONDS_LEN else PREFIX_LEN + digits
  {
    if digits == 0 then Date(r) else Date(r) + ['.' as int] + Padded(Fraction(r, digits), digits)
  }

  /** Fractional digits a length leaves room for, if it is a length that can be printed. */
  function DigitsFor(len: nat): Option<nat> {
    if len == SECONDS_LEN then Some(0)
    else if PREFIX_LEN < len <= PREFIX_LEN + MAX_FRACTION_DIGITS then Some(len - PREFIX_LEN)
    else None
  }

  /** The digits of `text` from `lo` to `hi` spell `value`. */
  ghost predicate Spells(text: seq<Byte>, lo: nat, hi: nat, value: int) {
    lo <= hi <= |text| && AllDigits(text[lo..hi]) && DecimalValue(text[lo..hi]) == value
  }

  /** Each calendar field at its place, and second 60 in a leap second. */
  ghost predicate SaysDate(text: seq<Byte>, r: Reading) {
    && |text| >= 17
    && Spells(text, 0, 4, r.year) && Spells(text, 4, 6, r.month) && Spells(text, 6, 8, r.day) && text[8] == '-' as int
    && Spells(text, 9, 11, r.hour) && text[11] == ':' as int && Spells(text, 12, 14, r.minute) && text[14] == ':' as int
    && Spells(text, 15, 17, if r.nanos >= 1_000_000_000 then 60 else r.second)
  }

  /**
   What a text of one of the printed lengths says of a reading: its calendar fields, and as many whole units
   of the last fractional digit as it holds.
   */
  ghost predicate Says(text: seq<Byte>, r: Reading) {
    && (|text| == 17 || 19 <= |text| <= 27) && SaysDate(text, r)
    && (|text| > 17 ==>
          && text[17] == '.' as int
          && AllDigits(text[18..])
          && Counts(r.nanos % 1_000_000_000, DecimalValue(text[18..]), Pow10(27 - |text|)))
  }

  /** So many whole units are in the amount. */
  predicate Counts(amount: nat, many: int, unit: nat) {
    many * unit <= amount < (many + 1) * unit
  }

  /** Formats a reading in exactly `len` bytes; nothing when the year has no four-digit form. */
  method FormatUtcTimestamp(r: Reading, len: nat) returns (text: Option<seq<Byte>>)
    requires ValidReading(r)
    ensures text.Some? <==> (len == 17 || 19 <= len <= 27) && 0 <= r.year <= 9999
    ensures text.Some? ==> |text.value| == len && Says(text.value, r)
    ensures text.Some? ==> text.value == Printed(r, DigitsFor(len).value)
  {
    if DigitsFor(len).None? || r.year < 0 {
      return None;
    }
    var out := new Byte[len](_ => 48);
    var fits := PutDate(out, r);
    if !fits {
      return None;
    }
    var digits := DigitsFor(len).value;
    if digits > 0 {
      PutFraction(out, r, digits);
    }
    assert digits == 0 ==> out[..] == out[..SECONDS_LEN];
    PrintedSays(r, digits);
    return Some(out[..]);
  }

  /** Writes the point and the fraction, cut to `digits` digits, behind the date. */
  method PutFraction(out: array<Byte>, r: Reading, digits: nat)
    requires 0 < digits <= MAX_FRACTION_DIGITS && out.Length == PREFIX_LEN + digits && r.year >= 0
    requires out[..SECONDS_LEN] == Date(r)
    modifies out
    ensures out[..] == Printed(r, digits)
  {
    var fraction := (r.nanos % NANOS_PER_SECOND) / Pow10(MAX_FRACTION_DIGITS - digits);
    PutByte(out, SECONDS_LEN, '.' as int);
    DropDivides(r.nanos % NANOS_PER_SECOND, MAX_FRACTION_DIGITS - digits);
    FractionFits(r, digits);
    PutField(out, PREFIX_LEN, digits, fraction);
    assert out[..] == out[..PREFIX_LEN + digits];
  }

  lemma FractionFits(r: Reading, digits: nat)
    requires 0 < digits <= MAX_FRACTION_DIGITS
    ensures Fraction(r, digits) < Pow10(digits)
  {
    var nanos := r.nanos % NANOS_PER_SECOND;
    assert Pow10(3) == 1000 && Pow10(6) == 1_000_000 && Pow10(9) == NANOS_PER_SECOND;
    FitsWhenNothingIsDropped(nanos, MAX_FRACTION_DIGITS);
    DropsJoin(nanos, MAX_FRACTION_DIGITS - digits, digits);
    FitsWhenNothingIsDropped(Fraction(r, digits), digits);
  }

  lemma DateSays(r: Reading)
    requires ValidReading(r) && 0 <= r.year <= 9999
    ensures |Date(r)| == 17 && SaysDate(Date(r), r)
  {
    var date, second := Date(r), PrintedSecond(r);
    assert Pow10(2) == 100 && Pow10(4) == 100 * Pow10(2);
    PaddedReadsBack(r.year, 4);
    PaddedReadsBack(r.month, 2);
    PaddedReadsBack(r.day, 2);
    PaddedReadsBack(r.hour, 2);
    PaddedReadsBack(r.minute, 2);
    PaddedReadsBack(second, 2);
    DateSlices(r);
  }

  lemma DateSlices(r: Reading)
    requires r.year >= 0
    ensures var date := Date(r);
            && |date| == 17 && date[8] == '-' as int && date[11] == ':' as int && date[14] == ':' as int
            && date[0..4] == Padded(r.year, 4) && date[4..6] == Padded(r.month, 2) && date[6..8] == Padded(r.day, 2)
            && date[9..11] == Padded(r.hour, 2) && date[12..14] == Padded(r.minute, 2) && date[15..17] == Padded(PrintedSecond(r), 2)
  {
  }

  lemma {:induction false} DigitsAreUnique(a: seq<Byte>, b: seq<Byte>)
    requires |a| == |b| && AllDigits(a) && AllDigits(b) && DecimalValue(a) == DecimalValue(b)
    ensures a == b
  {
    if a != [] {
      var n := |a| - 1;
      DigitsAreUnique(a[..n], b[..n]);
      assert a == a[..n] + [a[n]] && b == b[..n] + [b[n]];
    }
  }

  lemma MoreUnits(few: int, many: int, unit: nat)
    requires few < many
    ensures (few + 1) * unit <= many * unit
  {
  }

  lemma CountsOnce(amount: nat, a: int, b: int, unit: nat)
    requires Counts(amount, a, unit) && Counts(amount, b, unit)
    ensures a == b
  {
    if a < b {
      MoreUnits(a, b, unit);
    } else if b < a {
      MoreUnits(b, a, unit);
    }
  }

  lemma SameSoFar(a: seq<Byte>, b: seq<Byte>, lo: nat, hi: nat)
    requires lo <= hi <= |a| == |b| && a[..lo] == b[..lo] && a[lo..hi] == b[lo..hi]
    ensures a[..hi] == b[..hi]
  {
    assert a[..hi] == a[..lo] + a[lo..hi] && b[..hi] == b[..lo] + b[lo..hi];
  }

  lemma SameByte(a: seq<Byte>, b: seq<Byte>, at: nat)
    requires at < |a| == |b| && a[..at] == b[..at] && a[at] == b[at]
    ensures a[..at + 1] == b[..at + 1]
  {
    assert a[..at + 1] == a[..at] + [a[at]] && b[..at + 1] == b[..at] + [b[at]];
  }

  lemma SpelledAlike(a: seq<Byte>, b: seq<Byte>, lo: nat, hi: nat, value: int)
    requires Spells(a, lo, hi, value) && Spells(b, lo, hi, value)
    ensures a[lo..hi] == b[lo..hi]
  {
    DigitsAreUnique(a[lo..hi], b[lo..hi]);
  }

  /** What a text says of a reading leaves no choice: there is one text of each length. */
  lemma SaidOneWay(a: seq<Byte>, b: seq<Byte>, r: Reading)
    requires Says(a, r) && Says(b, r) && |a| == |b|
    ensures a == b
  {
    SpelledAlike(a, b, 0, 4, r.year);
    SpelledAlike(a, b, 4, 6, r.month);
    SameSoFar(a, b, 4, 6);
    SpelledAlike(a, b, 6, 8, r.day);
    SameSoFar(a, b, 6, 8);
    SameByte(a, b, 8);
    SpelledAlike(a, b, 9, 11, r.hour);
    SameSoFar(a, b, 9, 11);
    SameByte(a, b, 11);
    SpelledAlike(a, b, 12, 14, r.minute);
    SameSoFar(a, b, 12, 14);
    SameByte(a, b, 14);
    SpelledAlike(a, b, 15, 17, if r.nanos >= 1_000_000_000 then 60 else r.second);
    SameSoFar(a, b, 15, 17);
    if |a| > 17 {
      SameByte(a, b, 17);
      CountsOnce(r.nanos % 1_000_000_000, DecimalValue(a[18..]), DecimalValue(b[18..]), Pow10(27 - |a|));
      DigitsAreUnique(a[18..], b[18..]);
      assert a[18..|a|] == a[18..] && b[18..|b|] == b[18..];
      SameSoFar(a, b, 18, |a|);
    }
    assert a[..|a|] == a && b[..|b|] == b;
  }

  lemma SpellsStill(text: seq<Byte>, more: seq<Byte>, lo: nat, hi: nat, value: int)
    requires Spells(text, lo, hi, value)
    ensures Spells(text + more, lo, hi, value)
  {
    assert (text + more)[lo..hi] == text[lo..hi];
  }

  lemma QuotientCounts(amount: nat, unit: nat)
    requires unit > 0
    ensures Counts(amount, amount / unit, unit)
  {
    assert amount == unit * (amount / unit) + amount % unit;
  }

  lemma FractionCounts(r: Reading, digits: nat)
    requires digits <= MAX_FRACTION_DIGITS
    ensures Counts(r.nanos % 1_000_000_000, Fraction(r, digits), Pow10(MAX_FRACTION_DIGITS - digits))
  {
    DropDivides(r.nanos % NANOS_PER_SECOND, MAX_FRACTION_DIGITS - digits);
    QuotientCounts(r.nanos % NANOS_PER_SECOND, Pow10(MAX_FRACTION_DIGITS - digits));
  }

  lemma SaysDateStill(date: seq<Byte>, tail: seq<Byte>, r: Reading)
    requires SaysDate(date, r)
    ensures SaysDate(date + tail, r)
  {
    SpellsStill(date, tail, 0, 4, r.year);
    SpellsStill(date, tail, 4, 6, r.month);
    SpellsStill(date, tail, 6, 8, r.day);
    SpellsStill(date, tail, 9, 11, r.hour);
    SpellsStill(date, tail, 12, 14, r.minute);
    SpellsStill(date, tail, 15, 17, if r.nanos >= 1_000_000_000 then 60 else r.second);
  }

  lemma PrintedSays(r: Reading, digits: nat)
    requires ValidReading(r) && 0 <= r.year <= 9999 && digits <= MAX_FRACTION_DIGITS
    ensures Says(Printed(r, digits), r)
  {
    DateSays(r);
    if digits > 0 {
      var date, fraction := Date(r), Padded(Fraction(r, digits), digits);
      assert Printed(r, digits) == date + (['.' as int] + fraction);
      SaysDateStill(date, ['.' as int] + fraction, r);
      assert Printed(r, digits)[18..] == fraction;
      FractionFits(r, digits);
      PaddedReadsBack(Fraction(r, digits), digits);
      FractionCounts(r, digits);
    }
  }

  /** Appends `width` digits at `at`; what stands before and behind stays. */
  method PutField(out: array<Byte>, at: nat, width: nat, value: nat)
    requires at + width <= out.Length && value < Pow10(width)
    modifies out
    ensures out[..at + width] == old(out[..at]) + Padded(value, width)
    ensures out[at + width..] == old(out[at + width..])
  {
    var fits := PutDigits(out, at, at + width, value);
    assert out[..at + width] == out[..at] + out[at..at + width];
  }

  method PutByte(out: array<Byte>, at: nat, byte: Byte)
    requires at < out.Length
    modifies out
    ensures out[..at + 1] == old(out[..at]) + [byte]
    ensures out[at + 1..] == old(out[at + 1..])
  {
    out[at] := byte;
  }

  method PutDate(out: array<Byte>, r: Reading) returns (fits: bool)
    requires out.Length >= SECONDS_LEN && r.year >= 0 && ValidReading(r)
    modifies out
    ensures fits <==> r.year <= 9999
    ensures fits ==> out[..SECONDS_LEN] == Date(r)
  {
    fits := PutDigits(out, 0, 4, r.year);
    if !fits {
      return;
    }
    assert out[..4] == out[0..4];
    PutField(out, 4, 2, r.month);
    PutField(out, 6, 2, r.day);
    PutByte(out, 8, '-' as int);
    PutField(out, 9, 2, r.hour);
    PutByte(out, 11, ':' as int);
    PutField(out, 12, 2, r.minute);
    PutByte(out, 14, ':' as int);
    PutField(out, 15, 2, PrintedSecond(r));
  }

  // ----- truncation -----

  /** A shorter form is a prefix of every longer one: the fraction is cut, never rounded. */
  lemma ShorterIsPrefix(r: Reading, few: nat, more: nat)
    requires r.year >= 0 && few <= more <= MAX_FRACTION_DIGITS
    ensures Printed(r, few) <= Printed(r, more)
  {
    if 0 < few {
      var k, nanos := more - few, r.nanos % NANOS_PER_SECOND;
      DropsJoin(nanos, MAX_FRACTION_DIGITS - more, k);
      PaddedPrefix(Fraction(r, more), few, k);
    }
  }

  lemma {:induction false} DropsJoin(v: nat, a: nat, b: nat)
    ensures Drop(Drop(v, a), b) == Drop(v, a + b)
  {
    if b > 0 {
      DropsJoin(v, a, b - 1);
    }
  }

  // ----- order -----

  /** Byte order of texts. */
  predicate Less(a: seq<Byte>, b: seq<Byte>) {
    b != [] && (a == [] || a[0] < b[0] || (a[0] == b[0] && Less(a[1..], b[1..])))
  }

  lemma {:induction false} LessAfterSame(common: seq<Byte>, a: seq<Byte>, b: seq<Byte>)
    ensures Less(common + a, common + b) <==> Less(a, b)
  {
    if common == [] {
      assert common + a == a && common + b == b;
    } else {
      assert (common + a)[1..] == common[1..] + a && (common + b)[1..] == common[1..] + b;
      LessAfterSame(common[1..], a, b);
    }
  }

  /** Fields of one width compare first, the rest decides between equal ones. */
  lemma {:induction false} LessByField(a: nat, b: nat, n: nat, x: seq<Byte>, y: seq<Byte>)
    requires a < Pow10(n) && b < Pow10(n)
    ensures Less(Padded(a, n) + x, Padded(b, n) + y) <==> a < b || (a == b && Less(x, y))
  {
    if n == 0 {
      assert [] + x == x && [] + y == y;
    } else {
      var da: seq<Byte>, db: seq<Byte> := [48 + a % 10], [48 + b % 10];
      assert Padded(a, n) + x == Padded(a / 10, n - 1) + (da + x);
      assert Padded(b, n) + y == Padded(b / 10, n - 1) + (db + y);
      LessByField(a / 10, b / 10, n - 1, da + x, db + y);
      assert (da + x)[1..] == x && (db + y)[1..] == y;
    }
  }

  /** The instant within its minute, leap seconds included, cut to `digits` digits of a second. */
  function CutSeconds(r: Reading, digits: nat): int
    requires digits <= 9
  {
    (r.second * 1_000_000_000 + r.nanos) / Pow10(9 - digits)
  }

  /** Calendar order of the instants, cut to `digits` digits of a second. */
  predicate Earlier(a: Reading, b: Reading, digits: nat)
    requires digits <= 9
  {
    || a.year < b.year
    || (a.year == b.year && (a.month < b.month
    || (a.month == b.month && (a.day < b.day
    || (a.day == b.day && EarlierInDay(a, b, digits))))))
  }

  predicate EarlierInDay(a: Reading, b: Reading, digits: nat)
    requires digits <= 9
  {
    || a.hour < b.hour
    || (a.hour == b.hour && (a.minute < b.minute
    || (a.minute == b.minute && CutSeconds(a, digits) < CutSeconds(b, digits))))
  }

  /** Cut to the unit, an instant is its printed seconds, in units, and its fraction. */
  lemma CutIsPrinted(r: Reading, digits: nat)
    requires digits <= MAX_FRACTION_DIGITS
    ensures CutSeconds(r, digits) == PrintedSecond(r) * Pow10(digits) + Fraction(r, digits)
    ensures Fraction(r, digits) < Pow10(digits)
  {
    var unit, amount := Pow10(9 - digits), r.nanos % NANOS_PER_SECOND;
    PowersJoin(digits, 9 - digits);
    assert Pow10(3) == 1000 && Pow10(6) == 1000 * Pow10(3) && Pow10(9) == NANOS_PER_SECOND;
    DropDivides(amount, 9 - digits);
    var whole, f := PrintedSecond(r), amount / unit;
    assert r.second * NANOS_PER_SECOND + r.nanos == whole * NANOS_PER_SECOND + amount;
    ScaledQuotient(whole, Pow10(digits), unit, amount);
    if digits > 0 {
      FractionFits(r, digits);
    } else {
      FitsWhenNothingIsDropped(amount, 9);
    }
  }

  lemma ScaledQuotient(whole: nat, p: nat, unit: nat, amount: nat)
    requires unit > 0
    ensures (whole * (p * unit) + amount) / unit == whole * p + amount / unit
  {
    var q, rest := amount / unit, amount % unit;
    assert amount == unit * q + rest;
    assert whole * (p * unit) == unit * (whole * p);
    assert unit * (whole * p) + unit * q == unit * (whole * p + q);
    QuotientIsUnique(whole * (p * unit) + amount, unit, whole * p + q, rest);
  }

  lemma {:induction false} PowersJoin(a: nat, b: nat)
    ensures Pow10(a) * Pow10(b) == Pow10(a + b)
  {
    if a > 0 {
      PowersJoin(a - 1, b);
      assert 10 * Pow10(a - 1) * Pow10(b) == 10 * (Pow10(a - 1) * Pow10(b));
    }
  }

  /** Wholes of one size compare first, what is left decides between equal ones. */
  lemma WholesFirst(a: nat, b: nat, size: nat, f: nat, g: nat)
    requires f < size && g < size
    ensures a * size + f < b * size + g <==> a < b || (a == b && f < g)
  {
    if a < b {
      assert (a + 1) * size <= b * size;
    } else if b < a {
      assert (b + 1) * size <= a * size;
    }
  }

  function Tail(r: Reading, digits: nat): seq<Byte>
    requires digits <= MAX_FRACTION_DIGITS
  {
    if digits == 0 then [] else ['.' as int] + Padded(Fraction(r, digits), digits)
  }

  /** The time of day, seconds and fraction. */
  function TimeText(r: Reading, digits: nat): seq<Byte>
    requires digits <= MAX_FRACTION_DIGITS
  {
    Padded(r.hour, 2) + ([':' as int] + (Padded(r.minute, 2) + ([':' as int] + (Padded(PrintedSecond(r), 2) + Tail(r, digits)))))
  }

  lemma PrintedParts(r: Reading, digits: nat)
    requires r.year >= 0 && digits <= MAX_FRACTION_DIGITS
    ensures Printed(r, digits)
            == Padded(r.year, 4) + (Padded(r.month, 2) + (Padded(r.day, 2) + (['-' as int] + TimeText(r, digits))))
  {
    var tail, dash: seq<Byte>, colon: seq<Byte> := Tail(r, digits), ['-' as int], [':' as int];
    var y, m, d, h, n, s := Padded(r.year, 4), Padded(r.month, 2), Padded(r.day, 2), Padded(r.hour, 2), Padded(r.minute, 2),
                            Padded(PrintedSecond(r), 2);
    assert Printed(r, digits) == Date(r) + tail by {
      assert Date(r) + [] == Date(r);
      Regroup(Date(r), ['.' as int], Padded(Fraction(r, digits), digits));
    }
    Regroup(y + m + d + dash + h + colon + n + colon, s, tail);
    Regroup(y + m + d + dash + h + colon + n, colon, s + tail);
    Regroup(y + m + d + dash + h + colon, n, colon + (s + tail));
    Regroup(y + m + d + dash + h, colon, n + (colon + (s + tail)));
    Regroup(y + m + d + dash, h, colon + (n + (colon + (s + tail))));
    Regroup(y + m + d, dash, TimeText(r, digits));
    Regroup(y + m, d, dash + TimeText(r, digits));
    Regroup(y, m, d + (dash + TimeText(r, digits)));
  }

  lemma TailsCompare(a: Reading, b: Reading, digits: nat)
    requires ValidReading(a) && ValidReading(b) && digits <= MAX_FRACTION_DIGITS
    ensures Less(Tail(a, digits), Tail(b, digits)) <==> digits > 0 && Fraction(a, digits) < Fraction(b, digits)
  {
    if digits > 0 {
      FractionFits(a, digits);
      FractionFits(b, digits);
      var fa, fb := Fraction(a, digits), Fraction(b, digits);
      LessAfterSame(['.' as int], Padded(fa, digits), Padded(fb, digits));
      LessByField(fa, fb, digits, [], []);
      assert Padded(fa, digits) + [] == Padded(fa, digits) && Padded(fb, digits) + [] == Padded(fb, digits);
    }
  }

  lemma TimesCompare(a: Reading, b: Reading, digits: nat)
    requires ValidReading(a) && ValidReading(b) && digits <= MAX_FRACTION_DIGITS
    ensures Less(TimeText(a, digits), TimeText(b, digits)) <==> EarlierInDay(a, b, digits)
  {
    var ta, tb := Tail(a, digits), Tail(b, digits);
    TailsCompare(a, b, digits);
    var sa, sb := Padded(PrintedSecond(a), 2) + ta, Padded(PrintedSecond(b), 2) + tb;
    CutIsPrinted(a, digits);
    CutIsPrinted(b, digits);
    WholesFirst(PrintedSecond(a), PrintedSecond(b), Pow10(digits), Fraction(a, digits), Fraction(b, digits));
    LessByField(PrintedSecond(a), PrintedSecond(b), 2, ta, tb);
    LessAfterSame([':' as int], sa, sb);
    LessByField(a.minute, b.minute, 2, [':' as int] + sa, [':' as int] + sb);
    var ma, mb := Padded(a.minute, 2) + ([':' as int] + sa), Padded(b.minute, 2) + ([':' as int] + sb);
    LessAfterSame([':' as int], ma, mb);
    LessByField(a.hour, b.hour, 2, [':' as int] + ma, [':' as int] + mb);
  }

  /** Texts of one length are in byte order exactly when the truncated instants are in time order. */
  lemma ByteOrderIsTimeOrder(a: Reading, b: Reading, digits: nat)
    requires ValidReading(a) && ValidReading(b) && digits <= MAX_FRACTION_DIGITS
    requires 0 <= a.year <= 9999 && 0 <= b.year <= 9999
    ensures Less(Printed(a, digits), Printed(b, digits)) <==> Earlier(a, b, digits)
  {
    PrintedParts(a, digits);
    PrintedParts(b, digits);
    TimesCompare(a, b, digits);
    var ta, tb := TimeText(a, digits), TimeText(b, digits);
    LessAfterSame(['-' as int], ta, tb);
    var da, db := ['-' as int] + ta, ['-' as int] + tb;
    LessByField(a.day, b.day, 2, da, db);
    LessByField(a.month, b.month, 2, Padded(a.day, 2) + da, Padded(b.day, 2) + db);
    LessByField(a.year, b.year, 4, Padded(a.month, 2) + (Padded(a.day, 2) + da), Padded(b.month, 2) + (Padded(b.day, 2) + db));
  }
}
