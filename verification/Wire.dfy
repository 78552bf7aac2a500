/** Fields as they stand on the wire, and the decimal counts they carry. */
module Wire {

  type Tag = nat

  type Byte = b: nat | b < 256

  const U64_MAX := 0xFFFF_FFFF_FFFF_FFFF

  /** One decoded field: its tag and its value bytes. */
  datatype Field = Field(tag: Tag, value: seq<Byte>)

  datatype Option<+T> = None | Some(value: T)

  datatype Result<+T, +E> = Ok(value: T) | Err(error: E)

  predicate IsDigit(b: Byte) {
    48 <= b <= 57
  }

  predicate AllDigits(text: seq<Byte>) {
    forall i :: 0 <= i < |text| ==> IsDigit(text[i])
  }

  /** The number that the digits of `text` spell, most significant first. */
  ghost function DecimalValue(text: seq<Byte>): int {
    if text == [] then 0
    else 10 * DecimalValue(text[..|text| - 1]) + (text[|text| - 1] as int - 48)
  }

  /** The meaning of a count field: one or more digits, fitting in a `u64`. */
  ghost function CountValue(text: seq<Byte>): Option<nat> {
    if text != [] && AllDigits(text) && DecimalValue(text) <= U64_MAX
    then DigitsAreNatural(text); Some(DecimalValue(text))
    else None
  }

  lemma DigitsAreNatural(text: seq<Byte>)
    requires AllDigits(text)
    ensures 0 <= DecimalValue(text)
  {
    if text != [] {
      DigitsAreNatural(text[..|text| - 1]);
    }
  }

  /** A prefix of digits never spells more than the whole. */
  lemma {:induction false} PrefixIsSmaller(text: seq<Byte>, k: nat)
    requires k <= |text| && AllDigits(text)
    ensures DecimalValue(text[..k]) <= DecimalValue(text)
  {
    if k < |text| {
      PrefixIsSmaller(text[..|text| - 1], k);
      assert text[..|text| - 1][..k] == text[..k];
      DigitsAreNatural(text[..|text| - 1]);
    } else {
      assert text[..k] == text;
    }
  }

  /** The digit loop with checked arithmetic: it stops early, and only on a text with no count. */
  method ParseCount(value: seq<Byte>) returns (count: Option<nat>)
    ensures count == CountValue(value)
  {
    if |value| == 0 {
      return None;
    }
    var total: nat := 0;
    for i := 0 to |value|
      invariant AllDigits(value[..i])
      invariant total == DecimalValue(value[..i]) <= U64_MAX
    {
      if !IsDigit(value[i]) {
        return None;
      }
      assert value[..i + 1][..i] == value[..i];
      if U64_MAX < total * 10 || U64_MAX < total * 10 + (value[i] - 48) {
        assert DecimalValue(value[..i + 1]) > U64_MAX;
        if AllDigits(value) {
          PrefixIsSmaller(value, i + 1);
        }
        return None;
      }
      total := total * 10 + (value[i] - 48);
    }
    assert value[..|value|] == value;
    return Some(total);
  }

  function Pow10(n: nat): (p: nat)
    ensures p > 0
  {
    if n == 0 then 1 else 10 * Pow10(n - 1)
  }

  /** A number as a formatter prints it: shortest decimal form. */
  function Decimal(n: nat): (text: seq<Byte>)
    ensures 0 < |text|
  {
    if n < 10 then [48 + n] else Decimal(n / 10) + [48 + n % 10]
  }

  /** Printing a count and parsing it back gives the count, for every `u64`. */
  lemma {:induction false} DecimalRoundTrip(n: nat)
    ensures AllDigits(Decimal(n)) && DecimalValue(Decimal(n)) == n
    ensures n <= U64_MAX ==> CountValue(Decimal(n)) == Some(n)
  {
    var text := Decimal(n);
    if n < 10 {
      assert text[..0] == [];
    } else {
      DecimalRoundTrip(n / 10);
      assert text[..|text| - 1] == Decimal(n / 10);
    }
  }

  /** `part` stands in `fields` from `at` on. */
  ghost predicate Holds(fields: seq<Field>, at: nat, part: seq<Field>) {
    at + |part| <= |fields| && fields[at..at + |part|] == part
  }

  lemma HoldsConcat(fields: seq<Field>, at: nat, a: seq<Field>, b: seq<Field>)
    ensures Holds(fields, at, a + b) <==> Holds(fields, at, a) && Holds(fields, at + |a|, b)
  {
    if Holds(fields, at, a + b) {
      assert fields[at..at + |a|] == (a + b)[..|a|];
      assert fields[at + |a|..at + |a + b|] == (a + b)[|a|..];
    }
  }

  lemma SlicesJoin(fields: seq<Field>, a: nat, b: nat, c: nat)
    requires a <= b <= c <= |fields|
    ensures fields[a..b] + fields[b..c] == fields[a..c]
  {
  }

  lemma RestJoins(fields: seq<Field>, a: nat, b: nat)
    requires a <= b <= |fields|
    ensures fields[a..b] + fields[b..] == fields[a..]
  {
  }

  lemma HoldsHead(fields: seq<Field>, at: nat, part: seq<Field>)
    requires Holds(fields, at, part) && part != []
    ensures fields[at] == part[0]
  {
    assert fields[at] == fields[at..at + |part|][0];
  }

  lemma LeadingTagAt(fields: seq<Field>, at: nat, part: seq<Field>)
    requires Holds(fields, at, part)
    ensures LeadingTag(part, TagAt(fields, at + |part|)) == TagAt(fields, at)
  {
    if part != [] {
      HoldsHead(fields, at, part);
    }
  }

  /** The tag of the field at `at`, if there is one. */
  function TagAt(fields: seq<Field>, at: nat): Option<Tag> {
    if at < |fields| then Some(fields[at].tag) else None
  }

  /** The tag `part` starts with or, when it is empty, the tag that follows it. */
  function LeadingTag(part: seq<Field>, follow: Option<Tag>): Option<Tag> {
    if part == [] then follow else Some(part[0].tag)
  }

  lemma Regroup<T>(x: seq<T>, y: seq<T>, z: seq<T>)
    ensures (x + y) + z == x + (y + z)
  {
  }
}
