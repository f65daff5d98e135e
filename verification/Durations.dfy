/** Durations as the environment spells them: "30s", "15m", "12h", "7d". */
module Durations {
  import opened Strings
  import opened Wrappers

  /** Milliseconds that are a whole number of seconds. */
  type WholeSeconds = n: nat | n % 1000 == 0

  predicate AllDigits(s: string) {
    forall i :: 0 <= i < |s| ==> '0' <= s[i] <= '9'
  }

  function Value(digits: string): nat
    requires AllDigits(digits)
  {
    if digits == [] then 0
    else
      10 * Value(digits[..|digits| - 1]) + (digits[|digits| - 1] as nat - '0' as nat)
  }

  function Decimal(n: nat): (digits: string)
    ensures digits != [] && AllDigits(digits)
    ensures Value(digits) == n
  {
    var last := ['0' + (n % 10) as char];
    if n < 10 then last
    else
      var front := Decimal(n / 10);
      assert (front + last)[..|front|] == front;
      front + last
  }

  function Multiplier(unit: char): Option<WholeSeconds> {
    match unit
    case 's' => Some(1000)
    case 'm' => Some(60_000)
    case 'h' => Some(3_600_000)
    case 'd' => Some(86_400_000)
    case _ => None
  }

  /** Optional space, at least one digit, one unit letter, optional space; nothing else. */
  function ParseDuration(value: string): Option<WholeSeconds> {
    var trimmed := Trim(value);
    if |trimmed| < 2 then None
    else
      var amount, unit := trimmed[..|trimmed| - 1], Multiplier(trimmed[|trimmed| - 1]);
      if !AllDigits(amount) || unit.None? then None
      else
        WholeMultiple(Value(amount), unit.value);
        Some(Value(amount) * unit.value)
  }

  lemma {:induction false} WholeMultiple(amount: nat, unit: WholeSeconds)
    ensures (amount * unit) % 1000 == 0 && amount * unit >= 0
  {
    var k := unit / 1000;
    assert unit == 1000 * k;
    assert amount * unit == 1000 * (amount * k);
  }

  /** Every amount in every unit reads back as itself, whatever space surrounds it. */
  lemma DurationRoundTrip(left: string, amount: nat, unit: char, right: string)
    requires Blank(left) && Blank(right) && Multiplier(unit).Some?
    ensures ParseDuration(left + Decimal(amount) + [unit] + right) == Some(amount * Multiplier(unit).value)
  {
    var body := Decimal(amount) + [unit];
    Concat4(left, Decimal(amount), [unit], right);
    TrimmedIs(left, body, right);
    assert body[..|body| - 1] == Decimal(amount);
  }

  lemma Concat4(a: string, b: string, c: string, d: string)
    ensures a + b + c + d == a + (b + c + d)
    ensures a + b + c + d == a + ((b + c) + d)
  {
  }

  /** A second is a thousand milliseconds, a minute sixty seconds, an hour sixty minutes, a day twenty-four hours. */
  lemma UnitsMean(n: nat, unit: char)
    requires unit in {'s', 'm', 'h', 'd'}
    ensures ParseDuration(Decimal(n) + [unit]).Some?
    ensures var ms := ParseDuration(Decimal(n) + [unit]).value;
            && (unit == 's' ==> ms == n * 1000)
            && (unit == 'm' ==> ms == n * (60 * 1000))
            && (unit == 'h' ==> ms == n * (60 * 60 * 1000))
            && (unit == 'd' ==> ms == n * (24 * 60 * 60 * 1000))
  {
    UnitReads(n, unit);
  }

  lemma UnitReads(n: nat, unit: char)
    requires Multiplier(unit).Some?
    ensures ParseDuration(Decimal(n) + [unit]) == Some(n * Multiplier(unit).value)
  {
    DurationRoundTrip("", n, unit, "");
    assert "" + Decimal(n) + [unit] + "" == Decimal(n) + [unit];
  }

  /** No other letter is a unit. */
  lemma OtherUnits(unit: char)
    ensures Multiplier(unit).Some? <==> unit in {'s', 'm', 'h', 'd'}
  {
  }

  /** Nothing else reads: an accepted text is space, digits, a unit, space. */
  lemma OnlyDurationsParse(value: string) returns (left: string, digits: string, unit: char, right: string)
    requires ParseDuration(value).Some?
    ensures value == left + digits + [unit] + right
    ensures Blank(left) && Blank(right) && digits != [] && AllDigits(digits) && Multiplier(unit).Some?
    ensures ParseDuration(value).value == Value(digits) * Multiplier(unit).value
  {
    left := TrimLeftSplits(value);
    right := TrimRightSplits(TrimLeft(value));
    var trimmed := Trim(value);
    digits, unit := trimmed[..|trimmed| - 1], trimmed[|trimmed| - 1];
    assert trimmed == digits + [unit];
  }
}
