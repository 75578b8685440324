/** The lifetime texts that token.service.ts accepts, such as 7d or 15m. */
module Duration {
  import opened Case
  import opened Common
  import opened Whitespace
  import Decimal

  /** Milliseconds of a unit; without a unit seconds are meant. */
  function UnitMs(unit: string): Option<nat> {
    if unit == "" || unit == "s" then Some(1000)
    else if unit == "ms" then Some(1)
    else if unit == "m" then Some(60000)
    else if unit == "h" then Some(3600000)
    else if unit == "d" then Some(86400000)
    else if unit == "w" then Some(604800000)
    else None
  }

  function DigitRun(s: string): (n: nat)
    ensures n <= |s| && (forall i :: 0 <= i < n ==> Decimal.IsDigit(s[i])) && (n < |s| ==> !Decimal.IsDigit(s[n]))
  {
    if s == "" || !Decimal.IsDigit(s[0]) then 0 else 1 + DigitRun(s[1..])
  }

  /** None stands for the error thrown on any other text. */
  function Milliseconds(text: string): Option<nat> {
    var t := Trim(text);
    var n := DigitRun(t);
    var unit := UnitMs(Lower(t[n..]));
    if n == 0 || unit.None? then None else Some(Decimal.Value(t[..n]) * unit.value)
  }

  predicate IsSpaces(s: string) {
    forall i :: 0 <= i < |s| ==> IsSpace(s[i])
  }

  lemma {:induction false} TrimStartSkips(space: string, s: string)
    requires IsSpaces(space) && s != "" && !IsSpace(s[0])
    ensures TrimStart(space + s) == s
  {
    if space != "" {
      assert (space + s)[1..] == space[1..] + s;
      TrimStartSkips(space[1..], s);
    } else {
      assert space + s == s;
    }
  }

  lemma {:induction false} TrimEndSkips(s: string, space: string)
    requires IsSpaces(space) && s != "" && !IsSpace(s[|s| - 1])
    ensures TrimEnd(s + space) == s
  {
    if space != "" {
      var n := |space| - 1;
      assert (s + space)[..|s + space| - 1] == s + space[..n];
      TrimEndSkips(s, space[..n]);
    } else {
      assert s + space == s;
    }
  }

  lemma TrimSkips(before: string, s: string, after: string)
    requires IsSpaces(before) && IsSpaces(after) && s != "" && !IsSpace(s[0]) && !IsSpace(s[|s| - 1])
    ensures Trim(before + s + after) == s
  {
    assert before + s + after == before + (s + after);
    TrimStartSkips(before, s + after);
    TrimEndSkips(s, after);
  }

  lemma {:induction false} DigitRunEnds(digits: string, rest: string)
    requires forall i :: 0 <= i < |digits| ==> Decimal.IsDigit(digits[i])
    requires rest != "" ==> !Decimal.IsDigit(rest[0])
    ensures DigitRun(digits + rest) == |digits|
  {
    if digits != "" {
      assert (digits + rest)[1..] == digits[1..] + rest;
      DigitRunEnds(digits[1..], rest);
    } else {
      assert digits + rest == rest;
    }
  }

  lemma UnitIsLetters(unit: string)
    requires UnitMs(Lower(unit)).Some?
    ensures forall i :: 0 <= i < |unit| ==> !Decimal.IsDigit(unit[i]) && !IsSpace(unit[i])
  {
    forall i | 0 <= i < |unit|
      ensures !Decimal.IsDigit(unit[i]) && !IsSpace(unit[i])
    {
      assert Lower(unit)[i] == LowerChar(unit[i]) && Lower(unit)[i] in "smshdw";
    }
  }

  /** A number with a unit, in any case and with white space around, stands for that many units. */
  lemma PrintedDurationReads(before: string, n: nat, unit: string, after: string)
    requires IsSpaces(before) && IsSpaces(after) && UnitMs(Lower(unit)).Some?
    ensures Milliseconds(before + (Decimal.Natural(n) + unit) + after) == Some(n * UnitMs(Lower(unit)).value)
  {
    var digits := Decimal.Natural(n);
    var s := digits + unit;
    UnitIsLetters(unit);
    assert s[0] == digits[0] && s[|s| - 1] == if unit == "" then digits[|digits| - 1] else unit[|unit| - 1];
    TrimSkips(before, s, after);
    DigitRunEnds(digits, unit);
    assert s[..|digits|] == digits && s[|digits|..] == unit;
    Decimal.ValueOfNatural(n);
  }

  /** And only such texts are accepted: digits and a unit between white space. */
  lemma AcceptedIsDigitsAndUnit(text: string) returns (digits: string, unit: string)
    requires Milliseconds(text).Some?
    ensures Trim(text) == digits + unit && digits != "" && UnitMs(Lower(unit)).Some?
    ensures forall i :: 0 <= i < |digits| ==> Decimal.IsDigit(digits[i])
    ensures Milliseconds(text).value == Decimal.Value(digits) * UnitMs(Lower(unit)).value
  {
    var n := DigitRun(Trim(text));
    digits, unit := Trim(text)[..n], Trim(text)[n..];
  }

  /** The units, each with its milliseconds; there are no others. */
  lemma UnitsInWords(unit: string)
    ensures UnitMs("ms") == Some(1) && UnitMs("s") == UnitMs("") == Some(1000) && UnitMs("m") == Some(60 * 1000)
    ensures UnitMs("h") == Some(60 * 60 * 1000) && UnitMs("d") == Some(24 * 60 * 60 * 1000)
    ensures UnitMs("w") == Some(7 * 24 * 60 * 60 * 1000)
    ensures UnitMs(unit).Some? <==> unit in {"", "ms", "s", "m", "h", "d", "w"}
  {
  }

  lemma NoMargin(s: string)
    ensures "" + s + "" == s
  {
  }

  lemma PlainDurationReads(n: nat, unit: string)
    requires UnitMs(Lower(unit)).Some?
    ensures Milliseconds(Decimal.Natural(n) + unit) == Some(n * UnitMs(Lower(unit)).value)
  {
    PrintedDurationReads("", n, unit, "");
    NoMargin(Decimal.Natural(n) + unit);
  }

  lemma LowerDay(unit: string)
    requires unit == "d"
    ensures UnitMs(Lower(unit)) == Some(24 * 60 * 60 * 1000)
  {
    assert Lower(unit) == unit;
  }

  lemma SevenDays(text: string)
    requires text == "7d"
    ensures Milliseconds(text) == Some(7 * (24 * 60 * 60 * 1000))
  {
    var digits, unit := Decimal.Natural(7), "d";
    assert digits == ['7'];
    LowerDay(unit);
    PlainDurationReads(7, unit);
    assert text == digits + unit;
  }
}
