/** The formats a one-time code can be sent to: validators.ts. */
module Validators {
  import opened Whitespace
  import Decimal

  /** Neither white space nor an at sign. */
  predicate IsPlain(c: char) {
    c != '@' && !IsSpace(c)
  }

  /** One at sign, something before it, and after it a dot that is neither first nor last. */
  predicate IsEmail(s: string) {
    exists i, p ::
      && 0 < i < |s| && s[i] == '@' && i + 1 < p < |s| - 1 && s[p] == '.'
      && forall k :: 0 <= k < |s| && k != i ==> IsPlain(s[k])
  }

  /** Eleven digits, the first not a zero. */
  predicate IsCnPhone(s: string) {
    |s| == 11 && '1' <= s[0] <= '9' && forall k :: 0 <= k < |s| ==> Decimal.IsDigit(s[k])
  }

  predicate ValidTarget(s: string) {
    IsEmail(s) || IsCnPhone(s)
  }

  predicate AllPlain(s: string) {
    s != "" && forall k :: 0 <= k < |s| ==> IsPlain(s[k])
  }

  ghost predicate HasParts(s: string, name: string, host: string, top: string) {
    s == name + ['@'] + host + ['.'] + top && AllPlain(name) && AllPlain(host) && AllPlain(top)
  }

  /** A mail address is a name, an at sign, a host, a dot and a last part, none empty, without white space or another at sign. */
  lemma EmailIsThreeParts(s: string)
    ensures IsEmail(s) <==> exists name, host, top :: HasParts(s, name, host, top)
  {
    if IsEmail(s) {
      var i, p :| 0 < i < |s| && s[i] == '@' && i + 1 < p < |s| - 1 && s[p] == '.'
                  && forall k :: 0 <= k < |s| && k != i ==> IsPlain(s[k]);
      PartsOf(s, i, p);
    }
    if name, host, top :| HasParts(s, name, host, top) {
      PartsMakeEmail(s, name, host, top);
    }
  }

  lemma PartsOf(s: string, i: nat, p: nat)
    requires 0 < i < |s| && s[i] == '@' && i + 1 < p < |s| - 1 && s[p] == '.'
    requires forall k :: 0 <= k < |s| && k != i ==> IsPlain(s[k])
    ensures HasParts(s, s[..i], s[i + 1..p], s[p + 1..])
  {
    assert s == s[..i] + [s[i]] + s[i + 1..p] + [s[p]] + s[p + 1..];
  }

  lemma PartsMakeEmail(s: string, name: string, host: string, top: string)
    requires HasParts(s, name, host, top)
    ensures IsEmail(s)
  {
    var i, p := |name|, |name| + 1 + |host|;
    assert s[i] == '@' && s[p] == '.';
    forall k | 0 <= k < |s| && k != i
      ensures IsPlain(s[k])
    {
      if k < i {
        assert s[k] == name[k];
      } else if i < k < p {
        assert s[k] == host[k - i - 1];
      } else if k > p {
        assert s[k] == top[k - p - 1];
      }
    }
  }

  function TenTo(n: nat): nat {
    if n == 0 then 1 else 10 * TenTo(n - 1)
  }

  /** A number has as many digits as it needs. */
  lemma {:induction false} DigitsNeeded(n: nat, width: nat)
    requires width >= 1
    ensures |Decimal.Natural(n)| <= width <==> n < TenTo(width)
  {
    if n >= 10 && width > 1 {
      DigitsNeeded(n / 10, width - 1);
    } else if n >= 10 {
      assert TenTo(1) == 10 * TenTo(0);
    } else {
      assert TenTo(width) >= 10 by { TenToGrows(width); }
    }
  }

  lemma {:induction false} TenToGrows(width: nat)
    requires width >= 1
    ensures TenTo(width) >= 10
  {
    if width > 1 {
      TenToGrows(width - 1);
    } else {
      assert TenTo(1) == 10 * TenTo(0);
    }
  }

  lemma {:induction false} NoLeadingZero(n: nat)
    ensures Decimal.Natural(n)[0] == '0' <==> n == 0
  {
    if n >= 10 {
      NoLeadingZero(n / 10);
    }
  }

  /** The phone numbers among the decimal texts are those of the eleven-digit numbers. */
  lemma PhoneIsElevenDigits(n: nat)
    ensures IsCnPhone(Decimal.Natural(n)) <==> TenTo(10) <= n < TenTo(11)
  {
    DigitsNeeded(n, 10);
    DigitsNeeded(n, 11);
    NoLeadingZero(n);
    TenToGrows(10);
    var s := Decimal.Natural(n);
    assert forall k :: 0 <= k < |s| ==> Decimal.IsDigit(s[k]);
  }

  /** And every phone number is such a text. */
  lemma PhoneIsDecimal(s: string)
    requires IsCnPhone(s)
    ensures s == Decimal.Natural(Decimal.Value(s))
  {
    DecimalOfValue(s);
  }

  lemma {:induction false} DecimalOfValue(s: string)
    requires s != "" && '1' <= s[0] <= '9' && forall k :: 0 <= k < |s| ==> Decimal.IsDigit(s[k])
    ensures s == Decimal.Natural(Decimal.Value(s)) && Decimal.Value(s) > 0
  {
    var n := |s| - 1;
    var front := s[..n];
    assert s == front + [s[n]] && Decimal.Digit(Decimal.DigitValue(s[n])) == s[n];
    if n > 0 {
      DecimalOfValue(front);
      assert Decimal.Value(s) / 10 == Decimal.Value(front);
    } else {
      assert Decimal.Value(front) == 0;
    }
  }

  /** A mail address for every number. */
  function MailOf(n: nat): string {
    Decimal.Natural(n) + "@a.cn"
  }

  lemma MailIsValid(n: nat)
    ensures ValidTarget(MailOf(n))
  {
    var s, i := MailOf(n), |Decimal.Natural(n)|;
    assert s[i..] == "@a.cn";
    assert s[i] == "@a.cn"[0] && s[i + 1] == "@a.cn"[1] && s[i + 2] == "@a.cn"[2];
    assert s[i + 3] == "@a.cn"[3] && s[i + 4] == "@a.cn"[4];
    forall k | 0 <= k < |s| && k != i
      ensures IsPlain(s[k])
    {
      if k < i {
        assert s[k] == Decimal.Natural(n)[k];
      }
    }
    assert i + 1 < i + 2 < |s| - 1;
  }

  lemma MailsDiffer(i: nat, j: nat)
    requires i != j
    ensures MailOf(i) != MailOf(j)
  {
    Decimal.NaturalsDiffer(i, j);
    assert MailOf(i)[..|MailOf(i)| - 5] == Decimal.Natural(i);
    assert MailOf(j)[..|MailOf(j)| - 5] == Decimal.Natural(j);
  }
}
