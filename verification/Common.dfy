/** Small vocabulary shared by the other modules. */
module Common {

  datatype Option<+T> = None | Some(value: T)

  datatype Result<+T> = Success(value: T) | Failure(message: string)

  /** No two positions of the sequence hold the same element. */
  predicate NoDuplicates<T(==)>(s: seq<T>) {
    forall i, j :: 0 <= i < j < |s| ==> s[i] != s[j]
  }

  function ToSet<T>(s: seq<T>): set<T> {
    set x | x in s
  }

  /** Some occurrence of a stands before some occurrence of b. */
  predicate Before<T(==)>(s: seq<T>, a: T, b: T) {
    exists i, j :: 0 <= i < j < |s| && s[i] == a && s[j] == b
  }

  lemma SubsetSize<T>(a: set<T>, b: set<T>)
    requires a <= b
    ensures |a| <= |b| && (|a| == |b| ==> a == b)
  {
    assert b == a + (b - a);
    assert |b| == |a| + |b - a|;
  }

  lemma ToSetAppend<T>(s: seq<T>, x: T)
    ensures ToSet(s + [x]) == ToSet(s) + {x}
  {
    assert x in s + [x];
  }

  lemma {:induction false} CountOfDistinct<T>(s: seq<T>)
    requires NoDuplicates(s)
    ensures |ToSet(s)| == |s|
  {
    if s == [] {
      assert ToSet(s) == {};
    } else {
      var n := |s| - 1;
      CountOfDistinct(s[..n]);
      assert ToSet(s) == ToSet(s[..n]) + {s[n]};
    }
  }

  /** The distinct elements in the order in which they first occur, as a JavaScript Set keeps them. */
  function FirstOccurrences<T(==,!new)>(s: seq<T>): (r: seq<T>)
    ensures NoDuplicates(r) && forall x :: x in r <==> x in s
  {
    if s == [] then []
    else
      var n := |s| - 1;
      var r := FirstOccurrences(s[..n]);
      assert s == s[..n] + [s[n]];
      if s[n] in r then r else r + [s[n]]
  }

  lemma FirstOccurrencesAppend<T(!new)>(s: seq<T>, x: T)
    ensures FirstOccurrences(s + [x]) == if x in s then FirstOccurrences(s) else FirstOccurrences(s) + [x]
  {
    assert (s + [x])[..|s|] == s;
  }

  /** a occurs where b has not yet occurred. */
  predicate OccursFirst<T(==)>(s: seq<T>, a: T, b: T) {
    exists i :: 0 <= i < |s| && s[i] == a && b !in s[..i + 1]
  }

  lemma OccursFirstStays<T>(s: seq<T>, x: T, a: T, b: T)
    requires OccursFirst(s, a, b)
    ensures OccursFirst(s + [x], a, b)
  {
    var i :| 0 <= i < |s| && s[i] == a && b !in s[..i + 1];
    assert (s + [x])[i] == a && (s + [x])[..i + 1] == s[..i + 1];
  }

  /** The list of first occurrences is in the order in which the elements first occur. */
  lemma {:induction false} FirstOccurrencesInOrder<T(!new)>(s: seq<T>, i: nat, j: nat)
    requires i < j < |FirstOccurrences(s)|
    ensures OccursFirst(s, FirstOccurrences(s)[i], FirstOccurrences(s)[j])
  {
    var n := |s| - 1;
    var front, r := FirstOccurrences(s[..n]), FirstOccurrences(s);
    assert s == s[..n] + [s[n]];
    if j < |front| {
      FirstOccurrencesInOrder(s[..n], i, j);
      OccursFirstStays(s[..n], s[n], front[i], front[j]);
    } else {
      assert front[i] in s[..n];
      var k :| 0 <= k < n && s[..n][k] == front[i];
      assert s[k] == r[i] && forall h :: 0 <= h < k + 1 ==> s[h] in s[..n];
      assert s[n] !in s[..k + 1];
    }
  }

  /** How often w occurs. */
  function Occurrences<W(==)>(words: seq<W>, w: W): nat {
    if words == [] then 0
    else Occurrences(words[..|words| - 1], w) + if words[|words| - 1] == w then 1 else 0
  }

  lemma OneMoreOccurrence<W>(words: seq<W>, x: W, w: W)
    ensures Occurrences(words + [x], w) == Occurrences(words, w) + if w == x then 1 else 0
  {
    assert (words + [x])[..|words|] == words;
  }

  /** The count is the multiplicity. */
  lemma {:induction false} OccurrencesAreMultiplicity<W>(words: seq<W>, w: W)
    ensures Occurrences(words, w) == multiset(words)[w]
  {
    if words != [] {
      var n := |words| - 1;
      OccurrencesAreMultiplicity(words[..n], w);
      assert words == words[..n] + [words[n]];
    }
  }

  lemma {:induction false} DistinctIsItself<T(!new)>(s: seq<T>)
    requires NoDuplicates(s)
    ensures FirstOccurrences(s) == s
  {
    if s != [] {
      var n := |s| - 1;
      DistinctIsItself(s[..n]);
      assert s == s[..n] + [s[n]];
    }
  }

  lemma LastBehind<T>(s: seq<T>, more: seq<T>)
    requires more != []
    ensures s + more == (s + more[..|more| - 1]) + [more[|more| - 1]]
  {
  }

  /** Dropping repetitions early changes nothing. */
  lemma {:induction false} FirstOccurrencesOnceMore<T(!new)>(s: seq<T>, more: seq<T>)
    ensures FirstOccurrences(FirstOccurrences(s) + more) == FirstOccurrences(s + more)
  {
    if more == [] {
      assert s + more == s && FirstOccurrences(s) + more == FirstOccurrences(s);
      DistinctIsItself(FirstOccurrences(s));
    } else {
      var front, x := more[..|more| - 1], more[|more| - 1];
      FirstOccurrencesOnceMore(s, front);
      LastBehind(s, more);
      LastBehind(FirstOccurrences(s), more);
      FirstOccurrencesAppend(s + front, x);
      FirstOccurrencesAppend(FirstOccurrences(s) + front, x);
    }
  }

  /** Later elements never disturb earlier ones. */
  lemma {:induction false} FirstOccurrencesStay<T(!new)>(s: seq<T>, more: seq<T>)
    ensures FirstOccurrences(s) <= FirstOccurrences(s + more)
  {
    if more == [] {
      assert s + more == s;
    } else {
      FirstOccurrencesStay(s, more[..|more| - 1]);
      LastBehind(s, more);
      FirstOccurrencesAppend(s + more[..|more| - 1], more[|more| - 1]);
    }
  }
}

/** Lower-casing of ASCII letters; every other character stays as it is. */
module Case {

  function LowerChar(c: char): char {
    if 'A' <= c <= 'Z' then (c as int + 32) as char else c
  }

  function Lower(s: string): string {
    seq(|s|, i requires 0 <= i < |s| => LowerChar(s[i]))
  }
}

/** JavaScript's notion of white space, and trim. */
module Whitespace {

  predicate IsSpace(c: char) {
    || '\t' <= c <= '\r' || c == ' ' || c == '\U{00A0}' || c == '\U{1680}'
    || '\U{2000}' <= c <= '\U{200A}' || c == '\U{2028}' || c == '\U{2029}'
    || c == '\U{202F}' || c == '\U{205F}' || c == '\U{3000}' || c == '\U{FEFF}'
  }

  function TrimStart(s: string): (r: string)
    ensures r == [] || !IsSpace(r[0])
    ensures |r| <= |s| && r == s[|s| - |r|..]
    ensures forall i :: 0 <= i < |s| - |r| ==> IsSpace(s[i])
  {
    if s != [] && IsSpace(s[0]) then TrimStart(s[1..]) else s
  }

  function TrimEnd(s: string): (r: string)
    ensures r == [] || !IsSpace(r[|r| - 1])
    ensures |r| <= |s| && r == s[..|r|]
    ensures forall i :: |r| <= i < |s| ==> IsSpace(s[i])
  {
    if s != [] && IsSpace(s[|s| - 1]) then TrimEnd(s[..|s| - 1]) else s
  }

  function Trim(s: string): (r: string)
    ensures r == [] || (!IsSpace(r[0]) && !IsSpace(r[|r| - 1]))
  {
    TrimEnd(TrimStart(s))
  }
}

/** The length JavaScript gives a string, in UTF-16 code units. */
module Utf16 {

  function Length(s: string): (n: nat)
    ensures n >= |s|
  {
    if s == "" then 0 else Length(s[..|s| - 1]) + if s[|s| - 1] as int >= 0x10000 then 2 else 1
  }

  lemma {:induction false} LengthOfConcat(a: string, b: string)
    ensures Length(a + b) == Length(a) + Length(b)
  {
    if b == "" {
      assert a + b == a;
    } else {
      LengthOfConcat(a, b[..|b| - 1]);
      assert (a + b)[..|a + b| - 1] == a + b[..|b| - 1];
    }
  }
}

/** Decimal text of integers, as String(n) and n.toString() print them. */
module Decimal {

  function Digit(d: nat): char
    requires d < 10
  {
    (d as int + '0' as int) as char
  }

  function Natural(n: nat): (s: string)
    ensures |s| > 0 && forall i :: 0 <= i < |s| ==> '0' <= s[i] <= '9'
  {
    if n < 10 then [Digit(n)] else Natural(n / 10) + [Digit(n % 10)]
  }

  function Integer(n: int): string {
    if n < 0 then "-" + Natural(-n) else Natural(n)
  }

  predicate IsDigit(c: char) {
    '0' <= c <= '9'
  }

  function DigitValue(c: char): nat
    requires IsDigit(c)
  {
    c as int - '0' as int
  }

  /** The number a run of digits stands for. */
  function Value(s: string): nat
    requires forall i :: 0 <= i < |s| ==> IsDigit(s[i])
  {
    if s == [] then 0 else Value(s[..|s| - 1]) * 10 + DigitValue(s[|s| - 1])
  }

  lemma {:induction false} ValueOfNatural(n: nat)
    ensures Value(Natural(n)) == n
  {
    var s := Natural(n);
    if n >= 10 {
      ValueOfNatural(n / 10);
      assert s[..|s| - 1] == Natural(n / 10);
    } else {
      assert s[..0] == [];
    }
  }

  lemma NaturalsDiffer(m: nat, n: nat)
    requires m != n
    ensures Natural(m) != Natural(n)
  {
    ValueOfNatural(m);
    ValueOfNatural(n);
  }
}
