/** Counting, cleaning and comparing texts: text-analysis.util.ts. */
module TextAnalysis {
  import opened Whitespace
  import Utf16

  // ---------------------------------------------------------------- cleaning and counting

  /** The class [\r\n\t]. */
  predicate IsControlSpace(c: char) {
    c == '\r' || c == '\n' || c == '\t'
  }

  /** Position i opens a maximal run of characters satisfying p. */
  predicate Opens(s: string, p: char -> bool, i: nat)
    requires i < |s|
  {
    p(s[i]) && (i == 0 || !p(s[i - 1]))
  }

  /** replace(/p+/g, ' '): every maximal run becomes one blank. */
  function ReplaceRuns(s: string, p: char -> bool): string {
    if s == "" then ""
    else
      var n := |s| - 1;
      ReplaceRuns(s[..n], p) + if !p(s[n]) then [s[n]] else if Opens(s, p, n) then " " else ""
  }

  function CleanText(text: string): string {
    Trim(ReplaceRuns(ReplaceRuns(text, IsSpace), IsControlSpace))
  }

  /** White space opens a new, empty piece; anything else goes to the last one. */
  function NextPieces(parts: seq<string>, c: char, opens: bool): (r: seq<string>)
    requires parts != []
    ensures r != []
  {
    if !IsSpace(c) then parts[|parts| - 1 := parts[|parts| - 1] + [c]] else if opens then parts + [""] else parts
  }

  /** split(/\s+/): the pieces between maximal runs of white space. */
  function SplitOnSpace(s: string): (parts: seq<string>)
    ensures parts != []
  {
    if s == "" then [""]
    else
      var n := |s| - 1;
      NextPieces(SplitOnSpace(s[..n]), s[n], Opens(s, IsSpace, n))
  }

  function NonEmpty(parts: seq<string>): seq<string> {
    if parts == [] then []
    else NonEmpty(parts[..|parts| - 1]) + if parts[|parts| - 1] == "" then [] else [parts[|parts| - 1]]
  }

  function CountWords(text: string): nat {
    if Trim(text) == "" then 0
    else |NonEmpty(SplitOnSpace(Trim(ReplaceRuns(text, IsControlSpace))))|
  }

  /** Without white space. */
  function Squeeze(s: string): string {
    if s == "" then "" else Squeeze(s[..|s| - 1]) + if IsSpace(s[|s| - 1]) then "" else [s[|s| - 1]]
  }

  function CountCharacters(text: string): nat {
    Utf16.Length(Squeeze(text))
  }

  /** Number of maximal runs of non-white-space characters. */
  function Runs(s: string): nat {
    if s == "" then 0
    else Runs(s[..|s| - 1]) + if Opens(s, c => !IsSpace(c), |s| - 1) then 1 else 0
  }

  lemma RunsOfLast(s: string)
    requires s != ""
    ensures var n := |s| - 1;
            Runs(s) == Runs(s[..n]) + if !IsSpace(s[n]) && (n == 0 || IsSpace(s[n - 1])) then 1 else 0
  {
  }

  lemma RunsAppend(s: string, c: char)
    ensures Runs(s + [c]) == Runs(s) + if !IsSpace(c) && (s == "" || IsSpace(s[|s| - 1])) then 1 else 0
  {
    assert (s + [c])[..|s|] == s;
    RunsOfLast(s + [c]);
  }

  lemma SqueezeAppend(s: string, c: char)
    ensures Squeeze(s + [c]) == Squeeze(s) + if IsSpace(c) then "" else [c]
  {
    assert (s + [c])[..|s|] == s;
  }

  /** The last piece is empty exactly at the start and after white space. */
  lemma {:induction false} LastPiece(s: string)
    ensures var parts := SplitOnSpace(s); parts[|parts| - 1] == "" <==> s == "" || IsSpace(s[|s| - 1])
  {
    if s != "" {
      LastPiece(s[..|s| - 1]);
    }
  }

  lemma NonEmptyAppend(parts: seq<string>, l: string)
    ensures NonEmpty(parts + [l]) == NonEmpty(parts) + if l == "" then [] else [l]
  {
    assert (parts + [l])[..|parts|] == parts;
  }

  lemma GrowLastPiece(parts: seq<string>, c: char)
    requires parts != []
    ensures var last := parts[|parts| - 1];
            |NonEmpty(parts[|parts| - 1 := last + [c]])| == |NonEmpty(parts)| + if last == "" then 1 else 0
  {
    var front, last := parts[..|parts| - 1], parts[|parts| - 1];
    assert parts == front + [last];
    NonEmptyAppend(front, last);
    assert parts[|parts| - 1 := last + [c]] == front + [last + [c]];
    NonEmptyAppend(front, last + [c]);
  }

  /** One more character adds a non-empty piece exactly when it starts one. */
  lemma PiecesOfLast(parts: seq<string>, c: char, opens: bool)
    requires parts != []
    ensures |NonEmpty(NextPieces(parts, c, opens))| == |NonEmpty(parts)|
              + if !IsSpace(c) && parts[|parts| - 1] == "" then 1 else 0
  {
    if !IsSpace(c) {
      GrowLastPiece(parts, c);
    } else if opens {
      NonEmptyAppend(parts, "");
    }
  }

  lemma {:induction false} PiecesAreRuns(s: string)
    ensures |NonEmpty(SplitOnSpace(s))| == Runs(s)
  {
    if s == "" {
      NonEmptyAppend([], "");
      assert [] + [""] == [""];
    } else {
      var n := |s| - 1;
      PiecesAreRuns(s[..n]);
      PiecesOfLast(SplitOnSpace(s[..n]), s[n], Opens(s, IsSpace, n));
      LastPiece(s[..n]);
      RunsOfLast(s);
      assert n > 0 ==> s[..n][n - 1] == s[n - 1];
    }
  }

  /** Same words, same characters, and both are empty or end in the same kind of character. */
  predicate SameCounts(r: string, s: string) {
    && Runs(r) == Runs(s) && Squeeze(r) == Squeeze(s) && (r == "" <==> s == "")
    && (s != "" && r != "" ==> (IsSpace(r[|r| - 1]) <==> IsSpace(s[|s| - 1])))
  }

  lemma SameCountsAppend(r: string, s: string, c: char, d: char)
    requires SameCounts(r, s) && (c == d || (IsSpace(c) && IsSpace(d)))
    ensures SameCounts(r + [c], s + [d])
  {
    RunsAppend(r, c);
    RunsAppend(s, d);
    SqueezeAppend(r, c);
    SqueezeAppend(s, d);
  }

  lemma SameCountsSkip(r: string, s: string, d: char)
    requires SameCounts(r, s) && s != "" && IsSpace(s[|s| - 1]) && IsSpace(d)
    ensures SameCounts(r, s + [d])
  {
    RunsAppend(s, d);
    SqueezeAppend(s, d);
  }

  /** Replacing runs of white space by blanks leaves the words, the characters and the kind of the last character. */
  lemma {:induction false} ReplaceKeepsCounts(s: string, p: char -> bool)
    requires forall c :: p(c) ==> IsSpace(c)
    ensures SameCounts(ReplaceRuns(s, p), s)
  {
    if s != "" {
      var n := |s| - 1;
      ReplaceKeepsCounts(s[..n], p);
      assert s[..n] + [s[n]] == s;
      var r := ReplaceRuns(s[..n], p);
      if !p(s[n]) {
        SameCountsAppend(r, s[..n], s[n], s[n]);
      } else if Opens(s, p, n) {
        SameCountsAppend(r, s[..n], ' ', s[n]);
        assert r + " " == r + [' '];
      } else {
        SameCountsSkip(r, s[..n], s[n]);
        assert r + "" == r;
      }
    }
  }

  lemma {:induction false} TrimEndKeepsCounts(s: string)
    ensures Runs(TrimEnd(s)) == Runs(s) && Squeeze(TrimEnd(s)) == Squeeze(s)
  {
    if s != "" && IsSpace(s[|s| - 1]) {
      TrimEndKeepsCounts(s[..|s| - 1]);
      RunsOfLast(s);
    }
  }

  lemma SpaceOffFront(s: string)
    requires s != "" && IsSpace(s[0])
    ensures Runs(s[1..]) == Runs(s) && Squeeze(s[1..]) == Squeeze(s)
  {
    SpaceInFront(s[0], s[1..]);
    assert s == [s[0]] + s[1..];
  }

  lemma {:induction false} TrimStartKeepsCounts(s: string)
    ensures Runs(TrimStart(s)) == Runs(s) && Squeeze(TrimStart(s)) == Squeeze(s)
  {
    if s != "" && IsSpace(s[0]) {
      TrimStartKeepsCounts(s[1..]);
      SpaceOffFront(s);
    }
  }

  lemma {:induction false} SpaceInFront(c: char, s: string)
    requires IsSpace(c)
    ensures Runs([c] + s) == Runs(s) && Squeeze([c] + s) == Squeeze(s)
  {
    if s == "" {
      assert [c] + s == "" + [c];
      RunsAppend("", c);
      SqueezeAppend("", c);
    } else {
      var n := |s| - 1;
      SpaceInFront(c, s[..n]);
      assert [c] + s == ([c] + s[..n]) + [s[n]] && s == s[..n] + [s[n]];
      RunsAppend([c] + s[..n], s[n]);
      RunsAppend(s[..n], s[n]);
      SqueezeAppend([c] + s[..n], s[n]);
      SqueezeAppend(s[..n], s[n]);
    }
  }

  lemma TrimKeepsCounts(s: string)
    ensures Runs(Trim(s)) == Runs(s) && Squeeze(Trim(s)) == Squeeze(s)
  {
    TrimStartKeepsCounts(s);
    TrimEndKeepsCounts(TrimStart(s));
  }

  /** The word count is the number of maximal runs of non-white-space characters. */
  lemma CountWordsIsRuns(text: string)
    ensures CountWords(text) == Runs(text)
  {
    TrimKeepsCounts(text);
    if Trim(text) != "" {
      var r := ReplaceRuns(text, IsControlSpace);
      ReplaceKeepsCounts(text, IsControlSpace);
      TrimKeepsCounts(r);
      PiecesAreRuns(Trim(r));
    }
  }

  /** White space at the end adds nothing. */
  lemma {:induction false} SpaceAtEnd(a: string, space: string)
    requires forall i :: 0 <= i < |space| ==> IsSpace(space[i])
    ensures Runs(a + space) == Runs(a) && Squeeze(a + space) == Squeeze(a)
  {
    if space == "" {
      assert a + space == a;
    } else {
      var n := |space| - 1;
      SpaceAtEnd(a, space[..n]);
      assert a + space == (a + space[..n]) + [space[n]];
      RunsAppend(a + space[..n], space[n]);
      SqueezeAppend(a + space[..n], space[n]);
    }
  }

  /** Behind white space a text counts as it does alone. */
  lemma {:induction false} RunsBehindSpace(t: string, b: string)
    requires t != "" && IsSpace(t[|t| - 1])
    ensures Runs(t + b) == Runs(t) + Runs(b)
  {
    if b == "" {
      assert t + b == t;
    } else {
      var n := |b| - 1;
      RunsBehindSpace(t, b[..n]);
      assert t + b == (t + b[..n]) + [b[n]];
      RunsAppend(t + b[..n], b[n]);
      RunsOfLast(b);
    }
  }

  lemma {:induction false} SqueezeConcat(t: string, b: string)
    ensures Squeeze(t + b) == Squeeze(t) + Squeeze(b)
  {
    if b == "" {
      assert t + b == t;
    } else {
      var n := |b| - 1;
      SqueezeConcat(t, b[..n]);
      assert t + b == (t + b[..n]) + [b[n]] && b == b[..n] + [b[n]];
      SqueezeAppend(t + b[..n], b[n]);
      SqueezeAppend(b[..n], b[n]);
      var last := if IsSpace(b[n]) then "" else [b[n]];
      assert (Squeeze(t) + Squeeze(b[..n])) + last == Squeeze(t) + (Squeeze(b[..n]) + last);
    }
  }

  /** Words and characters add up over texts joined by white space. */
  lemma CountsAreAdditive(a: string, space: string, b: string)
    requires space != "" && forall i :: 0 <= i < |space| ==> IsSpace(space[i])
    ensures CountWords(a + space + b) == CountWords(a) + CountWords(b)
    ensures CountCharacters(a + space + b) == CountCharacters(a) + CountCharacters(b)
  {
    SpaceAtEnd(a, space);
    RunsBehindSpace(a + space, b);
    SqueezeConcat(a + space, b);
    Utf16.LengthOfConcat(Squeeze(a + space), Squeeze(b));
    CountWordsIsRuns(a);
    CountWordsIsRuns(b);
    CountWordsIsRuns(a + space + b);
  }

  /** UTF-16 units a character adds to the count: none for white space, two beyond U+FFFF. */
  function Weight(c: char): nat {
    if IsSpace(c) then 0 else if c <= '\U{FFFF}' then 1 else 2
  }

  /** Characters add up over any two texts, and every character adds its own weight. */
  lemma CharactersAddUp(a: string, b: string, c: char)
    ensures CountCharacters("") == 0 && CountCharacters([c]) == Weight(c)
    ensures CountCharacters(a + b) == CountCharacters(a) + CountCharacters(b)
  {
    SqueezeAppend("", c);
    assert "" + [c] == [c] && [c][..0] == "";
    SqueezeConcat(a, b);
    Utf16.LengthOfConcat(Squeeze(a), Squeeze(b));
  }

  /** White space occurs as single blanks only. */
  ghost predicate Single(s: string) {
    forall i :: 0 <= i < |s| && IsSpace(s[i]) ==> s[i] == ' ' && (i > 0 ==> !IsSpace(s[i - 1]))
  }

  lemma {:induction false} CollapsedIsSingle(s: string)
    ensures Single(ReplaceRuns(s, IsSpace))
    ensures var r := ReplaceRuns(s, IsSpace);
            (r == "" <==> s == "") && (s != "" ==> (IsSpace(r[|r| - 1]) <==> IsSpace(s[|s| - 1])))
  {
    if s != "" {
      var n := |s| - 1;
      CollapsedIsSingle(s[..n]);
      assert n > 0 ==> s[..n][|s[..n]| - 1] == s[n - 1];
    }
  }

  lemma {:induction false} NothingToReplace(s: string, p: char -> bool)
    requires forall i :: 0 <= i < |s| && p(s[i]) ==> s[i] == ' ' && (i > 0 ==> !p(s[i - 1]))
    ensures ReplaceRuns(s, p) == s
  {
    if s != "" {
      NothingToReplace(s[..|s| - 1], p);
    }
  }

  /** After the first replacement the second one has nothing to do. */
  lemma SecondReplaceIsIdle(text: string)
    ensures ReplaceRuns(ReplaceRuns(text, IsSpace), IsControlSpace) == ReplaceRuns(text, IsSpace)
  {
    CollapsedIsSingle(text);
    NothingToReplace(ReplaceRuns(text, IsSpace), IsControlSpace);
  }

  lemma TrimOfTrimmed(s: string)
    requires s == "" || (!IsSpace(s[0]) && !IsSpace(s[|s| - 1]))
    ensures Trim(s) == s
  {
  }

  lemma TrimIsSlice(s: string) returns (lo: nat, hi: nat)
    ensures lo <= hi <= |s| && Trim(s) == s[lo..hi]
  {
    var t := TrimStart(s);
    lo := |s| - |t|;
    hi := lo + |TrimEnd(t)|;
  }

  lemma SliceOfSingle(r: string, lo: nat, hi: nat)
    requires Single(r) && lo <= hi <= |r|
    ensures Single(r[lo..hi])
  {
    var t := r[lo..hi];
    forall i | 0 <= i < |t| && IsSpace(t[i])
      ensures t[i] == ' ' && (i > 0 ==> !IsSpace(t[i - 1]))
    {
      assert t[i] == r[lo + i];
      assert i > 0 ==> t[i - 1] == r[lo + i - 1];
    }
  }

  /** Cleaned text has single blanks only, none at either end. */
  lemma CleanedIsClean(text: string)
    ensures var t := CleanText(text);
            Single(t) && (t == "" || (!IsSpace(t[0]) && !IsSpace(t[|t| - 1])))
  {
    SecondReplaceIsIdle(text);
    CollapsedIsSingle(text);
    TrimmedIsClean(ReplaceRuns(text, IsSpace));
  }

  lemma TrimmedIsClean(r: string)
    requires Single(r)
    ensures Single(Trim(r)) && (Trim(r) == "" || (!IsSpace(Trim(r)[0]) && !IsSpace(Trim(r)[|Trim(r)| - 1])))
  {
    var lo, hi := TrimIsSlice(r);
    SliceOfSingle(r, lo, hi);
  }

  lemma CleanTextIsIdempotent(text: string)
    ensures CleanText(CleanText(text)) == CleanText(text)
  {
    var t := CleanText(text);
    CleanedIsClean(text);
    NothingToReplace(t, IsSpace);
    SecondReplaceIsIdle(t);
    TrimOfTrimmed(t);
  }

  lemma CleanTextKeepsCounts(text: string)
    ensures CountWords(CleanText(text)) == CountWords(text)
    ensures CountCharacters(CleanText(text)) == CountCharacters(text)
    ensures Squeeze(CleanText(text)) == Squeeze(text)
  {
    var r := ReplaceRuns(text, IsSpace);
    SecondReplaceIsIdle(text);
    ReplaceKeepsCounts(text, IsSpace);
    TrimKeepsCounts(r);
    CountWordsIsRuns(text);
    CountWordsIsRuns(CleanText(text));
  }
}
