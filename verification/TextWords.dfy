/** The words that text-analysis.util.ts matches in a text, by position. */
module TextWords {
  import opened Case
  import opened Common
  import opened Whitespace
  import Utf16

  /** The characters from start up to but not including end. */
  datatype Span = Span(start: nat, end: nat)

  predicate IsChinese(c: char) {
    '\U{4E00}' <= c <= '\U{9FFF}'
  }

  predicate IsWordChar(c: char) {
    'a' <= c <= 'z' || 'A' <= c <= 'Z' || '0' <= c <= '9' || c == '_'
  }

  predicate IsLetter(c: char) {
    'a' <= c <= 'z'
  }

  /** A word character is a letter of either case, a digit or the underscore. */
  lemma WordCharsAre(c: char)
    ensures IsWordChar(c) <==> IsLetter(LowerChar(c)) || c in "0123456789_"
  {
  }

  /** A regular expression without the g flag matches once, so the "ratio" is 1/length when it matches at all. */
  predicate DetectsChinese(text: string) {
    (exists i :: 0 <= i < |text| && IsChinese(text[i])) && 10 > 3 * Utf16.Length(text)
  }

  /** Where the run of characters satisfying p that starts here ends, or the limit before that. */
  function RunEnd(s: string, from: nat, p: char -> bool, limit: nat): (end: nat)
    requires from <= |s| && from <= limit
    ensures from <= end <= |s| && end <= limit && forall i :: from <= i < end ==> p(s[i])
    ensures end == |s| || end == limit || !p(s[end])
    decreases |s| - from
  {
    if from == |s| || from == limit || !p(s[from]) then from else RunEnd(s, from + 1, p, limit)
  }

  /** Matches of [U+4E00-U+9FFF]{2,8} from a position on, leftmost and greedy. */
  function ChineseWords(s: string, from: nat): seq<Span>
    requires from <= |s|
    decreases |s| - from
  {
    if from == |s| then []
    else
      var end := RunEnd(s, from, IsChinese, from + 8);
      if end - from >= 2 then [Span(from, end)] + ChineseWords(s, end) else ChineseWords(s, from + 1)
  }

  /** Where the run of word characters that starts here ends. */
  function WordEnd(s: string, from: nat): (end: nat)
    requires from < |s| && IsWordChar(s[from])
    ensures from < end <= |s| && (end == |s| || !IsWordChar(s[end]))
    ensures forall i :: from <= i < end ==> IsWordChar(s[i])
  {
    RunEnd(s, from, IsWordChar, |s|)
  }

  /** Matches of \b[a-z]{3,}\b from a position on: a match fills its run of word characters. */
  function EnglishWords(s: string, from: nat): seq<Span>
    requires from <= |s|
    decreases |s| - from
  {
    if from == |s| then []
    else if !IsWordChar(s[from]) then EnglishWords(s, from + 1)
    else
      var end := WordEnd(s, from);
      (if end - from >= 3 && AllLetters(s, Span(from, end)) then [Span(from, end)] else [])
      + EnglishWords(s, end)
  }

  const STOP_WORDS: set<string> := {
    "the", "a", "an", "and", "or", "but", "in", "on", "at", "to", "for", "of", "with", "by", "is", "are", "was", "were",
    "be", "been", "being", "have", "has", "had", "do", "does", "did", "will", "would", "could", "should", "may", "might",
    "can", "this", "that", "these", "those"}

  function Without<W(==)>(words: seq<W>, stop: set<W>): seq<W> {
    if words == [] then []
    else Without(words[..|words| - 1], stop) + if words[|words| - 1] in stop then [] else [words[|words| - 1]]
  }

  lemma WithoutAppend<W>(words: seq<W>, w: W, stop: set<W>)
    ensures Without(words + [w], stop) == if w in stop then Without(words, stop) else Without(words, stop) + [w]
  {
    assert (words + [w])[..|words|] == words;
    assert Without(words, stop) + [] == Without(words, stop);
  }

  lemma {:induction false} WithoutNothing<W>(words: seq<W>)
    ensures Without(words, {}) == words
  {
    if words != [] {
      WithoutNothing(words[..|words| - 1]);
    }
  }

  predicate Fits(s: string, x: Span) {
    x.start <= x.end <= |s|
  }

  predicate AllFit(s: string, spans: seq<Span>) {
    forall x :: x in spans ==> Fits(s, x)
  }

  /** The texts of the spans. */
  function Slices(s: string, spans: seq<Span>): (words: seq<string>)
    requires AllFit(s, spans)
  {
    seq(|spans|, k requires 0 <= k < |spans| => assert spans[k] in spans; s[spans[k].start..spans[k].end])
  }

  // ---------------------------------------------------------------- what a reading is, position by position

  /** The spans lie one behind the other and none is empty. */
  ghost predicate OneByOne(spans: seq<Span>) {
    && (forall k :: 0 <= k < |spans| ==> spans[k].start < spans[k].end)
    && forall k, l :: 0 <= k < l < |spans| ==> spans[k].end <= spans[l].start
  }

  /** A maximal run of word characters that consists of three or more small letters. */
  ghost predicate EnglishWordAt(s: string, x: Span) {
    && x.start + 3 <= x.end <= |s| && (forall i :: x.start <= i < x.end ==> IsLetter(s[i]))
    && (x.start == 0 || !IsWordChar(s[x.start - 1])) && (x.end == |s| || !IsWordChar(s[x.end]))
  }

  /** The spans are, in order, exactly the English words from a position on that are no stop words. */
  ghost predicate EnglishFrom(s: string, from: nat, stop: set<string>, spans: seq<Span>) {
    && OneByOne(spans)
    && forall x :: x in spans <==> from <= x.start && EnglishWordAt(s, x) && s[x.start..x.end] !in stop
  }

  /** Two to eight Chinese characters, ending at the eighth or where no Chinese character follows. */
  ghost predicate ChineseWordAt(s: string, x: Span) {
    && x.start + 2 <= x.end <= |s| && x.end <= x.start + 8 && (forall i :: x.start <= i < x.end ==> IsChinese(s[i]))
    && (x.end == |s| || x.end == x.start + 8 || !IsChinese(s[x.end]))
  }

  predicate ReadAt(spans: seq<Span>, i: nat) {
    exists x :: x in spans && x.start <= i < x.end
  }

  /**
   * The spans are the Chinese words read from a position on: each starts where its run of Chinese characters, the
   * reading or the rest of a cut run starts, and no two neighbouring Chinese characters are both left unread.
   */
  ghost predicate ChineseFrom(s: string, from: nat, spans: seq<Span>) {
    && OneByOne(spans)
    && (forall x :: x in spans ==> from <= x.start && ChineseWordAt(s, x))
    && (forall x :: x in spans ==>
          x.start == from || !IsChinese(s[x.start - 1]) || exists y :: y in spans && y.end == x.start)
    && forall i :: from <= i < |s| - 1 && IsChinese(s[i]) && IsChinese(s[i + 1]) ==> ReadAt(spans, i) || ReadAt(spans, i + 1)
  }

  /** The words an extraction counts: Chinese ones if a Chinese character is among at most three units, else English ones. */
  ghost predicate Counted(text: string, words: seq<string>) {
    if Utf16.Length(text) <= 3 && exists i :: 0 <= i < |text| && IsChinese(text[i]) then
      exists spans :: ChineseFrom(text, 0, spans) && AllFit(text, spans) && words == Slices(text, spans)
    else
      exists spans :: EnglishFrom(Lower(text), 0, STOP_WORDS, spans) && AllFit(Lower(text), spans)
                      && words == Slices(Lower(text), spans)
  }

  // ---------------------------------------------------------------- English words

  lemma WordsStartWithLetters(s: string)
    ensures forall x :: EnglishWordAt(s, x) ==> x.start < |s| && IsLetter(s[x.start])
  {
  }

  lemma InFront(x: Span, rest: seq<Span>)
    requires x.start < x.end && OneByOne(rest) && forall y :: y in rest ==> x.end <= y.start
    ensures OneByOne([x] + rest) && x in [x] + rest && forall y :: y in [x] + rest <==> y == x || y in rest
  {
    var spans := [x] + rest;
    forall k, l | 0 <= k < l < |spans|
      ensures spans[k].end <= spans[l].start
    {
      assert rest[l - 1] in rest;
    }
  }

  predicate AllLetters(s: string, x: Span)
    requires Fits(s, x)
  {
    forall i :: x.start <= i < x.end ==> IsLetter(s[i])
  }

  /** A run of word characters in front of a reading. */
  lemma RunInFront(s: string, from: nat, end: nat, rest: seq<Span>)
    requires from < end <= |s| && (from == 0 || !IsWordChar(s[from - 1])) && (end == |s| || !IsWordChar(s[end]))
    requires forall i :: from <= i < end ==> IsWordChar(s[i])
    requires EnglishFrom(s, end, {}, rest)
    ensures var x := Span(from, end);
            EnglishFrom(s, from, {}, (if end - from >= 3 && AllLetters(s, x) then [x] else []) + rest)
  {
    assert [] + rest == rest;
    RunIsWord(s, from, end);
    InFront(Span(from, end), rest);
  }

  /** Any other character in front of a reading. */
  lemma GapInFront(s: string, from: nat, rest: seq<Span>)
    requires from < |s| && !IsWordChar(s[from]) && EnglishFrom(s, from + 1, {}, rest)
    ensures EnglishFrom(s, from, {}, rest)
  {
    WordsStartWithLetters(s);
  }

  lemma {:induction false} EnglishWordsAreRead(s: string, from: nat)
    requires from <= |s| && (from == 0 || from == |s| || !IsWordChar(s[from - 1]) || !IsWordChar(s[from]))
    ensures EnglishFrom(s, from, {}, EnglishWords(s, from))
    decreases |s| - from
  {
    if from < |s| {
      if !IsWordChar(s[from]) {
        EnglishWordsAreRead(s, from + 1);
        GapInFront(s, from, EnglishWords(s, from + 1));
      } else {
        var end := WordEnd(s, from);
        EnglishWordsAreRead(s, end);
        RunInFront(s, from, end, EnglishWords(s, end));
      }
    }
  }

  /** Up to the end of a run of word characters there is no English word but the run itself. */
  lemma RunIsWord(s: string, from: nat, end: nat)
    requires from < end <= |s| && (from == 0 || !IsWordChar(s[from - 1])) && (end == |s| || !IsWordChar(s[end]))
    requires forall i :: from <= i < end ==> IsWordChar(s[i])
    ensures forall x: Span :: from <= x.start < end ==>
              (EnglishWordAt(s, x) <==> x == Span(from, end) && end - from >= 3 && AllLetters(s, x))
  {
    forall x: Span | from <= x.start < end && EnglishWordAt(s, x)
      ensures x == Span(from, end)
    {
    }
  }

  /** Leaving out the stop words of a reading. */
  function SpansWithout(s: string, spans: seq<Span>, stop: set<string>): (kept: seq<Span>)
    requires AllFit(s, spans)
    ensures AllFit(s, kept)
  {
    if spans == [] then []
    else
      var n := |spans| - 1;
      assert spans[n] in spans;
      SpansWithout(s, spans[..n], stop) + if s[spans[n].start..spans[n].end] in stop then [] else [spans[n]]
  }

  lemma {:induction false} SpansKept(s: string, spans: seq<Span>, stop: set<string>)
    requires AllFit(s, spans)
    ensures forall x :: x in SpansWithout(s, spans, stop) <==> x in spans && s[x.start..x.end] !in stop
  {
    if spans != [] {
      var n := |spans| - 1;
      SpansKept(s, spans[..n], stop);
      assert spans == spans[..n] + [spans[n]];
    }
  }

  lemma Behind(front: seq<Span>, x: Span)
    requires x.start < x.end && OneByOne(front) && forall y :: y in front ==> y.end <= x.start
    ensures OneByOne(front + [x])
  {
    assert forall k :: 0 <= k < |front| ==> front[k] in front;
  }

  lemma LastIsBehind(spans: seq<Span>)
    requires spans != [] && OneByOne(spans)
    ensures var n := |spans| - 1; OneByOne(spans[..n]) && forall y :: y in spans[..n] ==> y.end <= spans[n].start
  {
  }

  lemma {:induction false} KeptOneByOne(s: string, spans: seq<Span>, stop: set<string>)
    requires AllFit(s, spans) && OneByOne(spans)
    ensures OneByOne(SpansWithout(s, spans, stop))
  {
    if spans != [] {
      var n := |spans| - 1;
      LastIsBehind(spans);
      KeptOneByOne(s, spans[..n], stop);
      SpansKept(s, spans[..n], stop);
      Behind(SpansWithout(s, spans[..n], stop), spans[n]);
    }
  }

  lemma SlicesAppend(s: string, spans: seq<Span>, x: Span)
    requires AllFit(s, spans) && Fits(s, x)
    ensures AllFit(s, spans + [x]) && Slices(s, spans + [x]) == Slices(s, spans) + [s[x.start..x.end]]
  {
  }

  lemma {:induction false} SlicesKept(s: string, spans: seq<Span>, stop: set<string>)
    requires AllFit(s, spans)
    ensures Slices(s, SpansWithout(s, spans, stop)) == Without(Slices(s, spans), stop)
  {
    if spans != [] {
      var n := |spans| - 1;
      var front, x := SpansWithout(s, spans[..n], stop), spans[n];
      assert x in spans && spans == spans[..n] + [x];
      SlicesKept(s, spans[..n], stop);
      SlicesAppend(s, spans[..n], x);
      SlicesAppend(s, front, x);
      WithoutAppend(Slices(s, spans[..n]), s[x.start..x.end], stop);
      assert front + [] == front;
    }
  }

  lemma FirstIsIn(spans: seq<Span>)
    ensures spans == [] || spans[0] in spans
  {
  }

  /** Two lists of the same spans, each one by one, are the same list. */
  lemma {:induction false} SameSpans(a: seq<Span>, b: seq<Span>)
    requires OneByOne(a) && OneByOne(b) && forall x :: x in a <==> x in b
    ensures a == b
  {
    FirstIsIn(a);
    FirstIsIn(b);
    if a != [] && b != [] {
      assert a[0] == b[0];
      forall x
        ensures x in a[1..] <==> x in b[1..]
      {
        assert x in a <==> x == a[0] || x in a[1..];
        assert x in b <==> x == b[0] || x in b[1..];
      }
      SameSpans(a[1..], b[1..]);
    }
  }

  // ---------------------------------------------------------------- Chinese words

  lemma {:induction false} OnlyChineseReading(s: string, from: nat, spans: seq<Span>)
    requires from <= |s| && ChineseFrom(s, from, spans)
    ensures spans == ChineseWords(s, from)
    decreases |s| - from
  {
    if from == |s| {
      FirstIsIn(spans);
    } else {
      var end := RunEnd(s, from, IsChinese, from + 8);
      if end - from >= 2 {
        FirstOfReading(s, from, end, spans);
        RestOfReading(s, from, spans);
        OnlyChineseReading(s, end, spans[1..]);
      } else {
        NothingReadHere(s, from, end, spans);
        OnlyChineseReading(s, from + 1, spans);
      }
    }
  }

  lemma FirstOfReading(s: string, from: nat, end: nat, spans: seq<Span>)
    requires ChineseFrom(s, from, spans) && ChineseWordAt(s, Span(from, end))
    ensures spans != [] && spans[0] == Span(from, end)
  {
    assert IsChinese(s[from]) && IsChinese(s[from + 1]);
    var x :| x in spans && (x.start <= from < x.end || x.start <= from + 1 < x.end);
    assert x.start == from || exists y :: y in spans && y.end == from + 1;
    FirstStartsFirst(spans, x);
    SameEnd(s, x, Span(from, end));
  }

  lemma FirstStartsFirst(spans: seq<Span>, x: Span)
    requires OneByOne(spans) && x in spans && forall y :: y in spans ==> x.start <= y.start
    ensures spans != [] && spans[0] == x
  {
    var k :| 0 <= k < |spans| && spans[k] == x;
    assert spans[0] in spans;
  }

  lemma SameEnd(s: string, x: Span, y: Span)
    requires ChineseWordAt(s, x) && ChineseWordAt(s, y) && x.start == y.start
    ensures x == y
  {
  }

  lemma RestIsBehind(spans: seq<Span>)
    requires spans != [] && OneByOne(spans)
    ensures OneByOne(spans[1..])
    ensures forall x :: x in spans <==> x == spans[0] || x in spans[1..]
    ensures forall x :: x in spans[1..] ==> spans[0].end <= x.start
  {
    assert spans == [spans[0]] + spans[1..];
  }

  lemma RestOfReading(s: string, from: nat, spans: seq<Span>)
    requires spans != [] && ChineseFrom(s, from, spans)
    ensures ChineseFrom(s, spans[0].end, spans[1..])
  {
    var rest, end := spans[1..], spans[0].end;
    RestIsBehind(spans);
    assert spans[0] in spans;
    forall x | x in rest
      ensures x.start == end || !IsChinese(s[x.start - 1]) || exists y :: y in rest && y.end == x.start
    {
      if y :| y in spans && y.end == x.start {
        assert y == spans[0] || y in rest;
      }
    }
    forall i | end <= i && ReadAt(spans, i)
      ensures ReadAt(rest, i)
    {
      var x :| x in spans && x.start <= i < x.end;
      assert x != spans[0];
    }
  }

  lemma NothingReadHere(s: string, from: nat, end: nat, spans: seq<Span>)
    requires from < |s| && ChineseFrom(s, from, spans)
    requires from <= end <= from + 1 && end <= |s| && (end == |s| || !IsChinese(s[end]))
    ensures ChineseFrom(s, from + 1, spans)
  {
    forall x | x in spans
      ensures x.start > from
    {
      assert IsChinese(s[x.start]) && IsChinese(s[x.start + 1]);
    }
  }

  lemma {:induction false} ChineseWordsAreRead(s: string, from: nat)
    requires from <= |s|
    ensures ChineseFrom(s, from, ChineseWords(s, from))
    decreases |s| - from
  {
    if from < |s| {
      var end := RunEnd(s, from, IsChinese, from + 8);
      if end - from >= 2 {
        ChineseWordsAreRead(s, end);
        ReadingExtends(s, Span(from, end), ChineseWords(s, end));
      } else {
        ChineseWordsAreRead(s, from + 1);
        ReadingStartsEarlier(s, from, end, ChineseWords(s, from + 1));
      }
    }
  }

  lemma ReadingExtends(s: string, x: Span, rest: seq<Span>)
    requires ChineseWordAt(s, x) && ChineseFrom(s, x.end, rest)
    ensures ChineseFrom(s, x.start, [x] + rest)
  {
    var spans := [x] + rest;
    InFront(x, rest);
    forall y | y in rest
      ensures y.start == x.end || !IsChinese(s[y.start - 1]) || exists z :: z in spans && z.end == y.start
    {
      if z :| z in rest && z.end == y.start {
        assert z in spans;
      }
    }
    forall i: nat | x.start <= i < x.end || ReadAt(rest, i)
      ensures ReadAt(spans, i)
    {
      if z :| z in rest && z.start <= i < z.end {
        assert z in spans;
      }
    }
  }

  lemma ReadingStartsEarlier(s: string, from: nat, end: nat, spans: seq<Span>)
    requires from < |s| && ChineseFrom(s, from + 1, spans)
    requires from <= end <= from + 1 && end <= |s| && (end == |s| || !IsChinese(s[end]))
    ensures ChineseFrom(s, from, spans)
  {
    forall x | x in spans
      ensures x.start == from + 1 ==> !IsChinese(s[from])
    {
      assert IsChinese(s[x.start]);
    }
  }

  // ---------------------------------------------------------------- both

  /** The words read in a text, Chinese or English without stop words. */
  ghost function CountedWords(text: string): seq<string> {
    if DetectsChinese(text) then
      ChineseWordsAreRead(text, 0);
      Slices(text, ChineseWords(text, 0))
    else
      EnglishWordsAreRead(Lower(text), 0);
      Without(Slices(Lower(text), EnglishWords(Lower(text), 0)), STOP_WORDS)
  }

  lemma CountedWordsAreCounted(text: string)
    ensures Counted(text, CountedWords(text))
  {
    if DetectsChinese(text) {
      ChineseWordsAreRead(text, 0);
    } else {
      var s := Lower(text);
      EnglishWordsAreRead(s, 0);
      SpansKept(s, EnglishWords(s, 0), STOP_WORDS);
      KeptOneByOne(s, EnglishWords(s, 0), STOP_WORDS);
      SlicesKept(s, EnglishWords(s, 0), STOP_WORDS);
      assert EnglishFrom(s, 0, STOP_WORDS, SpansWithout(s, EnglishWords(s, 0), STOP_WORDS));
    }
  }

  /** There is one reading of a text. */
  lemma OnlyOneReading(text: string, words: seq<string>)
    ensures Counted(text, words) <==> words == CountedWords(text)
  {
    CountedWordsAreCounted(text);
    if Counted(text, words) {
      if DetectsChinese(text) {
        var spans :| ChineseFrom(text, 0, spans) && AllFit(text, spans) && words == Slices(text, spans);
        OnlyChineseReading(text, 0, spans);
      } else {
        var s := Lower(text);
        var spans :| EnglishFrom(s, 0, STOP_WORDS, spans) && AllFit(s, spans) && words == Slices(s, spans);
        EnglishWordsAreRead(s, 0);
        SpansKept(s, EnglishWords(s, 0), STOP_WORDS);
      KeptOneByOne(s, EnglishWords(s, 0), STOP_WORDS);
        SlicesKept(s, EnglishWords(s, 0), STOP_WORDS);
        SameSpans(spans, SpansWithout(s, EnglishWords(s, 0), STOP_WORDS));
      }
    }
  }

  /** A text of white space has no words. */
  lemma BlankHasNoWords(text: string)
    requires Trim(text) == ""
    ensures CountedWords(text) == []
  {
    var s := Lower(text);
    assert forall i :: 0 <= i < |text| ==> IsSpace(text[i]) && !IsChinese(text[i]);
    assert forall i :: 0 <= i < |s| ==> !IsLetter(s[i]);
    EnglishWordsAreRead(s, 0);
    WordsStartWithLetters(s);
    FirstIsIn(EnglishWords(s, 0));
  }
}
