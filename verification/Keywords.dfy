/** Keyword extraction and keyword similarity of text-analysis.util.ts. */
module Keywords {
  import opened Case
  import opened Common
  import opened TextWords
  import opened Whitespace

  // ---------------------------------------------------------------- frequency and top k

  datatype Entry<W> = Entry(word: W, count: nat)

  /** The frequency record as Object.entries lists it: first occurrence order. */
  function EntriesOf<W(==,!new)>(words: seq<W>): seq<Entry<W>> {
    var order := FirstOccurrences(words);
    seq(|order|, i requires 0 <= i < |order| => Entry(order[i], Occurrences(words, order[i])))
  }

  /** Places an entry behind all that are at least as frequent. */
  function Insert<W>(e: Entry<W>, sorted: seq<Entry<W>>): seq<Entry<W>> {
    if sorted == [] || sorted[|sorted| - 1].count >= e.count then sorted + [e]
    else Insert(e, sorted[..|sorted| - 1]) + [sorted[|sorted| - 1]]
  }

  /** The stable sort by falling count. */
  function SortByCount<W>(entries: seq<Entry<W>>): seq<Entry<W>> {
    if entries == [] then [] else Insert(entries[|entries| - 1], SortByCount(entries[..|entries| - 1]))
  }

  function WordsOf<W>(entries: seq<Entry<W>>): seq<W> {
    seq(|entries|, i requires 0 <= i < |entries| => entries[i].word)
  }

  function TopWords<W(==,!new)>(words: seq<W>, max: nat): seq<W> {
    var sorted := SortByCount(EntriesOf(words));
    WordsOf(if max < |sorted| then sorted[..max] else sorted)
  }

  /** The frequency record of the words counted so far. */
  ghost predicate Counts<W(!new)>(counted: seq<W>, order: seq<W>, frequency: map<W, nat>) {
    && order == FirstOccurrences(counted)
    && frequency.Keys == ToSet(counted)
    && forall w :: w in frequency ==> frequency[w] == Occurrences(counted, w)
  }

  lemma {:induction false} AbsentIsZero<W>(counted: seq<W>, word: W)
    ensures word in counted <==> Occurrences(counted, word) > 0
  {
    if counted != [] {
      var n := |counted| - 1;
      AbsentIsZero(counted[..n], word);
      assert counted == counted[..n] + [counted[n]];
    }
  }

  function Bumped<W(==)>(frequency: map<W, nat>, word: W): map<W, nat> {
    frequency[word := (if word in frequency then frequency[word] else 0) + 1]
  }

  lemma CountOneMore<W(!new)>(counted: seq<W>, order: seq<W>, frequency: map<W, nat>, word: W)
    requires Counts(counted, order, frequency)
    ensures Counts(counted + [word], if word in frequency then order else order + [word], Bumped(frequency, word))
  {
    FirstOccurrencesAppend(counted, word);
    AbsentIsZero(counted, word);
    ToSetAppend(counted, word);
    assert word in frequency <==> word in ToSet(counted);
    forall w | w in Bumped(frequency, word)
      ensures Bumped(frequency, word)[w] == Occurrences(counted + [word], w)
    {
      OneMoreOccurrence(counted, word, w);
    }
  }

  /** The counting loop of both extractors; `order` is the insertion order of the record's keys. */
  method CountFrequencies(words: seq<string>, stop: set<string>) returns (order: seq<string>, frequency: map<string, nat>)
    ensures Counts(Without(words, stop), order, frequency)
  {
    order, frequency := [], map[];
    for i := 0 to |words|
      invariant Counts(Without(words[..i], stop), order, frequency)
    {
      var word := words[i];
      assert words[..i + 1] == words[..i] + [word];
      WithoutAppend(words[..i], word, stop);
      if word !in stop {
        CountOneMore(Without(words[..i], stop), order, frequency, word);
        if word !in frequency {
          order := order + [word];
        }
        frequency := Bumped(frequency, word);
      }
    }
    assert words[..|words|] == words;
  }

  /** A name every plain object inherits; counting starts from the inherited value and the sort compares no numbers. */
  const INHERITED := "constructor"

  /** At most max distinct words of the text, as many as there are below max. */
  ghost predicate KeptWords(kept: seq<string>, words: seq<string>, max: nat) {
    && |kept| == (if max < |ToSet(words)| then max else |ToSet(words)|)
    && NoDuplicates(kept)
    && forall w :: w in kept ==> w in words
  }

  /** What an extraction promises: the order by frequency only where the record holds nothing but numbers. */
  ghost predicate Extracted(kept: seq<string>, words: seq<string>, max: nat) {
    && KeptWords(kept, words, max)
    && (INHERITED !in words ==> kept == TopWords(words, max) && MostFrequentOf(kept, words, max))
  }

  /**
   * Object.entries, sort, slice, map: the tail of both extractors. With an inherited name among the words the
   * comparison is inconsistent, and the sort may leave the entries in any order.
   */
  method MostFrequent(order: seq<string>, frequency: map<string, nat>, max: nat, ghost counted: seq<string>)
    returns (keywords: seq<string>)
    requires Counts(counted, order, frequency)
    ensures Extracted(keywords, counted, max)
  {
    assert forall i :: 0 <= i < |order| ==> order[i] in counted;
    var entries := seq(|order|, i requires 0 <= i < |order| && order[i] in frequency => Entry(order[i], frequency[order[i]]));
    assert entries == EntriesOf(counted);
    var sorted: seq<Entry<string>>;
    if INHERITED in frequency {
      assert multiset(entries) == multiset(entries);
      sorted :| multiset(sorted) == multiset(entries);
    } else {
      sorted := SortByCount(entries);
      SortIsFallingPermutation(entries);
      TopWordsAreTheMostFrequent(counted, max);
    }
    AnyOrderKeepsWords(counted, sorted, max);
    keywords := WordsOf(if max < |sorted| then sorted[..max] else sorted);
  }

  /** The keywords of a text, and the words they are taken from. */
  method ExtractKeywords(text: string, max: nat) returns (keywords: seq<string>, ghost words: seq<string>)
    ensures Counted(text, words) && Extracted(keywords, words, max)
  {
    words := CountedWords(text);
    CountedWordsAreCounted(text);
    if Trim(text) == "" {
      BlankHasNoWords(text);
      TopWordsAreTheMostFrequent<string>([], max);
      return [], [];
    }
    if DetectsChinese(text) {
      ChineseWordsAreRead(text, 0);
      var found := Slices(text, ChineseWords(text, 0));
      WithoutNothing(found);
      var order, frequency := CountFrequencies(found, {});
      keywords := MostFrequent(order, frequency, max, found);
    } else {
      EnglishWordsAreRead(Lower(text), 0);
      var found := Slices(Lower(text), EnglishWords(Lower(text), 0));
      var order, frequency := CountFrequencies(found, STOP_WORDS);
      keywords := MostFrequent(order, frequency, max, Without(found, STOP_WORDS));
    }
  }

  ghost predicate Falling<W>(entries: seq<Entry<W>>) {
    forall i, j :: 0 <= i < j < |entries| ==> entries[i].count >= entries[j].count
  }

  lemma {:induction false} InsertAdds<W>(e: Entry<W>, sorted: seq<Entry<W>>)
    ensures multiset(Insert(e, sorted)) == multiset(sorted) + multiset{e}
    ensures |Insert(e, sorted)| == |sorted| + 1
  {
    if sorted != [] && sorted[|sorted| - 1].count < e.count {
      var n := |sorted| - 1;
      InsertAdds(e, sorted[..n]);
      assert sorted == sorted[..n] + [sorted[n]];
    }
  }

  lemma {:induction false} InsertKeepsFalling<W>(e: Entry<W>, sorted: seq<Entry<W>>, least: nat)
    requires Falling(sorted) && e.count >= least
    requires forall i :: 0 <= i < |sorted| ==> sorted[i].count >= least
    ensures Falling(Insert(e, sorted)) && forall i :: 0 <= i < |Insert(e, sorted)| ==> Insert(e, sorted)[i].count >= least
  {
    if sorted != [] && sorted[|sorted| - 1].count < e.count {
      var n := |sorted| - 1;
      InsertKeepsFalling(e, sorted[..n], sorted[n].count);
    }
  }

  lemma {:induction false} SortIsFallingPermutation<W>(entries: seq<Entry<W>>)
    ensures Falling(SortByCount(entries)) && multiset(SortByCount(entries)) == multiset(entries)
  {
    if entries != [] {
      var n := |entries| - 1;
      SortIsFallingPermutation(entries[..n]);
      InsertAdds(entries[n], SortByCount(entries[..n]));
      InsertKeepsFalling(entries[n], SortByCount(entries[..n]), 0);
      assert entries == entries[..n] + [entries[n]];
    }
  }

  /** Equally frequent entries stay in the order in which the record lists them. */
  ghost predicate Stable<W(!new)>(sorted: seq<Entry<W>>, entries: seq<Entry<W>>) {
    forall i, j :: 0 <= i < j < |sorted| && sorted[i].count == sorted[j].count ==> Before(entries, sorted[i], sorted[j])
  }

  /** The new entry stands in front of less frequent ones only. */
  lemma {:induction false} InsertedAt<W>(e: Entry<W>, sorted: seq<Entry<W>>) returns (m: nat)
    ensures m <= |sorted| && Insert(e, sorted) == sorted[..m] + [e] + sorted[m..]
    ensures forall k :: m <= k < |sorted| ==> sorted[k].count < e.count
  {
    m := |sorted|;
    if sorted != [] && sorted[|sorted| - 1].count < e.count {
      m := InsertedAt(e, sorted[..|sorted| - 1]);
    }
  }

  lemma {:induction false} SortIsStable<W(!new)>(entries: seq<Entry<W>>)
    ensures Stable(SortByCount(entries), entries)
  {
    if entries != [] {
      var front, e := entries[..|entries| - 1], entries[|entries| - 1];
      assert entries == front + [e];
      SortIsStable(front);
      SortIsFallingPermutation(front);
      InsertIsStable(e, SortByCount(front), front);
    }
  }

  lemma InsertIsStable<W(!new)>(e: Entry<W>, sorted: seq<Entry<W>>, front: seq<Entry<W>>)
    requires Stable(sorted, front) && multiset(sorted) == multiset(front)
    ensures Stable(Insert(e, sorted), front + [e])
  {
    var m := InsertedAt(e, sorted);
    var r := Insert(e, sorted);
    forall x | x in sorted
      ensures x in front
    {
      assert x in multiset(front);
    }
    forall i, j | 0 <= i < j < |r| && r[i].count == r[j].count
      ensures Before(front + [e], r[i], r[j])
    {
      InsertedPair(e, sorted, front, m, r, i, j);
    }
  }

  lemma InsertedPair<W(!new)>(
    e: Entry<W>, sorted: seq<Entry<W>>, front: seq<Entry<W>>, m: nat, r: seq<Entry<W>>, i: nat, j: nat)
    requires Stable(sorted, front) && forall x :: x in sorted ==> x in front
    requires m <= |sorted| && r == sorted[..m] + [e] + sorted[m..]
    requires forall k :: m <= k < |sorted| ==> sorted[k].count < e.count
    requires i < j < |r| && r[i].count == r[j].count
    ensures Before(front + [e], r[i], r[j])
  {
    if j == m {
      LastIsBehind(front, sorted[i], e);
    } else {
      var x, y := sorted[if i < m then i else i - 1], sorted[if j < m then j else j - 1];
      assert Before(front, x, y);
      BeforeStays(front, e, x, y);
    }
  }

  lemma LastIsBehind<T>(front: seq<T>, x: T, e: T)
    requires x in front
    ensures Before(front + [e], x, e)
  {
    var k :| 0 <= k < |front| && front[k] == x;
    assert (front + [e])[k] == x && (front + [e])[|front|] == e;
  }

  lemma BeforeStays<T>(front: seq<T>, e: T, x: T, y: T)
    requires Before(front, x, y)
    ensures Before(front + [e], x, y)
  {
    var i, j :| 0 <= i < j < |front| && front[i] == x && front[j] == y;
    assert (front + [e])[i] == x && (front + [e])[j] == y;
  }

  /** Of two equally frequent words the one that occurs first stands first. */
  lemma TiesInTextOrder<W(!new)>(words: seq<W>, i: nat, j: nat)
    requires var s := SortByCount(EntriesOf(words)); i < j < |s| && s[i].count == s[j].count
    ensures var s := SortByCount(EntriesOf(words)); OccursFirst(words, s[i].word, s[j].word)
  {
    var s, entries := SortByCount(EntriesOf(words)), EntriesOf(words);
    SortIsStable(entries);
    assert Before(entries, s[i], s[j]);
    var p, q :| 0 <= p < q < |entries| && entries[p] == s[i] && entries[q] == s[j];
    FirstOccurrencesInOrder(words, p, q);
  }

  lemma SameMultisetSameLength<T>(a: seq<T>, b: seq<T>)
    requires multiset(a) == multiset(b)
    ensures |a| == |b|
  {
    assert |multiset(a)| == |a| && |multiset(b)| == |b|;
  }

  lemma EntriesAreWords<W(!new)>(words: seq<W>)
    ensures |EntriesOf(words)| == |FirstOccurrences(words)|
    ensures forall e :: e in EntriesOf(words) <==> e.word in words && e.count == Occurrences(words, e.word)
  {
    var order := FirstOccurrences(words);
    forall e: Entry<W> | e.word in words && e.count == Occurrences(words, e.word)
      ensures e in EntriesOf(words)
    {
      assert e.word in order;
      var i :| 0 <= i < |order| && order[i] == e.word;
      assert EntriesOf(words)[i] == e;
    }
  }

  lemma SortedEntries<W(!new)>(words: seq<W>)
    ensures var s := SortByCount(EntriesOf(words));
            && Falling(s) && |s| == |FirstOccurrences(words)|
            && (forall e :: e in s <==> e.word in words && e.count == Occurrences(words, e.word))
            && NoDuplicates(WordsOf(s))
  {
    SortIsFallingPermutation(EntriesOf(words));
    PermutedEntries(words, SortByCount(EntriesOf(words)));
  }

  /** Whatever order the entries come in, the first max of them are distinct words of the text. */
  lemma AnyOrderKeepsWords(words: seq<string>, s: seq<Entry<string>>, max: nat)
    requires multiset(s) == multiset(EntriesOf(words))
    ensures KeptWords(WordsOf(if max < |s| then s[..max] else s), words, max)
  {
    PermutedEntries(words, s);
    CountOfDistinct(FirstOccurrences(words));
    assert ToSet(FirstOccurrences(words)) == ToSet(words);
    var first := if max < |s| then s[..max] else s;
    forall i | 0 <= i < |first|
      ensures WordsOf(first)[i] == WordsOf(s)[i] && WordsOf(first)[i] in words
    {
      assert s[i] in s;
    }
  }

  lemma PermutedEntries<W(!new)>(words: seq<W>, s: seq<Entry<W>>)
    requires multiset(s) == multiset(EntriesOf(words))
    ensures |s| == |FirstOccurrences(words)|
    ensures forall e :: e in s <==> e.word in words && e.count == Occurrences(words, e.word)
    ensures NoDuplicates(WordsOf(s))
  {
    var entries := EntriesOf(words);
    SameMultisetSameLength(s, entries);
    EntriesAreWords(words);
    forall e
      ensures e in s <==> e in entries
    {
      assert e in s <==> e in multiset(s);
      assert e in entries <==> e in multiset(entries);
    }
    EntriesAreDistinct(words);
    PermutationOfDistinct(s, entries);
    forall i, j | 0 <= i < j < |s|
      ensures s[i].word != s[j].word
    {
      assert s[i] in s && s[j] in s;
    }
  }

  lemma EntriesAreDistinct<W(!new)>(words: seq<W>)
    ensures NoDuplicates(EntriesOf(words))
  {
  }

  lemma PermutationOfDistinct<T>(a: seq<T>, b: seq<T>)
    requires multiset(a) == multiset(b) && NoDuplicates(b)
    ensures NoDuplicates(a)
  {
    forall i, j | 0 <= i < j < |a|
      ensures a[i] != a[j]
    {
      if a[i] == a[j] {
        Twice(a, i, j);
        OnceInDistinct(b, a[i]);
      }
    }
  }

  lemma Twice<T>(a: seq<T>, i: nat, j: nat)
    requires i < j < |a| && a[i] == a[j]
    ensures multiset(a)[a[i]] >= 2
  {
    assert a == a[..j] + [a[j]] + a[j + 1..];
    assert a[..j] == a[..i] + [a[i]] + a[i + 1..j];
    assert a[..j][i] == a[i];
  }

  lemma {:induction false} OnceInDistinct<T>(b: seq<T>, x: T)
    requires NoDuplicates(b)
    ensures multiset(b)[x] <= 1
  {
    if b != [] {
      var n := |b| - 1;
      OnceInDistinct(b[..n], x);
      assert b == b[..n] + [b[n]];
      if b[n] == x {
        assert x !in b[..n];
      }
    }
  }

  /** How a kept word stands in the sorted record. */
  lemma KeptWord<W(!new)>(words: seq<W>, max: nat, i: nat)
    requires i < |TopWords(words, max)|
    ensures var s, k := SortByCount(EntriesOf(words)), TopWords(words, max)[i];
            i < |s| && s[i] == Entry(k, Occurrences(words, k)) && k in words
  {
    var s := SortByCount(EntriesOf(words));
    SortedEntries(words);
    assert s[i] in s;
    assert WordsOf(s)[i] == s[i].word;
  }

  /** More frequent, or as frequent and first in the text. */
  ghost predicate InRank<W(!new)>(words: seq<W>, a: W, b: W) {
    || Occurrences(words, a) > Occurrences(words, b)
    || (Occurrences(words, a) == Occurrences(words, b) && OccursFirst(words, a, b))
  }

  lemma KeptAreInOrder<W(!new)>(words: seq<W>, max: nat, i: nat, j: nat)
    requires i < j < |TopWords(words, max)|
    ensures var kept := TopWords(words, max);
            InRank(words, kept[i], kept[j])
  {
    SortedEntries(words);
    KeptWord(words, max, i);
    KeptWord(words, max, j);
    var s := SortByCount(EntriesOf(words));
    if s[i].count == s[j].count {
      TiesInTextOrder(words, i, j);
    }
  }

  lemma OmittedIsNoMoreFrequent<W(!new)>(words: seq<W>, max: nat, w: W, j: nat)
    requires j < |TopWords(words, max)| && w in words && w !in TopWords(words, max)
    ensures InRank(words, TopWords(words, max)[j], w)
  {
    var s, kept := SortByCount(EntriesOf(words)), TopWords(words, max);
    SortedEntries(words);
    KeptWord(words, max, j);
    var e := Entry(w, Occurrences(words, w));
    assert e in s;
    var i :| 0 <= i < |s| && s[i] == e;
    assert forall h :: 0 <= h < |kept| ==> kept[h] == s[h].word;
    assert i >= |kept|;
    assert s[j].count >= s[i].count;
    if s[j].count == s[i].count {
      TiesInTextOrder(words, j, i);
    }
  }

  lemma KeptAreDistinct<W(!new)>(words: seq<W>, max: nat)
    ensures var kept := TopWords(words, max);
            NoDuplicates(kept) && |kept| == if max < |ToSet(words)| then max else |ToSet(words)|
  {
    var s, kept := SortByCount(EntriesOf(words)), TopWords(words, max);
    SortedEntries(words);
    CountOfDistinct(FirstOccurrences(words));
    assert ToSet(FirstOccurrences(words)) == ToSet(words);
    assert kept == WordsOf(s)[..|kept|];
  }

  /** The max most frequent of the words, each once, in falling order of frequency and, where equal, in text order. */
  ghost predicate MostFrequentOf<W(!new)>(kept: seq<W>, words: seq<W>, max: nat) {
    && |kept| == (if max < |ToSet(words)| then max else |ToSet(words)|)
    && NoDuplicates(kept)
    && (forall w :: w in kept ==> w in words)
    && (forall i, j :: 0 <= i < j < |kept| ==> InRank(words, kept[i], kept[j]))
    && (forall w, k :: w in words && w !in kept && k in kept ==> InRank(words, k, w))
  }

  lemma TopWordsAreTheMostFrequent<W(!new)>(words: seq<W>, max: nat)
    ensures MostFrequentOf(TopWords(words, max), words, max)
  {
    var kept := TopWords(words, max);
    KeptAreDistinct(words, max);
    forall i | 0 <= i < |kept|
      ensures kept[i] in words
    {
      KeptWord(words, max, i);
    }
    forall i, j | 0 <= i < j < |kept|
      ensures InRank(words, kept[i], kept[j])
    {
      KeptAreInOrder(words, max, i, j);
    }
    forall w, k | w in words && w !in kept && k in kept
      ensures InRank(words, k, w)
    {
      var j :| 0 <= j < |kept| && kept[j] == k;
      OmittedIsNoMoreFrequent(words, max, w, j);
    }
  }

  // ---------------------------------------------------------------- similarity

  /** The three sums of the cosine formula: the dot product and the squared magnitudes of the 0/1 vectors. */
  datatype Cosine = Cosine(dot: nat, square1: nat, square2: nat)

  function Indicator<W(==)>(all: seq<W>, words: seq<W>): seq<nat> {
    seq(|all|, i requires 0 <= i < |all| => if all[i] in words then 1 else 0)
  }

  function Dot(a: seq<nat>, b: seq<nat>): nat
    requires |a| == |b|
  {
    if a == [] then 0 else Dot(a[..|a| - 1], b[..|b| - 1]) + a[|a| - 1] * b[|b| - 1]
  }

  function CosineOf<W(==,!new)>(words1: seq<W>, words2: seq<W>): Cosine {
    var all := FirstOccurrences(words1 + words2);
    var v1, v2 := Indicator(all, words1), Indicator(all, words2);
    Cosine(Dot(v1, v2), Dot(v1, v1), Dot(v2, v2))
  }

  /** A missing text has no vector at all. */
  function Similarity<W(==,!new)>(missing: bool, words1: seq<W>, words2: seq<W>): Cosine {
    if missing then Cosine(0, 0, 0) else CosineOf(words1, words2)
  }

  /** The three sums of two texts, with the keywords they are taken over. */
  method CalculateSimilarity(text1: string, text2: string)
    returns (c: Cosine, words1: seq<string>, words2: seq<string>, ghost counted1: seq<string>, ghost counted2: seq<string>)
    ensures c == Similarity(text1 == "" || text2 == "", words1, words2)
    ensures text1 != "" && text2 != "" ==>
              && Counted(text1, counted1) && Extracted(words1, counted1, 50)
              && Counted(text2, counted2) && Extracted(words2, counted2, 50)
  {
    words1, words2, counted1, counted2 := [], [], [], [];
    if text1 == "" || text2 == "" {
      return Cosine(0, 0, 0), [], [], [], [];
    }
    words1, counted1 := ExtractKeywords(text1, 50);
    words2, counted2 := ExtractKeywords(text2, 50);
    c := CosineOf(words1, words2);
  }

  /** The similarity, given the magnitudes. */
  function Quotient(dot: nat, magnitude1: real, magnitude2: real): real {
    if magnitude1 == 0.0 || magnitude2 == 0.0 then 0.0 else dot as real / (magnitude1 * magnitude2)
  }

  /** The non-negative square root. */
  predicate IsRoot(r: real, square: nat) {
    r >= 0.0 && r * r == square as real
  }

  lemma {:induction false} DotCountsCommon<W>(all: seq<W>, a: seq<W>, b: seq<W>)
    requires NoDuplicates(all)
    ensures Dot(Indicator(all, a), Indicator(all, b)) == |ToSet(all) * (ToSet(a) * ToSet(b))|
  {
    var both := ToSet(a) * ToSet(b);
    if all == [] {
      assert ToSet(all) * both == {};
    } else {
      var n := |all| - 1;
      assert all == all[..n] + [all[n]];
      DotCountsCommon(all[..n], a, b);
      DotOfOneMore(all[..n], all[n], a, b);
      OneMoreCommon(all[..n], all[n], both);
    }
  }

  lemma DotOfOneMore<W>(all: seq<W>, x: W, a: seq<W>, b: seq<W>)
    ensures Dot(Indicator(all + [x], a), Indicator(all + [x], b))
         == Dot(Indicator(all, a), Indicator(all, b)) + if x in a && x in b then 1 else 0
  {
    assert Indicator(all + [x], a)[..|all|] == Indicator(all, a);
    assert Indicator(all + [x], b)[..|all|] == Indicator(all, b);
  }

  lemma OneMoreCommon<W>(all: seq<W>, x: W, both: set<W>)
    requires x !in all
    ensures |ToSet(all + [x]) * both| == |ToSet(all) * both| + if x in both then 1 else 0
  {
    var rest := ToSet(all) * both;
    assert ToSet(all + [x]) * both == rest + if x in both then {x} else {};
  }

  /** The sums are the sizes of the common and of the single keyword sets. */
  lemma CosineIsOverlap<W(!new)>(a: seq<W>, b: seq<W>)
    ensures CosineOf(a, b) == Cosine(|ToSet(a) * ToSet(b)|, |ToSet(a)|, |ToSet(b)|)
  {
    var all := FirstOccurrences(a + b);
    DotOverAll(all, a, b);
    DotOverAll(all, a, a);
    DotOverAll(all, b, b);
    assert ToSet(a) * ToSet(a) == ToSet(a) && ToSet(b) * ToSet(b) == ToSet(b);
  }

  lemma DotOverAll<W>(all: seq<W>, a: seq<W>, b: seq<W>)
    requires NoDuplicates(all) && forall w :: w in a || w in b ==> w in all
    ensures Dot(Indicator(all, a), Indicator(all, b)) == |ToSet(a) * ToSet(b)|
  {
    DotCountsCommon(all, a, b);
    assert ToSet(all) * (ToSet(a) * ToSet(b)) == ToSet(a) * ToSet(b);
  }

  /**
   * Whatever the keywords of two texts are, and with exact roots: the similarity is symmetric and between 0 and 1,
   * it is 0 exactly when the texts share no keyword or one is missing, and 1 exactly when their keywords are the
   * same and there are some.
   */
  lemma SimilarityIsACosine<W(!new)>(missing: bool, x: seq<W>, y: seq<W>, m1: real, m2: real)
    requires IsRoot(m1, Similarity(missing, x, y).square1) && IsRoot(m2, Similarity(missing, x, y).square2)
    ensures var a, b := if missing then {} else ToSet(x), if missing then {} else ToSet(y);
            var c, s := Similarity(missing, x, y), Quotient(Similarity(missing, x, y).dot, m1, m2);
            && s == Quotient(Similarity(missing, y, x).dot, m2, m1)
            && c.dot * c.dot <= c.square1 * c.square2
            && 0.0 <= s <= 1.0
            && (s == 0.0 <==> a * b == {})
            && (s == 1.0 <==> a == b && a != {})
  {
    if !missing {
      CosineIsOverlap(x, y);
      CosineIsOverlap(y, x);
      Overlap(ToSet(x), ToSet(y));
      QuotientOfOverlap(|ToSet(x) * ToSet(y)|, |ToSet(x)|, |ToSet(y)|, m1, m2);
    } else {
      RootIsZero(m1, 0);
    }
  }

  lemma Overlap<W>(a: set<W>, b: set<W>)
    ensures a * b == b * a && |a * b| <= |a| && |a * b| <= |b|
    ensures |a * b| == 0 <==> a * b == {}
    ensures |a * b| == |a| == |b| <==> a == b
    ensures |a| == 0 <==> a == {}
  {
    assert a * b == b * a;
    SubsetSize(a * b, a);
    SubsetSize(a * b, b);
    assert a == b ==> a * b == a;
    assert |a * b| == |a| == |b| ==> a * b == a && a * b == b;
  }

  lemma QuotientOfOverlap(d: nat, m: nat, n: nat, m1: real, m2: real)
    requires d <= m && d <= n && IsRoot(m1, m) && IsRoot(m2, n)
    ensures d * d <= m * n
    ensures var s := Quotient(d, m1, m2);
            && s == Quotient(d, m2, m1) && 0.0 <= s <= 1.0
            && (s == 0.0 <==> d == 0) && (s == 1.0 <==> d == m == n && d > 0)
  {
    ProductsCompare(d, m, n);
    RootIsZero(m1, m);
    RootIsZero(m2, n);
    if m > 0 && n > 0 {
      RootsMultiply(m1, m, m2, n);
      RealsCompare(d as real, m1 * m2);
      assert (d as real) * (d as real) == (d * d) as real;
      QuotientCompare(d as real, m1 * m2);
    }
  }

  lemma RootIsZero(r: real, square: nat)
    requires IsRoot(r, square)
    ensures r == 0.0 <==> square == 0
  {
    if r > 0.0 {
      PositiveProduct(r, r, square as real);
    }
  }

  lemma PositiveProduct(p: real, q: real, product: real)
    requires p > 0.0 && q > 0.0 && product == p * q
    ensures product > 0.0
  {
  }

  lemma RootsMultiply(m1: real, m: nat, m2: real, n: nat)
    requires IsRoot(m1, m) && IsRoot(m2, n) && m > 0 && n > 0
    ensures m1 > 0.0 && m2 > 0.0 && m1 * m2 > 0.0 && m1 * m2 == m2 * m1
    ensures (m1 * m2) * (m1 * m2) == (m * n) as real
  {
    RootIsZero(m1, m);
    RootIsZero(m2, n);
    assert (m1 * m2) * (m1 * m2) == (m1 * m1) * (m2 * m2);
    assert (m as real) * (n as real) == (m * n) as real;
  }

  lemma RealsCompare(p: real, q: real)
    requires p >= 0.0 && q > 0.0
    ensures p * p <= q * q ==> p <= q
    ensures p * p == q * q ==> p == q
  {
    assert q * q - p * p == (q - p) * (q + p);
    if p < q {
      PositiveProduct(q - p, q + p, q * q - p * p);
    } else if p > q {
      PositiveProduct(p - q, p + q, p * p - q * q);
    }
  }

  lemma ProductsCompare(d: nat, m: nat, n: nat)
    requires d <= m && d <= n
    ensures d * d <= m * n && m * n == n * m
    ensures d * d == 0 <==> d == 0
    ensures m > 0 && n > 0 ==> m * n > 0 && (d * d == m * n <==> d == m == n)
  {
    assert d * d <= d * n <= m * n;
    if m > 0 && n > 0 {
      assert m * n > 0;
      if d < m {
        assert d * n < m * n;
      }
      if d < n && d == m {
        assert d * d < d * n;
      }
    }
  }

  lemma QuotientCompare(p: real, q: real)
    requires q > 0.0 && 0.0 <= p <= q
    ensures 0.0 <= p / q <= 1.0 && (p / q == 0.0 <==> p == 0.0) && (p / q == 1.0 <==> p == q)
  {
    assert (p / q) * q == p;
  }
}
