/** The transcript printer of transcript-formatter.service.ts and the split of transcript.service.ts. */
module Transcript {
  import opened Common
  import opened Whitespace
  import Decimal

  datatype Sentence = Sentence(startTime: nat, words: seq<string>)
  datatype Paragraph = Paragraph(username: Option<string>, sentences: seq<Sentence>)

  const UNKNOWN_SPEAKER := "\U{672A}\U{77E5}\U{53D1}\U{8A00}\U{4EBA}"
  const COLON := '\U{FF1A}'

  function SpeakerName(p: Paragraph): (s: string)
    ensures s != ""
  {
    if p.username.Some? && p.username.value != "" then p.username.value else UNKNOWN_SPEAKER
  }

  function Pad2(s: string): string
    decreases 2 - |s|
  {
    if |s| < 2 then Pad2("0" + s) else s
  }

  function FormatTimestamp(ms: nat): string {
    Pad2(Decimal.Natural(ms / 3600000)) + ":" + Pad2(Decimal.Natural(ms % 3600000 / 60000)) + ":"
    + Pad2(Decimal.Natural(ms % 60000 / 1000))
  }

  function Concat(parts: seq<string>): string {
    if parts == [] then "" else Concat(parts[..|parts| - 1]) + parts[|parts| - 1]
  }

  function SentenceTexts(sentences: seq<Sentence>): seq<string> {
    seq(|sentences|, i requires 0 <= i < |sentences| => Concat(sentences[i].words))
  }

  function ParagraphText(p: Paragraph): string {
    Trim(Concat(SentenceTexts(p.sentences)))
  }

  function PrintLine(speaker: string, startTime: nat, text: string): string {
    speaker + "(" + FormatTimestamp(startTime) + ")" + [COLON] + text
  }

  function LineOf(p: Paragraph): string
    requires p.sentences != []
  {
    PrintLine(SpeakerName(p), p.sentences[0].startTime, ParagraphText(p))
  }

  /** One line per paragraph that has a sentence, even when its text is empty. */
  function Lines(ps: seq<Paragraph>): seq<string> {
    if ps == [] then []
    else
      var n := |ps| - 1;
      Lines(ps[..n]) + if ps[n].sentences == [] then [] else [LineOf(ps[n])]
  }

  function Join(lines: seq<string>): string {
    if lines == [] then ""
    else if |lines| == 1 then lines[0]
    else lines[0] + "\n\n" + Join(lines[1..])
  }

  class TranscriptFormatterService {
    constructor () {
    }

    /** None: the response carries no paragraphs. */
    method FormatTranscript(paragraphs: Option<seq<Paragraph>>) returns (r: string)
      ensures r == if paragraphs.Some? then Join(Lines(paragraphs.value)) else ""
    {
      if paragraphs.None? {
        return "";
      }
      var formattedLines: seq<string> := [];
      var ps := paragraphs.value;
      for i := 0 to |ps|
        invariant formattedLines == Lines(ps[..i])
      {
        assert ps[..i + 1][..i] == ps[..i];
        if ps[i].sentences != [] {
          var timeString := FormatTimestamp(ps[i].sentences[0].startTime);
          var text := ParagraphText(ps[i]);
          formattedLines := formattedLines + [SpeakerName(ps[i]) + "(" + timeString + ")" + [COLON] + text];
        }
      }
      assert ps[..|ps|] == ps;
      return Join(formattedLines);
    }
  }

  class TranscriptService {
    constructor () {
    }

    method ExtractUniqueUsernames(paragraphs: Option<seq<Paragraph>>) returns (names: seq<string>)
      ensures NoDuplicates(names)
      ensures names == if paragraphs.Some? then FirstOccurrences(Speakers(paragraphs.value)) else []
    {
      names := [];
      if paragraphs.None? {
        return;
      }
      var ps := paragraphs.value;
      for i := 0 to |ps|
        invariant names == FirstOccurrences(Speakers(ps[..i]))
      {
        assert Speakers(ps[..i + 1])[..i] == Speakers(ps[..i]);
        if SpeakerName(ps[i]) !in names {
          names := names + [SpeakerName(ps[i])];
        }
      }
      assert ps[..|ps|] == ps;
    }
  }

  function Speakers(ps: seq<Paragraph>): seq<string> {
    seq(|ps|, i requires 0 <= i < |ps| => SpeakerName(ps[i]))
  }

  // ---------------------------------------------------------------- splitting on blank lines

  /** Position of the first blank-line break, or the length. */
  function FindBreak(s: string): (i: nat)
    ensures i <= |s|
    ensures i < |s| ==> i + 1 < |s| && s[i] == '\n' && s[i + 1] == '\n'
    ensures forall k :: 0 <= k < i && k + 1 < |s| ==> !(s[k] == '\n' && s[k + 1] == '\n')
  {
    if |s| < 2 then |s|
    else if s[0] == '\n' && s[1] == '\n' then 0
    else 1 + FindBreak(s[1..])
  }

  predicate HasBreak(s: string) {
    exists k :: 0 <= k < |s| - 1 && s[k] == '\n' && s[k + 1] == '\n'
  }

  /** split('\n\n'): cuts at each leftmost break. */
  function Split(s: string): seq<string>
    decreases |s|
  {
    var i := FindBreak(s);
    if i == |s| then [s] else [s[..i]] + Split(s[i + 2..])
  }

  /** What the transcript service logs as the number of lines. */
  function LineCount(formatted: string): nat {
    if formatted == "" then 0 else |Split(formatted)|
  }

  lemma BreakAfter(l: string, rest: string)
    requires !HasBreak(l) && (l == "" || l[|l| - 1] != '\n')
    ensures FindBreak(l + "\n\n" + rest) == |l|
  {
    var s := l + "\n\n" + rest;
    assert s[|l|] == '\n' && s[|l| + 1] == '\n';
    forall k | 0 <= k < |l|
      ensures !(s[k] == '\n' && s[k + 1] == '\n')
    {
      assert s[k] == l[k];
      assert k + 1 < |l| ==> s[k + 1] == l[k + 1];
    }
  }

  lemma {:induction false} SplitJoin(lines: seq<string>)
    requires lines != []
    requires forall l :: l in lines ==> !HasBreak(l) && (l == "" || l[|l| - 1] != '\n')
    ensures Split(Join(lines)) == lines
  {
    if |lines| == 1 {
      assert lines[0] in lines && FindBreak(lines[0]) == |lines[0]|;
    } else {
      assert lines[0] in lines;
      BreakAfter(lines[0], Join(lines[1..]));
      SplitJoin(lines[1..]);
      var s := Join(lines);
      assert s == lines[0] + "\n\n" + Join(lines[1..]);
      assert s[..|lines[0]|] == lines[0] && s[|lines[0]| + 2..] == Join(lines[1..]);
    }
  }

  lemma {:induction false} PartsHaveNoBreak(s: string)
    ensures forall l :: l in Split(s) ==> !HasBreak(l)
    decreases |s|
  {
    var i := FindBreak(s);
    if i < |s| {
      PartsHaveNoBreak(s[i + 2..]);
      assert !HasBreak(s[..i]);
    }
  }

  // ---------------------------------------------------------------- what splitting the printed transcript gives

  lemma TimestampIsClean(ms: nat)
    ensures forall i :: 0 <= i < |FormatTimestamp(ms)| ==>
              Decimal.IsDigit(FormatTimestamp(ms)[i]) || FormatTimestamp(ms)[i] == ':'
  {
    PadIsDigits(ms / 3600000);
    PadIsDigits(ms % 3600000 / 60000);
    PadIsDigits(ms % 60000 / 1000);
  }

  lemma PadIsDigits(n: nat)
    ensures forall i :: 0 <= i < |Pad2(Decimal.Natural(n))| ==> Decimal.IsDigit(Pad2(Decimal.Natural(n))[i])
  {
    if |Decimal.Natural(n)| < 2 {
      assert Pad2(Decimal.Natural(n)) == "0" + Decimal.Natural(n);
    }
  }

  /** The name, something without a newline, and the text. */
  ghost predicate LaidOut(l: string, speaker: string, text: string, b: nat) {
    && |speaker| < b && |l| == b + |text|
    && (forall k :: 0 <= k < |speaker| ==> l[k] == speaker[k])
    && (forall k :: |speaker| <= k < b ==> l[k] != '\n')
    && (forall k :: 0 <= k < |text| ==> l[b + k] == text[k])
  }

  lemma LineIsLaidOut(speaker: string, ms: nat, text: string)
    ensures LaidOut(PrintLine(speaker, ms, text), speaker, text, |speaker| + |FormatTimestamp(ms)| + 3)
  {
    var l, time := PrintLine(speaker, ms, text), FormatTimestamp(ms);
    TimestampIsClean(ms);
    assert l == speaker + "(" + time + ")" + [COLON] + text;
    forall k | |speaker| < k <= |speaker| + |time|
      ensures l[k] != '\n'
    {
      assert l[k] == time[k - |speaker| - 1];
    }
  }

  lemma BreaksOfLayout(l: string, speaker: string, text: string, b: nat)
    requires LaidOut(l, speaker, text, b)
    ensures HasBreak(l) <==> HasBreak(speaker) || HasBreak(text)
  {
    if HasBreak(speaker) {
      var k :| 0 <= k < |speaker| - 1 && speaker[k] == '\n' && speaker[k + 1] == '\n';
      assert l[k] == '\n' && l[k + 1] == '\n';
    }
    if HasBreak(text) {
      var k :| 0 <= k < |text| - 1 && text[k] == '\n' && text[k + 1] == '\n';
      assert l[b + k] == '\n' && l[b + (k + 1)] == '\n';
    }
    if HasBreak(l) {
      var k :| 0 <= k < |l| - 1 && l[k] == '\n' && l[k + 1] == '\n';
      if k < |speaker| {
        assert speaker[k] == '\n' && k + 1 < |speaker| && speaker[k + 1] == '\n';
      } else {
        assert l[b + (k - b)] == text[k - b] && l[b + (k + 1 - b)] == text[k + 1 - b];
      }
    }
  }

  /** A printed line has a break exactly when the name or the text has one, and it never ends in a newline. */
  lemma BreaksOfLine(speaker: string, ms: nat, text: string)
    requires text == "" || (!IsSpace(text[0]) && !IsSpace(text[|text| - 1]))
    ensures HasBreak(PrintLine(speaker, ms, text)) <==> HasBreak(speaker) || HasBreak(text)
    ensures var l := PrintLine(speaker, ms, text); l != "" && l[|l| - 1] != '\n'
  {
    var l, b := PrintLine(speaker, ms, text), |speaker| + |FormatTimestamp(ms)| + 3;
    LineIsLaidOut(speaker, ms, text);
    BreaksOfLayout(l, speaker, text, b);
    assert text != "" ==> l[b + (|text| - 1)] == text[|text| - 1];
  }

  predicate Breakable(p: Paragraph) {
    p.sentences != [] && (HasBreak(SpeakerName(p)) || HasBreak(ParagraphText(p)))
  }

  lemma {:induction false} LineHasParagraph(ps: seq<Paragraph>, l: string) returns (p: Paragraph)
    requires l in Lines(ps)
    ensures p in ps && p.sentences != [] && LineOf(p) == l
  {
    var n := |ps| - 1;
    if l in Lines(ps[..n]) {
      p := LineHasParagraph(ps[..n], l);
    } else {
      p := ps[n];
    }
  }

  lemma {:induction false} ParagraphHasLine(ps: seq<Paragraph>, p: Paragraph)
    requires p in ps && p.sentences != []
    ensures LineOf(p) in Lines(ps)
  {
    var n := |ps| - 1;
    if p in ps[..n] {
      ParagraphHasLine(ps[..n], p);
    } else {
      assert ps == ps[..n] + [ps[n]] && p == ps[n];
    }
  }

  lemma BreaksOfLines(ps: seq<Paragraph>)
    ensures forall l :: l in Lines(ps) ==> l != "" && l[|l| - 1] != '\n'
    ensures (forall l :: l in Lines(ps) ==> !HasBreak(l)) <==> forall p :: p in ps ==> !Breakable(p)
  {
    forall l | l in Lines(ps)
      ensures l != "" && l[|l| - 1] != '\n'
      ensures HasBreak(l) ==> exists p :: p in ps && Breakable(p)
    {
      var p := LineHasParagraph(ps, l);
      BreaksOfLine(SpeakerName(p), p.sentences[0].startTime, ParagraphText(p));
      assert HasBreak(l) ==> Breakable(p);
    }
    forall p | p in ps && Breakable(p)
      ensures exists l :: l in Lines(ps) && HasBreak(l)
    {
      ParagraphHasLine(ps, p);
      BreaksOfLine(SpeakerName(p), p.sentences[0].startTime, ParagraphText(p));
      assert HasBreak(LineOf(p));
    }
  }

  /** Splitting the printed transcript gives back the printed lines exactly when no name and no text has a break. */
  lemma SplitGivesLinesBack(ps: seq<Paragraph>)
    requires Lines(ps) != []
    ensures Split(Join(Lines(ps))) == Lines(ps) <==> forall p :: p in ps ==> !Breakable(p)
  {
    BreaksOfLines(ps);
    if forall p :: p in ps ==> !Breakable(p) {
      SplitJoin(Lines(ps));
    } else {
      PartsHaveNoBreak(Join(Lines(ps)));
    }
  }

  function Spoken(ps: seq<Paragraph>): nat {
    if ps == [] then 0 else Spoken(ps[..|ps| - 1]) + if ps[|ps| - 1].sentences == [] then 0 else 1
  }

  lemma {:induction false} OneLinePerSpokenParagraph(ps: seq<Paragraph>)
    ensures |Lines(ps)| == Spoken(ps)
  {
    if ps != [] {
      OneLinePerSpokenParagraph(ps[..|ps| - 1]);
    }
  }

  /** The logged line count is then the number of paragraphs that have a sentence. */
  lemma LineCountIsSpoken(ps: seq<Paragraph>)
    requires forall p :: p in ps ==> !Breakable(p)
    ensures LineCount(Join(Lines(ps))) == Spoken(ps)
  {
    OneLinePerSpokenParagraph(ps);
    BreaksOfLines(ps);
    if Lines(ps) != [] {
      SplitGivesLinesBack(ps);
      assert Lines(ps)[0] in Lines(ps);
      assert Join(Lines(ps)) != "";
    }
  }

  // ---------------------------------------------------------------- reading a line back

  /** Position of the first c, or the length. */
  function IndexOf(s: string, c: char): (i: nat)
    ensures i <= |s| && (i < |s| ==> s[i] == c) && forall k :: 0 <= k < i ==> s[k] != c
  {
    if s == [] || s[0] == c then 0 else 1 + IndexOf(s[1..], c)
  }

  lemma IndexAfter(a: string, c: char, rest: string)
    requires c !in a
    ensures IndexOf(a + [c] + rest, c) == |a|
    ensures (a + [c] + rest)[..|a|] == a && (a + [c] + rest)[|a| + 1..] == rest
  {
    var s := a + [c] + rest;
    assert s[|a|] == c;
    assert forall k :: 0 <= k < |a| ==> s[k] == a[k] && a[k] in a;
  }

  /** Splits at the first c. */
  function Cut(s: string, c: char): (string, string) {
    var i := IndexOf(s, c);
    (s[..i], if i < |s| then s[i + 1..] else "")
  }

  function NumberOr0(s: string): nat {
    if forall i :: 0 <= i < |s| ==> Decimal.IsDigit(s[i]) then Decimal.Value(s) else 0
  }

  function SecondsOf(time: string): nat {
    var (h, rest) := Cut(time, ':');
    var (m, sec) := Cut(rest, ':');
    NumberOr0(h) * 3600 + NumberOr0(m) * 60 + NumberOr0(sec)
  }

  datatype Parsed = Parsed(speaker: string, seconds: nat, text: string)

  /** Name up to the first '(', time up to the next ')', then a colon and the text. */
  function ParseLine(line: string): Parsed {
    var (speaker, rest) := Cut(line, '(');
    var (time, tail) := Cut(rest, ')');
    Parsed(speaker, SecondsOf(time), if tail == "" then "" else tail[1..])
  }

  lemma ValueOfPadded(n: nat)
    ensures NumberOr0(Pad2(Decimal.Natural(n))) == n
  {
    var s := Decimal.Natural(n);
    Decimal.ValueOfNatural(n);
    PadIsDigits(n);
    if |s| < 2 {
      var t := "0" + s;
      assert Pad2(s) == t;
      assert t[..1] == "0" && "0"[..0] == "" && s[..0] == "" && t[1] == s[0];
      assert Decimal.Value("0") == Decimal.Value("") * 10 + 0;
      assert Decimal.Value(t) == Decimal.Value("0") * 10 + Decimal.DigitValue(s[0]);
    }
  }

  lemma CutAfter(s: string, a: string, c: char, rest: string)
    requires c !in a && s == a + [c] + rest
    ensures Cut(s, c) == (a, rest)
  {
    IndexAfter(a, c, rest);
  }

  lemma Regroup(a: string, b: string, c: string, d: string, e: string)
    ensures a + b + c + d + e == a + b + (c + d + e)
  {
  }

  lemma SecondsOfParts(a: string, b: string, c: string)
    requires ':' !in a && ':' !in b
    ensures SecondsOf(a + ":" + b + ":" + c) == NumberOr0(a) * 3600 + NumberOr0(b) * 60 + NumberOr0(c)
  {
    Regroup(a, ":", b, ":", c);
    CutAfter(a + ":" + b + ":" + c, a, ':', b + ":" + c);
    CutAfter(b + ":" + c, b, ':', c);
  }

  lemma PartsOfSeconds(ms: nat)
    ensures ms / 1000 == ms / 3600000 * 3600 + ms % 3600000 / 60000 * 60 + ms % 60000 / 1000
  {
    assert ms % 60000 == ms % 3600000 % 60000;
  }

  lemma SecondsOfTimestamp(ms: nat)
    ensures SecondsOf(FormatTimestamp(ms)) == ms / 1000
  {
    PadIsDigits(ms / 3600000);
    PadIsDigits(ms % 3600000 / 60000);
    ValueOfPadded(ms / 3600000);
    ValueOfPadded(ms % 3600000 / 60000);
    ValueOfPadded(ms % 60000 / 1000);
    SecondsOfParts(Pad2(Decimal.Natural(ms / 3600000)), Pad2(Decimal.Natural(ms % 3600000 / 60000)),
                   Pad2(Decimal.Natural(ms % 60000 / 1000)));
    PartsOfSeconds(ms);
  }

  /** A line reads back to its speaker, the whole seconds of its start and its text, if the name has no '('. */
  lemma LineReadsBack(speaker: string, ms: nat, text: string)
    requires '(' !in speaker
    ensures ParseLine(PrintLine(speaker, ms, text)) == Parsed(speaker, ms / 1000, text)
  {
    var time := FormatTimestamp(ms);
    TimestampIsClean(ms);
    IndexAfter(speaker, '(', time + ")" + [COLON] + text);
    assert PrintLine(speaker, ms, text) == speaker + ['('] + (time + ")" + [COLON] + text);
    assert ')' !in time;
    IndexAfter(time, ')', [COLON] + text);
    assert time + ")" + [COLON] + text == time + [')'] + ([COLON] + text);
    SecondsOfTimestamp(ms);
  }

  /** The printed time is hours, minutes and seconds, the latter two with two digits and below sixty. */
  lemma TimestampShape(ms: nat) returns (h: string, m: string, s: string)
    ensures FormatTimestamp(ms) == h + ":" + m + ":" + s && |h| >= 2 && |m| == |s| == 2
    ensures NumberOr0(h) == ms / 3600000 && NumberOr0(m) < 60 && NumberOr0(s) < 60
    ensures NumberOr0(h) * 3600 + NumberOr0(m) * 60 + NumberOr0(s) == ms / 1000
  {
    h, m := Pad2(Decimal.Natural(ms / 3600000)), Pad2(Decimal.Natural(ms % 3600000 / 60000));
    s := Pad2(Decimal.Natural(ms % 60000 / 1000));
    ValueOfPadded(ms / 3600000);
    ValueOfPadded(ms % 3600000 / 60000);
    ValueOfPadded(ms % 60000 / 1000);
    PadWidth(ms / 3600000);
    PadWidth(ms % 3600000 / 60000);
    PadWidth(ms % 60000 / 1000);
    PartsOfSeconds(ms);
  }

  lemma PadWidth(n: nat)
    ensures |Pad2(Decimal.Natural(n))| >= 2 && (n < 100 ==> |Pad2(Decimal.Natural(n))| == 2)
  {
    var s := Decimal.Natural(n);
    if |s| < 2 {
      assert Pad2(s) == "0" + s;
    }
    assert n < 100 ==> n / 10 < 10;
  }

  /** All words of a paragraph, sentence after sentence. */
  function WordsOf(sentences: seq<Sentence>): seq<string> {
    if sentences == [] then [] else WordsOf(sentences[..|sentences| - 1]) + sentences[|sentences| - 1].words
  }

  lemma {:induction false} ConcatTwo(a: seq<string>, b: seq<string>)
    ensures Concat(a + b) == Concat(a) + Concat(b)
  {
    if b == [] {
      assert a + b == a;
    } else {
      var n := |b| - 1;
      ConcatTwo(a, b[..n]);
      assert (a + b)[..|a + b| - 1] == a + b[..n] && (a + b)[|a + b| - 1] == b[n];
    }
  }

  /** Where one sentence ends and the next one begins makes no difference to the text. */
  lemma {:induction false} SentencesAreWords(sentences: seq<Sentence>)
    ensures Concat(SentenceTexts(sentences)) == Concat(WordsOf(sentences))
  {
    if sentences != [] {
      var n := |sentences| - 1;
      SentencesAreWords(sentences[..n]);
      ConcatTwo(WordsOf(sentences[..n]), sentences[n].words);
      assert SentenceTexts(sentences)[..n] == SentenceTexts(sentences[..n]);
    }
  }

  ghost predicate StrippedAt(t: string, s: string, p: char -> bool, lo: nat, hi: nat) {
    && lo <= hi <= |s| && t == s[lo..hi]
    && (forall i :: 0 <= i < lo ==> p(s[i])) && (forall i :: hi <= i < |s| ==> p(s[i]))
    && (lo < hi ==> !p(s[lo]) && !p(s[hi - 1]))
  }

  /** s without the white space at its ends, and nothing else changed. */
  ghost predicate Stripped(t: string, s: string) {
    exists lo, hi :: StrippedAt(t, s, IsSpace, lo, hi)
  }

  lemma BothEnds(s: string, t: string, r: string, p: char -> bool)
    requires |t| <= |s| && t == s[|s| - |t|..] && forall i :: 0 <= i < |s| - |t| ==> p(s[i])
    requires |r| <= |t| && r == t[..|r|] && forall i :: |r| <= i < |t| ==> p(t[i])
    requires r == [] || (!p(r[0]) && !p(r[|r| - 1]))
    ensures StrippedAt(r, s, p, |s| - |t|, |s| - |t| + |r|)
  {
    var lo := |s| - |t|;
    forall i | lo + |r| <= i < |s|
      ensures p(s[i])
    {
      assert s[i] == t[i - lo];
    }
  }

  lemma TrimStrips(s: string)
    ensures Stripped(Trim(s), s)
  {
    BothEnds(s, TrimStart(s), Trim(s), IsSpace);
  }

  lemma TextIsStripped(p: Paragraph)
    ensures Stripped(ParagraphText(p), Concat(WordsOf(p.sentences)))
  {
    SentencesAreWords(p.sentences);
    TrimStrips(Concat(WordsOf(p.sentences)));
  }

  lemma NameIsGivenOrFixed(p: Paragraph)
    requires p.username.Some? ==> '(' !in p.username.value
    ensures SpeakerName(p) == if p.username.None? || p.username.value == "" then UNKNOWN_SPEAKER else p.username.value
    ensures '(' !in SpeakerName(p)
  {
  }

  /** A printed line reads back as the name, or the fixed one, the first sentence's second and all words, stripped. */
  lemma PrintedParagraph(p: Paragraph)
    requires p.sentences != [] && (p.username.Some? ==> '(' !in p.username.value)
    ensures var r := ParseLine(LineOf(p));
            && r.speaker == (if p.username.None? || p.username.value == "" then UNKNOWN_SPEAKER else p.username.value)
            && r.seconds == p.sentences[0].startTime / 1000
            && Stripped(r.text, Concat(WordsOf(p.sentences)))
  {
    NameIsGivenOrFixed(p);
    ParagraphReadsBack(p);
    TextIsStripped(p);
  }

  /** What the paragraphs say, as a reader of the printed text can recover it. */
  function Said(ps: seq<Paragraph>): seq<Parsed> {
    if ps == [] then []
    else
      var n := |ps| - 1;
      Said(ps[..n]) + if ps[n].sentences == [] then []
                      else [Parsed(SpeakerName(ps[n]), ps[n].sentences[0].startTime / 1000, ParagraphText(ps[n]))]
  }

  function ParseAll(lines: seq<string>): seq<Parsed> {
    seq(|lines|, i requires 0 <= i < |lines| => ParseLine(lines[i]))
  }

  lemma ParseAllAppend(lines: seq<string>, l: string)
    ensures ParseAll(lines + [l]) == ParseAll(lines) + [ParseLine(l)]
  {
  }

  lemma ParagraphReadsBack(p: Paragraph)
    requires p.sentences != [] && '(' !in SpeakerName(p)
    ensures ParseLine(LineOf(p)) == Parsed(SpeakerName(p), p.sentences[0].startTime / 1000, ParagraphText(p))
  {
    LineReadsBack(SpeakerName(p), p.sentences[0].startTime, ParagraphText(p));
  }

  lemma {:induction false} LinesReadBack(ps: seq<Paragraph>)
    requires forall p :: p in ps ==> '(' !in SpeakerName(p)
    ensures ParseAll(Lines(ps)) == Said(ps)
  {
    if ps != [] {
      var n := |ps| - 1;
      assert ps == ps[..n] + [ps[n]];
      LinesReadBack(ps[..n]);
      if ps[n].sentences != [] {
        ParagraphReadsBack(ps[n]);
        ParseAllAppend(Lines(ps[..n]), LineOf(ps[n]));
      } else {
        assert Lines(ps[..n]) + [] == Lines(ps[..n]) && Said(ps[..n]) + [] == Said(ps[..n]);
      }
    }
  }

  /** Printing, splitting and reading the lines recovers what was said. */
  lemma TranscriptRoundTrip(ps: seq<Paragraph>)
    requires Lines(ps) != []
    requires forall p :: p in ps ==> '(' !in SpeakerName(p) && !Breakable(p)
    ensures ParseAll(Split(Join(Lines(ps)))) == Said(ps) && |Said(ps)| == Spoken(ps)
  {
    SplitGivesLinesBack(ps);
    LinesReadBack(ps);
    OneLinePerSpokenParagraph(ps);
  }
}
