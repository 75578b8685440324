/** Whose names a meeting's list holds, over every run, also when only some of its events carry a sub meeting id. */
module ParticipantLists {
  import opened Bitable
  import opened Case
  import opened Common
  import opened Participants
  import opened ParticipantSteps
  import opened ParticipantRuns

  predicate SameId(a: string, b: string) {
    Lower(a) == Lower(b)
  }

  /**
   * The sub meeting id of the first step that writes the meeting, "" when that step carries none.
   * From then on a plain meeting id stands for that sub meeting.
   */
  function FirstSub(w: World, steps: seq<Step>, meetingId: string): Option<string> {
    if steps == [] then None
    else
      var front, last := steps[..|steps| - 1], steps[|steps| - 1];
      Joined(FirstSub(w, front, meetingId), SentBy(Run(w, front), last), meetingId)
  }

  function Joined(first: Option<string>, sent: Option<MeetingData>, meetingId: string): Option<string> {
    if first.None? && sent.Some? && SameId(sent.value.meetingId, meetingId) then Some(sent.value.subMeetingId) else first
  }

  function Meant(first: string, subMeetingId: string): string {
    if subMeetingId == "" then first else subMeetingId
  }

  /** Once the first step is known: both ids mean the same sub meeting, or both mean the meeting itself. */
  predicate SameRow(first: Option<string>, a: string, b: string) {
    first.Some? && SameId(Meant(first.value, a), Meant(first.value, b))
  }

  function Hit(s: Store, meetingId: string, subMeetingId: string): Option<nat> {
    FirstMatch(s.records, SearchFilter(meetingId, subMeetingId))
  }

  /** The meeting has a row exactly when some step has written it, and its first row carries that step's sub meeting id. */
  ghost predicate FirstFits(s: Store, meetingId: string, first: Option<string>) {
    match (Hit(s, meetingId, ""), first)
    case (None, None) => true
    case (Some(h), Some(f)) =>
      if f != "" then Carries(s.records[h].fields, "sub_meeting_id", f) else "sub_meeting_id" !in s.records[h].fields
    case _ => false
  }

  // ---------------------------------------------------------------- searches

  lemma SameIdSameMatches(stored: Fields, a: string, b: string, subMeetingId: string)
    requires SameId(a, b)
    ensures Matches(stored, SearchFilter(a, subMeetingId)) <==> Matches(stored, SearchFilter(b, subMeetingId))
  {
    MatchesIs(stored, a, subMeetingId);
    MatchesIs(stored, b, subMeetingId);
  }

  lemma SameIdSameHit(s: Store, a: string, b: string, subMeetingId: string)
    requires SameId(a, b)
    ensures Hit(s, a, subMeetingId) == Hit(s, b, subMeetingId)
  {
    forall j | 0 <= j < |s.records|
      ensures Matches(s.records[j].fields, SearchFilter(a, subMeetingId))
         <==> Matches(s.records[j].fields, SearchFilter(b, subMeetingId))
    {
      SameIdSameMatches(s.records[j].fields, a, b, subMeetingId);
    }
    if Hit(s, a, subMeetingId).Some? {
      FirstMatchIs(s.records, SearchFilter(b, subMeetingId), Hit(s, a, subMeetingId).value);
    }
  }

  /** A search without a sub meeting id stops at the first row of the meeting, one with it no earlier. */
  lemma SubMatchesPlain(stored: Fields, meetingId: string, subMeetingId: string)
    ensures Matches(stored, SearchFilter(meetingId, subMeetingId)) ==> Matches(stored, SearchFilter(meetingId, ""))
    ensures Matches(stored, SearchFilter(meetingId, "")) ==>
              (Matches(stored, SearchFilter(meetingId, subMeetingId))
               <==> subMeetingId == "" || Carries(stored, "sub_meeting_id", subMeetingId))
  {
    MatchesIs(stored, meetingId, subMeetingId);
    MatchesIs(stored, meetingId, "");
  }

  /** The plain search and the search for a sub meeting meet exactly when the first step carried that sub meeting's id. */
  lemma PlainMeetsSub(s: Store, meetingId: string, first: Option<string>, subMeetingId: string)
    requires FirstFits(s, meetingId, first) && subMeetingId != ""
    ensures Hit(s, meetingId, "").Some? && Hit(s, meetingId, subMeetingId) == Hit(s, meetingId, "")
       <==> first.Some? && first.value != "" && SameId(first.value, subMeetingId)
  {
    var plain := Hit(s, meetingId, "");
    if plain.Some? {
      var h := plain.value;
      forall j | 0 <= j <= h
        ensures Matches(s.records[j].fields, SearchFilter(meetingId, subMeetingId)) ==> j == h
      {
        SubMatchesPlain(s.records[j].fields, meetingId, subMeetingId);
      }
      SubMatchesPlain(s.records[h].fields, meetingId, subMeetingId);
      if Carries(s.records[h].fields, "sub_meeting_id", subMeetingId) {
        FirstMatchIs(s.records, SearchFilter(meetingId, subMeetingId), h);
      }
    }
  }

  /** Different sub meeting ids never meet. */
  lemma SubsDoNotMeet(s: Store, meetingId: string, a: string, b: string)
    requires a != "" && b != "" && Hit(s, meetingId, a).Some?
    ensures SameId(a, b) <==> Hit(s, meetingId, a) == Hit(s, meetingId, b)
  {
    if SameId(a, b) {
      forall j | 0 <= j < |s.records|
        ensures Matches(s.records[j].fields, SearchFilter(meetingId, a))
           <==> Matches(s.records[j].fields, SearchFilter(meetingId, b))
      {
        MatchesIs(s.records[j].fields, meetingId, a);
        MatchesIs(s.records[j].fields, meetingId, b);
      }
      FirstMatchIs(s.records, SearchFilter(meetingId, b), Hit(s, meetingId, a).value);
    } else {
      var h := Hit(s, meetingId, a).value;
      MatchesIs(s.records[h].fields, meetingId, a);
      MatchesIs(s.records[h].fields, meetingId, b);
    }
  }

  /** Two searches of one meeting stop at the same row exactly when they mean the same sub meeting. */
  lemma HitsMeetIffSameRow(s: Store, meetingId: string, first: Option<string>, a: string, b: string)
    requires FirstFits(s, meetingId, first) && Hit(s, meetingId, b).Some?
    ensures Hit(s, meetingId, a) == Hit(s, meetingId, b) <==> SameRow(first, a, b)
  {
    SubMatchesPlain(s.records[Hit(s, meetingId, b).value].fields, meetingId, b);
    if a != "" && b != "" {
      SubsDoNotMeet(s, meetingId, b, a);
    } else if a != "" {
      PlainMeetsSub(s, meetingId, first, a);
    } else if b != "" {
      PlainMeetsSub(s, meetingId, first, b);
    }
  }

  // ---------------------------------------------------------------- writes

  /** The rows a write leaves, told by what it does to the row it found and by the row it may append. */
  lemma RowsWritten(s: Store, d: MeetingData, replies: Replies) returns (k: nat)
    requires s.Valid()
    ensures k <= |s.records|
    ensures Hit(s, d.meetingId, d.subMeetingId) == if k < |s.records| then Some(k) else None
    ensures var after := UpsertMeeting(s, d, replies).0.records;
            && |s.records| <= |after| && (k == |s.records| ==> |after| == k + 1)
            && (forall j :: 0 <= j < |s.records| && j != k ==> after[j] == s.records[j])
            && (k < |s.records| ==> after[k].fields == Written(s.records[k].fields, d))
            && (forall j :: |s.records| <= j < |after| ==> after[j].fields == FormatFields(MeetingFields(d)))
  {
    k := WriteAt(s, d, replies);
    RowsAfterWrite(s, k, d, replies);
  }

  /** What an appended row is found by. */
  lemma NewRowMatches(d: MeetingData, meetingId: string, subMeetingId: string)
    ensures Matches(FormatFields(MeetingFields(d)), SearchFilter(meetingId, subMeetingId))
       <==> SameId(d.meetingId, meetingId)
            && (subMeetingId == "" || (d.subMeetingId != "" && SameId(d.subMeetingId, subMeetingId)))
    ensures var row := FormatFields(MeetingFields(d));
            if d.subMeetingId != "" then Carries(row, "sub_meeting_id", d.subMeetingId) else "sub_meeting_id" !in row
  {
    var row := FormatFields(MeetingFields(d));
    IdsSent(d);
    OneLowered(d.meetingId);
    OneLowered(d.subMeetingId);
    if d.subMeetingId == "" {
      NoSubIdSent(d);
    }
    MatchesIs(row, meetingId, subMeetingId);
    assert row["meeting_id"] == Text(d.meetingId);
  }

  /** A write about another meeting leaves everything read for this one. */
  lemma WriteElsewhere(s: Store, d: MeetingData, replies: Replies, meetingId: string, subMeetingId: string)
    requires s.Valid() && !SameId(d.meetingId, meetingId)
    ensures var after := UpsertMeeting(s, d, replies).0;
            && Hit(after, meetingId, subMeetingId) == Hit(s, meetingId, subMeetingId)
            && FieldsRead(after, meetingId, subMeetingId) == FieldsRead(s, meetingId, subMeetingId)
            && (Hit(s, meetingId, subMeetingId).Some? ==>
                  var h := Hit(s, meetingId, subMeetingId).value; after.records[h] == s.records[h])
  {
    var filter := SearchFilter(meetingId, subMeetingId);
    var k := RowsWritten(s, d, replies);
    var after := UpsertMeeting(s, d, replies).0;
    if k < |s.records| {
      MatchesIs(s.records[k].fields, d.meetingId, d.subMeetingId);
      MatchesIs(s.records[k].fields, meetingId, subMeetingId);
      WriteKeepsMatches(s.records[k].fields, d, meetingId, subMeetingId);
    }
    NewRowMatches(d, meetingId, subMeetingId);
    ReadIsStable(s.records, after.records, filter);
  }

  /** Whether a row carries a sub meeting id, and which, is settled when the row is made. */
  lemma SubIdIsSettled(stored: Fields, d: MeetingData, first: string)
    requires Matches(stored, SearchFilter(d.meetingId, d.subMeetingId))
    requires if first != "" then Carries(stored, "sub_meeting_id", first) else "sub_meeting_id" !in stored
    ensures var after := Written(stored, d);
            if first != "" then Carries(after, "sub_meeting_id", first) else "sub_meeting_id" !in after
  {
    MatchesIs(stored, d.meetingId, d.subMeetingId);
    IdsWritten(stored, d);
    OneLowered(d.subMeetingId);
  }

  lemma FirstFitsStays(s: Store, d: MeetingData, replies: Replies, meetingId: string, first: Option<string>)
    requires s.Valid() && FirstFits(s, meetingId, first)
    ensures FirstFits(UpsertMeeting(s, d, replies).0, meetingId, Joined(first, Some(d), meetingId))
  {
    var after := UpsertMeeting(s, d, replies).0;
    if !SameId(d.meetingId, meetingId) {
      WriteElsewhere(s, d, replies, meetingId, "");
    } else if first.Some? {
      PlainHitStays(s, d, replies, meetingId, first.value);
    } else {
      FirstRow(s, d, replies, meetingId);
    }
  }

  lemma PlainHitStays(s: Store, d: MeetingData, replies: Replies, meetingId: string, first: string)
    requires s.Valid() && FirstFits(s, meetingId, Some(first))
    ensures FirstFits(UpsertMeeting(s, d, replies).0, meetingId, Some(first))
  {
    ReadAfterAnyWrite(s, d, replies, meetingId, "");
    var k := RowsWritten(s, d, replies);
    var h := Hit(s, meetingId, "").value;
    if k == h {
      SubIdIsSettled(s.records[h].fields, d, first);
    }
  }

  /** The first write of a meeting appends its row. */
  lemma FirstRow(s: Store, d: MeetingData, replies: Replies, meetingId: string)
    requires s.Valid() && SameId(d.meetingId, meetingId) && Hit(s, meetingId, "").None?
    ensures FirstFits(UpsertMeeting(s, d, replies).0, meetingId, Some(d.subMeetingId))
  {
    var k := RowsWritten(s, d, replies);
    if k < |s.records| {
      SameIdSameMatches(s.records[k].fields, d.meetingId, meetingId, d.subMeetingId);
      SubMatchesPlain(s.records[k].fields, meetingId, d.subMeetingId);
    }
    NewRowMatches(d, meetingId, "");
    FirstMatchIs(UpsertMeeting(s, d, replies).0.records, SearchFilter(meetingId, ""), |s.records|);
  }

  /** A write shows in every row read for its meeting that means the same sub meeting, and in no other. */
  lemma ReadAfterMixedWrite(
      s: Store, d: MeetingData, replies: Replies, meetingId: string, first: Option<string>, subMeetingId: string)
    requires s.Valid() && FirstFits(s, meetingId, first)
    ensures FieldsRead(UpsertMeeting(s, d, replies).0, meetingId, subMeetingId)
         == if SameId(d.meetingId, meetingId) && SameRow(Joined(first, Some(d), meetingId), d.subMeetingId, subMeetingId)
            then Written(FieldsRead(s, meetingId, subMeetingId), d) else FieldsRead(s, meetingId, subMeetingId)
  {
    if !SameId(d.meetingId, meetingId) {
      WriteElsewhere(s, d, replies, meetingId, subMeetingId);
    } else {
      SameIdSameHit(s, d.meetingId, meetingId, d.subMeetingId);
      if Hit(s, meetingId, subMeetingId).Some? {
        ReadAfterAnyWrite(s, d, replies, meetingId, subMeetingId);
        HitsMeetIffSameRow(s, meetingId, first, d.subMeetingId, subMeetingId);
        SubMatchesPlain(s.records[Hit(s, meetingId, subMeetingId).value].fields, meetingId, subMeetingId);
      } else if Hit(s, meetingId, d.subMeetingId).Some? {
        NoRowToRead(s, d, replies, meetingId, first, subMeetingId);
      } else {
        RowToRead(s, d, replies, meetingId, first, subMeetingId);
      }
    }
  }

  lemma ListAfterMixedWrite(
      s: Store, d: MeetingData, replies: Replies, meetingId: string, first: Option<string>, subMeetingId: string)
    requires s.Valid() && FirstFits(s, meetingId, first)
    ensures ListRead(UpsertMeeting(s, d, replies).0, meetingId, subMeetingId)
         == if SameId(d.meetingId, meetingId) && d.participants.Some?
               && SameRow(Joined(first, Some(d), meetingId), d.subMeetingId, subMeetingId)
            then d.participants.value else ListRead(s, meetingId, subMeetingId)
  {
    ReadAfterMixedWrite(s, d, replies, meetingId, first, subMeetingId);
    ListWritten(FieldsRead(s, meetingId, subMeetingId), d);
  }

  /** A write that finds its row makes none for a search that has found nothing. */
  lemma NoRowToRead(
      s: Store, d: MeetingData, replies: Replies, meetingId: string, first: Option<string>, subMeetingId: string)
    requires s.Valid() && FirstFits(s, meetingId, first) && SameId(d.meetingId, meetingId)
    requires Hit(s, meetingId, subMeetingId).None? && Hit(s, meetingId, d.subMeetingId).Some?
    ensures FieldsRead(UpsertMeeting(s, d, replies).0, meetingId, subMeetingId) == map[]
    ensures first.Some? && !SameRow(first, d.subMeetingId, subMeetingId)
  {
    var k := RowsWritten(s, d, replies);
    SameIdSameHit(s, d.meetingId, meetingId, d.subMeetingId);
    HitsMeetIffSameRow(s, meetingId, first, subMeetingId, d.subMeetingId);
    var filter := SearchFilter(meetingId, subMeetingId);
    WriteKeepsMatches(s.records[k].fields, d, meetingId, subMeetingId);
    NewRowMatches(d, meetingId, subMeetingId);
    ReadIsStable(s.records, UpsertMeeting(s, d, replies).0.records, filter);
  }

  lemma LastRowIsFound(before: seq<Record>, row: Record, filter: Filter)
    requires FirstMatch(before, filter).None?
    ensures FirstMatch(before + [row], filter) == if Matches(row.fields, filter) then Some(|before|) else None
  {
    assert (before + [row])[..|before|] == before;
  }

  lemma AppendedRowIsRead(s: Store, d: MeetingData, replies: Replies, meetingId: string, subMeetingId: string)
    requires s.Valid() && Hit(s, meetingId, subMeetingId).None? && Hit(s, d.meetingId, d.subMeetingId).None?
    ensures FieldsRead(UpsertMeeting(s, d, replies).0, meetingId, subMeetingId)
         == if Matches(FormatFields(MeetingFields(d)), SearchFilter(meetingId, subMeetingId)) then Written(map[], d) else map[]
  {
    var k := RowsWritten(s, d, replies);
    var after := UpsertMeeting(s, d, replies).0.records;
    var row := after[k];
    assert after == s.records + [row];
    LastRowIsFound(s.records, row, SearchFilter(meetingId, subMeetingId));
    NewRowIsWritten(d);
  }

  lemma NewRowIsWritten(d: MeetingData)
    ensures Written(map[], d) == FormatFields(MeetingFields(d))
  {
    OverNothing(MeetingFields(d));
  }

  /** Two ids without a row mean the same only when they are the same, or when the plain id gets its first row. */
  lemma MeantWithoutRow(s: Store, d: MeetingData, meetingId: string, first: Option<string>, subMeetingId: string)
    requires FirstFits(s, meetingId, first) && SameId(d.meetingId, meetingId)
    requires Hit(s, meetingId, subMeetingId).None? && Hit(s, meetingId, d.subMeetingId).None?
    ensures SameRow(Joined(first, Some(d), meetingId), d.subMeetingId, subMeetingId)
       <==> subMeetingId == "" || (d.subMeetingId != "" && SameId(d.subMeetingId, subMeetingId))
  {
  }

  /** A write that appends a row makes it the one a search finds exactly when both mean the same. */
  lemma RowToRead(
      s: Store, d: MeetingData, replies: Replies, meetingId: string, first: Option<string>, subMeetingId: string)
    requires s.Valid() && FirstFits(s, meetingId, first) && SameId(d.meetingId, meetingId)
    requires Hit(s, meetingId, subMeetingId).None? && Hit(s, meetingId, d.subMeetingId).None?
    ensures FieldsRead(UpsertMeeting(s, d, replies).0, meetingId, subMeetingId)
         == if SameRow(Joined(first, Some(d), meetingId), d.subMeetingId, subMeetingId) then Written(map[], d) else map[]
  {
    SameIdSameHit(s, d.meetingId, meetingId, d.subMeetingId);
    AppendedRowIsRead(s, d, replies, meetingId, subMeetingId);
    NewRowMatches(d, meetingId, subMeetingId);
    MeantWithoutRow(s, d, meetingId, first, subMeetingId);
  }

  // ---------------------------------------------------------------- runs

  /** The ids named by the events that write to the row this meeting is read from, in the order of the run. */
  function Arrivals(w: World, steps: seq<Step>, meetingId: string, first: Option<string>, subMeetingId: string): seq<string> {
    if steps == [] then []
    else
      var front, last := steps[..|steps| - 1], steps[|steps| - 1];
      Arrivals(w, front, meetingId, first, subMeetingId)
      + if Concerns(last, meetingId, first, subMeetingId) then NamedBy(Run(w, front), last) else []
  }

  predicate Concerns(s: Step, meetingId: string, first: Option<string>, subMeetingId: string) {
    s.MeetingStep? && SameId(s.info.meetingId, meetingId) && SameRow(first, s.info.subMeetingId, subMeetingId)
  }

  /** What one step does to the list read for a meeting, and to what the plain id stands for. */
  lemma NextMixed(w: World, s: Step, meetingId: string, first: Option<string>, subMeetingId: string)
    requires Valid(w) && FirstFits(w.meetings, meetingId, first)
    ensures var first' := Joined(first, SentBy(w, s), meetingId);
            var listed := ListRead(w.meetings, meetingId, subMeetingId);
            && FirstFits(Next(w, s).meetings, meetingId, first')
            && ListRead(Next(w, s).meetings, meetingId, subMeetingId)
                 == if Concerns(s, meetingId, first', subMeetingId) && NamedBy(w, s) != []
                    then FirstOccurrences(listed + NamedBy(w, s)) else listed
  {
    MeetingsAfter(w, s);
    var sent := SentBy(w, s);
    if sent.Some? {
      FirstFitsStays(w.meetings, sent.value, MeetingReplies(s), meetingId, first);
      ListAfterMixedWrite(w.meetings, sent.value, MeetingReplies(s), meetingId, first, subMeetingId);
    }
    if s.MeetingStep? {
      NamesSomeone(w, s);
      if sent.Some? && Concerns(s, meetingId, Joined(first, sent, meetingId), subMeetingId) {
        SameListRead(w.meetings, s.info.meetingId, s.info.subMeetingId, meetingId, first, sent.value, subMeetingId);
      }
    }
  }

  /** What an event reads before it writes is what is read for the meeting it concerns. */
  lemma SameListRead(s: Store, meetingId': string, subMeetingId': string, meetingId: string, first: Option<string>,
                     d: MeetingData, subMeetingId: string)
    requires FirstFits(s, meetingId, first) && SameId(meetingId', meetingId)
    requires d.meetingId == meetingId' && d.subMeetingId == subMeetingId'
    requires SameRow(Joined(first, Some(d), meetingId), subMeetingId', subMeetingId)
    ensures ListRead(s, meetingId', subMeetingId') == ListRead(s, meetingId, subMeetingId)
  {
    SameIdSameHit(s, meetingId', meetingId, subMeetingId');
    if first.Some? {
      if Hit(s, meetingId, subMeetingId).Some? {
        HitsMeetIffSameRow(s, meetingId, first, subMeetingId', subMeetingId);
      } else if Hit(s, meetingId, subMeetingId').Some? {
        HitsMeetIffSameRow(s, meetingId, first, subMeetingId, subMeetingId');
      }
    } else {
      NothingBeforeFirst(s, meetingId, subMeetingId);
      NothingBeforeFirst(s, meetingId, subMeetingId');
    }
  }

  lemma NothingBeforeFirst(s: Store, meetingId: string, subMeetingId: string)
    requires Hit(s, meetingId, "").None?
    ensures Hit(s, meetingId, subMeetingId).None?
  {
    if Hit(s, meetingId, subMeetingId).Some? {
      SubMatchesPlain(s.records[Hit(s, meetingId, subMeetingId).value].fields, meetingId, subMeetingId);
    }
  }

  lemma {:induction false} RunFitsFirst(steps: seq<Step>, meetingId: string)
    ensures Valid(Run(START, steps)) && FirstFits(Run(START, steps).meetings, meetingId, FirstSub(START, steps, meetingId))
  {
    RunIsValid(steps);
    if steps != [] {
      var front, last := steps[..|steps| - 1], steps[|steps| - 1];
      RunFitsFirst(front, meetingId);
      NextMixed(Run(START, front), last, meetingId, FirstSub(START, front, meetingId), "");
    }
  }

  /** Before the first step that writes the meeting nobody has arrived. */
  lemma {:induction false} NoArrivalsBeforeFirst(steps: seq<Step>, meetingId: string, first: Option<string>, subMeetingId: string)
    requires FirstSub(START, steps, meetingId).None?
    ensures Arrivals(START, steps, meetingId, first, subMeetingId) == []
  {
    if steps != [] {
      var front, last := steps[..|steps| - 1], steps[|steps| - 1];
      NoArrivalsBeforeFirst(front, meetingId, first, subMeetingId);
      RunIsValid(front);
      if last.MeetingStep? {
        NamesSomeone(Run(START, front), last);
      }
    }
  }

  lemma {:induction false} ListIsArrivals(steps: seq<Step>, meetingId: string, first: Option<string>, subMeetingId: string)
    requires FirstSub(START, steps, meetingId).Some? ==> first == FirstSub(START, steps, meetingId)
    ensures ListRead(Run(START, steps).meetings, meetingId, subMeetingId)
         == FirstOccurrences(Arrivals(START, steps, meetingId, first, subMeetingId))
  {
    RunFitsFirst(steps, meetingId);
    if FirstSub(START, steps, meetingId).None? {
      NothingBeforeFirst(Run(START, steps).meetings, meetingId, subMeetingId);
      NoArrivalsBeforeFirst(steps, meetingId, first, subMeetingId);
    } else {
      var front, last := steps[..|steps| - 1], steps[|steps| - 1];
      RunFitsFirst(front, meetingId);
      ListIsArrivals(front, meetingId, first, subMeetingId);
      NextMixed(Run(START, front), last, meetingId, FirstSub(START, front, meetingId), subMeetingId);
      var before := Arrivals(START, front, meetingId, first, subMeetingId);
      FirstOccurrencesOnceMore(before, NamedBy(Run(START, front), last));
      assert before + [] == before;
    }
  }

  /**
   * After any run of any steps, the list read for a meeting is everyone named by the events that mean the same
   * sub meeting, each once, in order of first arrival.
   */
  lemma ListIsEveryoneWhoArrived(steps: seq<Step>, meetingId: string, subMeetingId: string)
    ensures ListRead(Run(START, steps).meetings, meetingId, subMeetingId)
         == FirstOccurrences(Arrivals(START, steps, meetingId, FirstSub(START, steps, meetingId), subMeetingId))
  {
    ListIsArrivals(steps, meetingId, FirstSub(START, steps, meetingId), subMeetingId);
  }

  // ---------------------------------------------------------------- meetings of one kind, and mixed ones

  /** Either every step about this meeting carries a sub meeting id, or none does. */
  predicate OneKind(steps: seq<Step>, meetingId: string, subMeetingId: string) {
    forall i :: 0 <= i < |steps| && !steps[i].UserStep? && SameId(steps[i].info.meetingId, meetingId) ==>
      (steps[i].info.subMeetingId == "" <==> subMeetingId == "")
  }

  /** The ids named by the events that carry just these ids. */
  function ArrivalsByKey(w: World, steps: seq<Step>, meetingId: string, subMeetingId: string): seq<string> {
    if steps == [] then []
    else
      var front, last := steps[..|steps| - 1], steps[|steps| - 1];
      ArrivalsByKey(w, front, meetingId, subMeetingId)
      + if last.MeetingStep? && SameId(last.info.meetingId, meetingId) && SameId(last.info.subMeetingId, subMeetingId)
        then NamedBy(Run(w, front), last) else []
  }

  lemma {:induction false} FirstIsOfTheKind(steps: seq<Step>, meetingId: string, subMeetingId: string)
    requires OneKind(steps, meetingId, subMeetingId)
    ensures var first := FirstSub(START, steps, meetingId); first.Some? ==> (first.value == "" <==> subMeetingId == "")
  {
    if steps != [] {
      FirstIsOfTheKind(steps[..|steps| - 1], meetingId, subMeetingId);
    }
  }

  lemma {:induction false} ArrivalsOfOneKind(steps: seq<Step>, meetingId: string, first: string, subMeetingId: string)
    requires OneKind(steps, meetingId, subMeetingId) && (first == "" <==> subMeetingId == "")
    ensures Arrivals(START, steps, meetingId, Some(first), subMeetingId)
         == ArrivalsByKey(START, steps, meetingId, subMeetingId)
  {
    if steps != [] {
      ArrivalsOfOneKind(steps[..|steps| - 1], meetingId, first, subMeetingId);
    }
  }

  /** A meeting whose own events are all of one kind lists everyone named under its ids, whatever other meetings do. */
  lemma UnmixedListIsByKey(steps: seq<Step>, meetingId: string, subMeetingId: string)
    requires OneKind(steps, meetingId, subMeetingId)
    ensures ListRead(Run(START, steps).meetings, meetingId, subMeetingId)
         == FirstOccurrences(ArrivalsByKey(START, steps, meetingId, subMeetingId))
  {
    var first := FirstSub(START, steps, meetingId);
    FirstIsOfTheKind(steps, meetingId, subMeetingId);
    if first.Some? {
      ListIsArrivals(steps, meetingId, first, subMeetingId);
      ArrivalsOfOneKind(steps, meetingId, first.value, subMeetingId);
    } else {
      ListIsArrivals(steps, meetingId, Some(subMeetingId), subMeetingId);
      ArrivalsOfOneKind(steps, meetingId, subMeetingId, subMeetingId);
    }
  }

  /**
   * An event without a sub meeting id lands on the row of a sub meeting exactly when the first step that wrote the
   * meeting carried that sub meeting's id.
   */
  lemma PlainLandsOnSubIff(steps: seq<Step>, meetingId: string, subMeetingId: string)
    requires subMeetingId != ""
    ensures var s, first := Run(START, steps).meetings, FirstSub(START, steps, meetingId);
            Hit(s, meetingId, "").Some? && Hit(s, meetingId, "") == Hit(s, meetingId, subMeetingId)
            <==> first.Some? && first.value != "" && SameId(first.value, subMeetingId)
  {
    RunFitsFirst(steps, meetingId);
    PlainMeetsSub(Run(START, steps).meetings, meetingId, FirstSub(START, steps, meetingId), subMeetingId);
  }

  const ALL_REPLIES := Answers(Replies(true, true), Replies(true, true), Replies(true, true))

  /** A meeting event with no operator and with every reply present. */
  function Created(meetingId: string, subMeetingId: string, creator: User): Step {
    MeetingStep(MeetingInfo(meetingId, subMeetingId, "subject", "", 0, 0, ""), None, creator, ALL_REPLIES)
  }

  /** Such a run: a plain event's creator stands on the sub meeting's list although no event of the sub meeting named them. */
  lemma PlainEventJoinsSubMeeting(meetingId: string, subMeetingId: string, a: User, b: User)
    requires subMeetingId != ""
    ensures var w := Run(START, [Created(meetingId, subMeetingId, a), Created(meetingId, "", b)]);
            && IdOfUser(w.users, b.uuid).Some?
            && IdOfUser(w.users, b.uuid).value in ListRead(w.meetings, meetingId, subMeetingId)
  {
    var s1, s2 := Created(meetingId, subMeetingId, a), Created(meetingId, "", b);
    var steps := [s1, s2];
    assert steps[..1] == [s1] && [s1][..0] == [];
    var w1 := Run(START, [s1]);
    RunIsValid([]);
    EventCompletes(START, s1);
    RunFitsFirst([s1], meetingId);
    EventCompletes(w1, s2);
    NamesSomeone(START, s1);
    assert SentBy(START, s1).Some?;
    assert FirstSub(START, [s1], meetingId) == Some(subMeetingId);
    NextMixed(w1, s2, meetingId, Some(subMeetingId), subMeetingId);
    NamedIsCreator(w1, s2);
  }

  /** A completed event without an operator names its creator's id. */
  lemma NamedIsCreator(w: World, s: Step)
    requires Valid(w) && Completes(w, s) && s.operator.None?
    ensures IdOfUser(Next(w, s).users, s.creator.uuid).Some?
    ensures NamedBy(w, s) == [IdOfUser(Next(w, s).users, s.creator.uuid).value]
  {
    ResolvedIdsAreTheirs(w.users, s.operator, s.creator, s.answers);
    EventJoins(w, s.info, s.operator, s.creator, s.answers);
  }
}
