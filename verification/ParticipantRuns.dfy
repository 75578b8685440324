/** What every sequential run of meeting events does to the participant lists. */
module ParticipantRuns {
  import opened Bitable
  import opened Common
  import opened Participants
  import opened ParticipantSteps

  /** A user record written on its own, a meeting event, or the meeting write of a finished recording. */
  datatype Step =
    | UserStep(user: User, replies: Replies)
    | MeetingStep(info: MeetingInfo, operator: Option<User>, creator: User, answers: Answers)
    | RecordingStep(info: MeetingInfo, replies: Replies)

  function RecordingData(info: MeetingInfo): MeetingData {
    MeetingData(TENCENT_LABEL, info.meetingId, info.subMeetingId, info.subject, "", 0, 0, "", None, None)
  }

  function Next(w: World, s: Step): World {
    match s
    case UserStep(u, replies) => World(Upsert(w.users, UserFields(u), USER_QUERY, PLAIN, replies).0, w.meetings)
    case MeetingStep(info, operator, creator, a) => UpdateParticipants(w, info, operator, creator, a).0
    case RecordingStep(info, replies) => World(w.users, UpsertMeeting(w.meetings, RecordingData(info), replies).0)
  }

  function Run(w: World, steps: seq<Step>): World {
    if steps == [] then w else Next(Run(w, steps[..|steps| - 1]), steps[|steps| - 1])
  }

  const START := World(Store([], 0), Store([], 0))

  ghost predicate Valid(w: World) {
    w.users.Valid() && w.meetings.Valid()
  }

  lemma MeetingWriteIsValid(s: Store, d: MeetingData, replies: Replies)
    requires s.Valid()
    ensures UpsertMeeting(s, d, replies).0.Valid()
  {
    MeetingIsKeyed(d);
    UpsertKeys(s, MeetingFields(d), MeetingQuery(d.subMeetingId), PLAIN, replies);
  }

  lemma NextIsValid(w: World, s: Step)
    requires Valid(w)
    ensures Valid(Next(w, s))
  {
    match s
    case UserStep(u, replies) =>
      UuidFound(map[], u);
      UpsertKeys(w.users, UserFields(u), USER_QUERY, PLAIN, replies);
    case MeetingStep(info, operator, creator, a) =>
      ResolvedIdsAreTheirs(w.users, operator, creator, a);
      var ids := ResolveUsers(w.users, operator, creator, a).1;
      if ids.Success? {
        MeetingWriteIsValid(w.meetings, SentBy(w, s).value, a.meeting);
      }
    case RecordingStep(info, replies) =>
      MeetingWriteIsValid(w.meetings, RecordingData(info), replies);
  }

  /** The ids a step adds, in order; none unless it is a meeting event whose users could be resolved. */
  function NamedBy(w: World, s: Step): seq<string> {
    if !s.MeetingStep? then []
    else
      var ids := ResolveUsers(w.users, s.operator, s.creator, s.answers).1;
      if ids.Failure? then [] else Named(ids.value.0, ids.value.1)
  }

  /** What a step writes to the meeting table. */
  function SentBy(w: World, s: Step): Option<MeetingData> {
    match s
    case UserStep(_, _) => None
    case RecordingStep(info, _) => Some(RecordingData(info))
    case MeetingStep(info, operator, creator, a) =>
      var ids := ResolveUsers(w.users, operator, creator, a).1;
      if ids.Failure? then None
      else
        var listed := ListRead(w.meetings, info.meetingId, info.subMeetingId);
        Some(EventData(info, FirstOccurrences(listed + Named(ids.value.0, ids.value.1)), ids.value.1))
  }

  function MeetingReplies(s: Step): Replies {
    match s case UserStep(_, r) => r case RecordingStep(_, r) => r case MeetingStep(_, _, _, a) => a.meeting
  }

  lemma MeetingsAfter(w: World, s: Step)
    ensures Next(w, s).meetings
         == match SentBy(w, s) case None => w.meetings case Some(d) => UpsertMeeting(w.meetings, d, MeetingReplies(s)).0
  {
  }

  /** A meeting event that gets as far as its write names its creator, and no id it names is empty. */
  lemma NamesSomeone(w: World, s: Step)
    requires w.users.Valid() && s.MeetingStep?
    ensures SentBy(w, s).Some? <==> NamedBy(w, s) != []
    ensures "" !in NamedBy(w, s)
  {
    ResolvedIdsAreTheirs(w.users, s.operator, s.creator, s.answers);
    var ids := ResolveUsers(w.users, s.operator, s.creator, s.answers).1;
    if ids.Success? {
      NamedAreNonEmpty(ids.value.0, ids.value.1);
      assert NamedBy(w, s) == Named(ids.value.0, ids.value.1);
    } else {
      assert NamedBy(w, s) == [];
    }
  }

  lemma NamedAreNonEmpty(operatorId: string, creatorId: string)
    requires creatorId != ""
    ensures Named(operatorId, creatorId) != [] && "" !in Named(operatorId, creatorId)
  {
  }

  lemma {:induction false} RunIsValid(steps: seq<Step>)
    ensures Valid(Run(START, steps))
  {
    if steps != [] {
      RunIsValid(steps[..|steps| - 1]);
      NextIsValid(Run(START, steps[..|steps| - 1]), steps[|steps| - 1]);
    }
  }

  // ---------------------------------------------------------------- lists only grow, whatever the steps

  ghost predicate Clean(list: seq<string>) {
    NoDuplicates(list) && "" !in list
  }

  ghost predicate AllClean(s: Store) {
    forall j :: 0 <= j < |s.records| ==> Clean(ListOf(s.records[j].fields))
  }

  /** Every row stays where it is, and its list only gets longer at the end. */
  ghost predicate Grows(before: Store, after: Store) {
    && |before.records| <= |after.records|
    && forall j :: 0 <= j < |before.records| ==>
         after.records[j].id == before.records[j].id
         && ListOf(before.records[j].fields) <= ListOf(after.records[j].fields)
  }

  lemma SentListIsClean(w: World, s: Step)
    requires Valid(w) && AllClean(w.meetings) && SentBy(w, s).Some?
    ensures var d := SentBy(w, s).value;
            d.participants.Some? ==>
              Clean(d.participants.value) && ListRead(w.meetings, d.meetingId, d.subMeetingId) <= d.participants.value
  {
    if s.MeetingStep? {
      NamesSomeone(w, s);
      JoinedListIsClean(ListRead(w.meetings, s.info.meetingId, s.info.subMeetingId), NamedBy(w, s));
    }
  }

  lemma NextGrows(w: World, s: Step)
    requires Valid(w) && AllClean(w.meetings)
    ensures AllClean(Next(w, s).meetings) && Grows(w.meetings, Next(w, s).meetings)
  {
    MeetingsAfter(w, s);
    if SentBy(w, s).Some? {
      SentListIsClean(w, s);
      WriteGrows(w.meetings, SentBy(w, s).value, MeetingReplies(s));
    }
  }

  lemma WrittenRowGrows(stored: Fields, d: MeetingData)
    requires Clean(ListOf(stored))
    requires d.participants.Some? ==> Clean(d.participants.value) && ListOf(stored) <= d.participants.value
    ensures Clean(ListOf(Written(stored, d))) && ListOf(stored) <= ListOf(Written(stored, d))
    ensures Clean(ListOf(FormatFields(MeetingFields(d))))
  {
    ListWritten(stored, d);
  }

  lemma WriteGrows(s: Store, d: MeetingData, replies: Replies)
    requires s.Valid() && AllClean(s)
    requires d.participants.Some? ==>
               Clean(d.participants.value) && ListRead(s, d.meetingId, d.subMeetingId) <= d.participants.value
    ensures AllClean(UpsertMeeting(s, d, replies).0) && Grows(s, UpsertMeeting(s, d, replies).0)
  {
    var k := WriteAt(s, d, replies);
    RowsAfterWrite(s, k, d, replies);
    WrittenRowGrows(if k < |s.records| then s.records[k].fields else map[], d);
  }

  lemma JoinedListIsClean(listed: seq<string>, named: seq<string>)
    requires Clean(listed) && "" !in named
    ensures Clean(FirstOccurrences(listed + named)) && listed <= FirstOccurrences(listed + named)
  {
    FirstOccurrencesStay(listed, named);
    DistinctIsItself(listed);
  }

  /** From any clean table, over any run: no id is ever lost or moved, and none is empty or listed twice. */
  lemma {:induction false} RunGrows(w: World, steps: seq<Step>)
    requires Valid(w) && AllClean(w.meetings)
    ensures Valid(Run(w, steps)) && AllClean(Run(w, steps).meetings) && Grows(w.meetings, Run(w, steps).meetings)
  {
    if steps != [] {
      var front, last := steps[..|steps| - 1], steps[|steps| - 1];
      RunGrows(w, front);
      NextIsValid(Run(w, front), last);
      NextGrows(Run(w, front), last);
    }
  }

  /** A meeting with a row is read from that row for ever. */
  lemma {:induction false} RunKeepsRow(w: World, steps: seq<Step>, meetingId: string, subMeetingId: string)
    requires Valid(w) && AllClean(w.meetings)
    requires FirstMatch(w.meetings.records, SearchFilter(meetingId, subMeetingId)).Some?
    ensures FirstMatch(Run(w, steps).meetings.records, SearchFilter(meetingId, subMeetingId))
         == FirstMatch(w.meetings.records, SearchFilter(meetingId, subMeetingId))
  {
    if steps != [] {
      var front, last := steps[..|steps| - 1], steps[|steps| - 1];
      RunKeepsRow(w, front, meetingId, subMeetingId);
      RunGrows(w, front);
      var w1 := Run(w, front);
      MeetingsAfter(w1, last);
      if SentBy(w1, last).Some? {
        ReadAfterAnyWrite(w1.meetings, SentBy(w1, last).value, MeetingReplies(last), meetingId, subMeetingId);
      }
    }
  }

  lemma {:induction false} RunKeepsIds(w: World, steps: seq<Step>, uuid: string)
    requires Valid(w) && AllClean(w.meetings) && IdOfUser(w.users, uuid).Some?
    ensures IdOfUser(Run(w, steps).users, uuid) == IdOfUser(w.users, uuid)
  {
    if steps != [] {
      var front, last := steps[..|steps| - 1], steps[|steps| - 1];
      RunKeepsIds(w, front, uuid);
      RunGrows(w, front);
      NextKeepsId(Run(w, front), last, uuid);
    }
  }

  lemma NextKeepsId(w: World, s: Step, uuid: string)
    requires Valid(w) && IdOfUser(w.users, uuid).Some?
    ensures IdOfUser(Next(w, s).users, uuid) == IdOfUser(w.users, uuid)
  {
    match s
    case UserStep(u, replies) => IdStaysOnUpsert(w.users, u, replies, uuid);
    case RecordingStep(_, _) =>
    case MeetingStep(info, operator, creator, a) =>
      var users1 := if operator.Some? then EnsureUser(w.users, operator.value, a.operator).0 else w.users;
      if operator.Some? {
        EnsuredIdIsTheirs(w.users, operator.value, a.operator);
        IdStays(w.users, operator.value, a.operator, uuid);
      }
      IdStays(users1, creator, a.creator, uuid);
  }

  /**
   * Whoever an event that completes names has a user id then, keeps it, and is on the list read for that meeting,
   * after any further run of steps.
   */
  lemma OnceListedAlwaysListed(w: World, event: Step, u: User, later: seq<Step>)
    requires Valid(w) && AllClean(w.meetings) && event.MeetingStep?
    requires u == event.creator || event.operator == Some(u)
    ensures var w' := Run(Next(w, event), later);
            Completes(w, event) ==>
            && IdOfUser(w'.users, u.uuid).Some?
            && IdOfUser(w'.users, u.uuid) == IdOfUser(Next(w, event).users, u.uuid)
            && IdOfUser(w'.users, u.uuid).value in ListRead(w'.meetings, event.info.meetingId, event.info.subMeetingId)
  {
    var w1 := Next(w, event);
    NextIsValid(w, event);
    NextGrows(w, event);
    EventListsOperatorAndCreator(w, event.info, event.operator, event.creator, event.answers);
    if Completes(w, event) {
      RunKeepsIds(w1, later, u.uuid);
    }
    ListReadGrows(w1, later, event.info.meetingId, event.info.subMeetingId);
  }

  predicate Completes(w: World, s: Step) {
    s.MeetingStep? && UpdateParticipants(w, s.info, s.operator, s.creator, s.answers).1
  }

  lemma UsersResolve(users: Store, operator: Option<User>, creator: User, a: Answers)
    requires users.Valid() && a.operator.create && a.creator.create
    ensures ResolveUsers(users, operator, creator, a).1.Success?
  {
    var users1 := if operator.Some? then EnsureUser(users, operator.value, a.operator).0 else users;
    if operator.Some? {
      EnsureUserIs(users, operator.value, a.operator);
    }
    EnsureUserIs(users1, creator, a.creator);
  }

  lemma MeetingWriteSucceeds(s: Store, d: MeetingData, replies: Replies)
    requires s.Valid() && replies.create
    ensures UpsertMeeting(s, d, replies).1.Success?
  {
    var k := WriteAt(s, d, replies);
  }

  /** An event completes whenever replies to creations carry their record, even if replies to updates do not. */
  lemma EventCompletes(w: World, s: Step)
    requires Valid(w) && s.MeetingStep?
    requires s.answers.operator.create && s.answers.creator.create && s.answers.meeting.create
    ensures Completes(w, s)
  {
    UsersResolve(w.users, s.operator, s.creator, s.answers);
    MeetingWriteSucceeds(w.meetings, SentBy(w, s).value, s.answers.meeting);
  }

  lemma ListReadGrows(w: World, steps: seq<Step>, meetingId: string, subMeetingId: string)
    requires Valid(w) && AllClean(w.meetings)
    ensures ListRead(w.meetings, meetingId, subMeetingId) <= ListRead(Run(w, steps).meetings, meetingId, subMeetingId)
  {
    if FirstMatch(w.meetings.records, SearchFilter(meetingId, subMeetingId)).Some? {
      RunKeepsRow(w, steps, meetingId, subMeetingId);
      RunGrows(w, steps);
    }
  }
}
