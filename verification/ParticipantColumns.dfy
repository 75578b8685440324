/** What the columns of meeting rows and user rows hold: the values of the events themselves. */
module ParticipantColumns {
  import opened Bitable
  import opened Case
  import opened Common
  import opened Participants
  import opened ParticipantSteps
  import opened ParticipantRuns
  import opened ParticipantLists

  function TextTold(text: string): Option<Value> {
    if text == "" then None else Some(Text(text))
  }

  /** Seconds are told in milliseconds. */
  function TimeTold(seconds: int): Option<Value> {
    if seconds == 0 then None else Some(Number(seconds * 1000))
  }

  /** The value an event tells for a column other than the list; empty and zero values tell nothing. */
  function EventTells(info: MeetingInfo, creatorId: string, column: string): Option<Value> {
    match column
    case "platform" => Some(Text("TENCENT_MEETING"))
    case "meeting_id" => Some(Text(info.meetingId))
    case "sub_meeting_id" => TextTold(info.subMeetingId)
    case "subject" => TextTold(info.subject)
    case "meeting_code" => TextTold(info.code)
    case "start_time" => TimeTold(info.startTime)
    case "end_time" => TimeTold(info.endTime)
    case "meeting_type" => TextTold(info.kind)
    case "creator" => Some(List([creatorId]))
    case _ => None
  }

  /** A finished recording tells the ids, the subject and the platform's Chinese name. */
  function RecordingTells(info: MeetingInfo, column: string): Option<Value> {
    match column
    case "platform" => Some(Text("\U{817E}\U{8BAF}\U{4F1A}\U{8BAE}"))
    case "meeting_id" => Some(Text(info.meetingId))
    case "sub_meeting_id" => TextTold(info.subMeetingId)
    case "subject" => TextTold(info.subject)
    case _ => None
  }

  // ---------------------------------------------------------------- what is sent is what is told

  /** Later fields win. */
  function Later(a: Option<Value>, b: Option<Value>): Option<Value> {
    if b.Some? then b else a
  }

  function Only(name: string, value: Option<Value>, column: string): Option<Value> {
    if column == name then value else None
  }

  ghost predicate NoNulls(fields: Fields) {
    forall f :: f in fields ==> fields[f] != Undefined && fields[f] != Null
  }

  lemma SumSends(a: Fields, b: Fields, column: string)
    requires NoNulls(a) && NoNulls(b)
    ensures NoNulls(a + b) && Sent(a + b, column) == Later(Sent(a, column), Sent(b, column))
  {
  }

  lemma TextSends(name: string, text: string, column: string)
    ensures NoNulls(TextField(name, text)) && Sent(TextField(name, text), column) == Only(name, TextTold(text), column)
  {
  }

  lemma TimeSends(name: string, seconds: int, column: string)
    ensures NoNulls(TimeField(name, seconds * 1000))
    ensures Sent(TimeField(name, seconds * 1000), column) == Only(name, TimeTold(seconds), column)
  {
  }

  lemma ListSends(name: string, items: Option<seq<string>>, column: string)
    ensures NoNulls(ListField(name, items))
    ensures Sent(ListField(name, items), column) == Only(name, if items.Some? then Some(List(items.value)) else None, column)
  {
  }

  lemma IdsSend(platform: string, meetingId: string, column: string)
    ensures var ids: Fields := map["platform" := Text(platform), "meeting_id" := Text(meetingId)];
            && NoNulls(ids)
            && Sent(ids, column) == Later(Only("platform", Some(Text(platform)), column),
                                          Only("meeting_id", Some(Text(meetingId)), column))
  {
    assert |"platform"| == 8 && |"meeting_id"| == 10;
  }

  lemma DetailsSend(d: MeetingData, startTime: int, endTime: int, column: string)
    requires d.startTime == startTime * 1000 && d.endTime == endTime * 1000
    ensures NoNulls(Details(d))
    ensures Sent(Details(d), column)
         == Later(Later(Later(Later(Later(Only("subject", TextTold(d.subject), column),
                                          Only("meeting_code", TextTold(d.code), column)),
                                    Only("start_time", TimeTold(startTime), column)),
                              Only("end_time", TimeTold(endTime), column)),
                        Only("meeting_type", TextTold(d.kind), column)),
                  Only("creator", if d.creator.Some? then Some(List(d.creator.value)) else None, column))
  {
    TextSends("subject", d.subject, column);
    TextSends("meeting_code", d.code, column);
    TimeSends("start_time", startTime, column);
    TimeSends("end_time", endTime, column);
    TextSends("meeting_type", d.kind, column);
    ListSends("creator", d.creator, column);
    var a := TextField("subject", d.subject);
    SumSends(a, TextField("meeting_code", d.code), column);
    var b := a + TextField("meeting_code", d.code);
    SumSends(b, TimeField("start_time", d.startTime), column);
    var e := b + TimeField("start_time", d.startTime);
    SumSends(e, TimeField("end_time", d.endTime), column);
    var g := e + TimeField("end_time", d.endTime);
    SumSends(g, TextField("meeting_type", d.kind), column);
    SumSends(g + TextField("meeting_type", d.kind), ListField("creator", d.creator), column);
  }

  lemma FieldsSend(d: MeetingData, column: string)
    requires NoNulls(Details(d)) && column != "participants"
    ensures Sent(MeetingFields(d), column)
         == Later(Later(Sent(Details(d), column), Later(Only("platform", Some(Text(d.platform)), column),
                                                        Only("meeting_id", Some(Text(d.meetingId)), column))),
                  Only("sub_meeting_id", TextTold(d.subMeetingId), column))
  {
    IdsSend(d.platform, d.meetingId, column);
    TextSends("sub_meeting_id", d.subMeetingId, column);
    ListSends("participants", d.participants, column);
    var ids: Fields := map["platform" := Text(d.platform), "meeting_id" := Text(d.meetingId)];
    SumSends(Details(d), ids, column);
    SumSends(Details(d) + ids, TextField("sub_meeting_id", d.subMeetingId), column);
    SumSends(Details(d) + ids + TextField("sub_meeting_id", d.subMeetingId), ListField("participants", d.participants), column);
  }

  lemma NamesApart()
    ensures |"platform"| == 8 && |"meeting_id"| == 10 && |"sub_meeting_id"| == 14 && |"subject"| == 7
    ensures |"meeting_code"| == 12 && |"start_time"| == 10 && |"end_time"| == 8 && |"meeting_type"| == 12 && |"creator"| == 7
    ensures "platform" != "end_time" && "meeting_id" != "start_time" && "subject" != "creator"
    ensures "meeting_code" != "meeting_type"
  {
    assert "platform"[0] != "end_time"[0] && "meeting_id"[0] != "start_time"[0] && "subject"[0] != "creator"[0];
    assert "meeting_code"[8] != "meeting_type"[8];
  }

  /** At most one of the fields has the name of the column. */
  lemma OneIsNamed(column: string, subject: Option<Value>, code: Option<Value>, start: Option<Value>, end: Option<Value>,
                   kind: Option<Value>, creator: Option<Value>, platform: Value, id: Value, sub: Option<Value>)
    ensures var details := Later(Later(Later(Later(Later(Only("subject", subject, column), Only("meeting_code", code, column)),
                                                   Only("start_time", start, column)), Only("end_time", end, column)),
                                       Only("meeting_type", kind, column)), Only("creator", creator, column));
            Later(Later(details, Later(Only("platform", Some(platform), column), Only("meeting_id", Some(id), column))),
                  Only("sub_meeting_id", sub, column))
            == if column == "platform" then Some(platform)
               else if column == "meeting_id" then Some(id)
               else if column == "sub_meeting_id" then sub
               else if column == "subject" then subject
               else if column == "meeting_code" then code
               else if column == "start_time" then start
               else if column == "end_time" then end
               else if column == "meeting_type" then kind
               else if column == "creator" then creator
               else None
  {
    NamesApart();
  }

  lemma EventSends(info: MeetingInfo, participants: seq<string>, creatorId: string, column: string)
    requires creatorId != "" && column != "participants"
    ensures Sent(MeetingFields(EventData(info, participants, creatorId)), column) == EventTells(info, creatorId, column)
  {
    var d := EventData(info, participants, creatorId);
    DetailsSend(d, info.startTime, info.endTime, column);
    FieldsSend(d, column);
    OneIsNamed(column, TextTold(info.subject), TextTold(info.code), TimeTold(info.startTime), TimeTold(info.endTime),
               TextTold(info.kind), Some(List([creatorId])), Text("TENCENT_MEETING"), Text(info.meetingId),
               TextTold(info.subMeetingId));
  }

  lemma RecordingSends(info: MeetingInfo, column: string)
    requires column != "participants"
    ensures Sent(MeetingFields(RecordingData(info)), column) == RecordingTells(info, column)
  {
    var d := RecordingData(info);
    DetailsSend(d, 0, 0, column);
    FieldsSend(d, column);
  }

  // ---------------------------------------------------------------- the row an event leaves

  lemma ColumnWritten(stored: Fields, d: MeetingData, column: string)
    ensures ValueAt(Written(stored, d), column) == Later(ValueAt(stored, column), Sent(MeetingFields(d), column))
  {
    OverlayWrites(stored, MeetingFields(d), PLAIN);
  }

  lemma OwnRow(s: Store, d: MeetingData, replies: Replies)
    requires s.Valid()
    ensures FieldsRead(UpsertMeeting(s, d, replies).0, d.meetingId, d.subMeetingId)
         == Written(FieldsRead(s, d.meetingId, d.subMeetingId), d)
  {
    if Hit(s, d.meetingId, d.subMeetingId).Some? {
      ReadAfterAnyWrite(s, d, replies, d.meetingId, d.subMeetingId);
    } else {
      AppendedRowIsRead(s, d, replies, d.meetingId, d.subMeetingId);
      NewRowMatches(d, d.meetingId, d.subMeetingId);
    }
  }

  /** The record id of a step's creator afterwards. */
  function CreatorId(w: World, s: Step): string
    requires s.MeetingStep?
  {
    match IdOfUser(Next(w, s).users, s.creator.uuid) case Some(id) => id case None => ""
  }

  /** What a step tells for a column, if it gets as far as its write. */
  function StepTells(w: World, s: Step, column: string): Option<Value> {
    match s
    case UserStep(_, _) => None
    case MeetingStep(info, _, _, _) => EventTells(info, CreatorId(w, s), column)
    case RecordingStep(info, _) => RecordingTells(info, column)
  }

  lemma SentIsTold(w: World, s: Step, column: string)
    requires Valid(w) && SentBy(w, s).Some? && column != "participants"
    ensures Sent(MeetingFields(SentBy(w, s).value), column) == StepTells(w, s, column)
  {
    match s
    case MeetingStep(info, operator, creator, a) =>
      ResolvedIdsAreTheirs(w.users, operator, creator, a);
      EventSends(info, SentBy(w, s).value.participants.value, CreatorId(w, s), column);
    case RecordingStep(info, _) => RecordingSends(info, column);
  }

  /**
   * On the row found by the ids of a completed event, every column but the list holds what the event tells; where it
   * tells nothing, what the row held before. The creator column is the record id of the event's creator alone.
   */
  lemma EventRow(w: World, info: MeetingInfo, operator: Option<User>, creator: User, a: Answers, column: string)
    requires Valid(w) && column != "participants" && UpdateParticipants(w, info, operator, creator, a).1
    ensures var w' := UpdateParticipants(w, info, operator, creator, a).0;
            && IdOfUser(w'.users, creator.uuid).Some?
            && ValueAt(FieldsRead(w'.meetings, info.meetingId, info.subMeetingId), column)
               == Later(ValueAt(FieldsRead(w.meetings, info.meetingId, info.subMeetingId), column),
                        EventTells(info, IdOfUser(w'.users, creator.uuid).value, column))
  {
    var step := MeetingStep(info, operator, creator, a);
    ResolvedIdsAreTheirs(w.users, operator, creator, a);
    var d := SentBy(w, step).value;
    OwnRow(w.meetings, d, a.meeting);
    ColumnWritten(FieldsRead(w.meetings, info.meetingId, info.subMeetingId), d, column);
    SentIsTold(w, step, column);
  }

  // ---------------------------------------------------------------- the row after a run

  /** The step writes to the row this meeting is read from. */
  predicate WritesTo(w: World, s: Step, meetingId: string, first: Option<string>, subMeetingId: string) {
    !s.UserStep? && SentBy(w, s).Some? && SameId(s.info.meetingId, meetingId) && SameRow(first, s.info.subMeetingId, subMeetingId)
  }

  /** What the latest step that writes to the row and tells something has told. */
  function LatestTold(w: World, steps: seq<Step>, meetingId: string, first: Option<string>, subMeetingId: string, column: string)
    : Option<Value>
  {
    if steps == [] then None
    else
      var front, last := steps[..|steps| - 1], steps[|steps| - 1];
      Later(LatestTold(w, front, meetingId, first, subMeetingId, column),
            if WritesTo(Run(w, front), last, meetingId, first, subMeetingId)
            then StepTells(Run(w, front), last, column) else None)
  }

  lemma ColumnAfterStep(w: World, s: Step, meetingId: string, first: Option<string>, subMeetingId: string, column: string)
    requires Valid(w) && FirstFits(w.meetings, meetingId, first) && column != "participants"
    ensures var first' := Joined(first, SentBy(w, s), meetingId);
            ValueAt(FieldsRead(Next(w, s).meetings, meetingId, subMeetingId), column)
            == Later(ValueAt(FieldsRead(w.meetings, meetingId, subMeetingId), column),
                     if WritesTo(w, s, meetingId, first', subMeetingId) then StepTells(w, s, column) else None)
  {
    MeetingsAfter(w, s);
    if SentBy(w, s).Some? {
      var d := SentBy(w, s).value;
      ReadAfterMixedWrite(w.meetings, d, MeetingReplies(s), meetingId, first, subMeetingId);
      ColumnWritten(FieldsRead(w.meetings, meetingId, subMeetingId), d, column);
      SentIsTold(w, s, column);
    }
  }

  /** Before the first step that writes the meeting nothing has been told. */
  lemma {:induction false} NothingToldBeforeFirst(
      steps: seq<Step>, meetingId: string, first: Option<string>, subMeetingId: string, column: string)
    requires FirstSub(START, steps, meetingId).None?
    ensures LatestTold(START, steps, meetingId, first, subMeetingId, column) == None
  {
    if steps != [] {
      NothingToldBeforeFirst(steps[..|steps| - 1], meetingId, first, subMeetingId, column);
    }
  }

  lemma {:induction false} ColumnIsLatest(
      steps: seq<Step>, meetingId: string, first: Option<string>, subMeetingId: string, column: string)
    requires column != "participants"
    requires FirstSub(START, steps, meetingId).Some? ==> first == FirstSub(START, steps, meetingId)
    ensures ValueAt(FieldsRead(Run(START, steps).meetings, meetingId, subMeetingId), column)
         == LatestTold(START, steps, meetingId, first, subMeetingId, column)
  {
    if steps != [] {
      var front, last := steps[..|steps| - 1], steps[|steps| - 1];
      var now := FirstSub(START, front, meetingId);
      RunFitsFirst(front, meetingId);
      ColumnAfterStep(Run(START, front), last, meetingId, now, subMeetingId, column);
      ColumnIsLatest(front, meetingId, first, subMeetingId, column);
      if now.None? {
        NothingToldBeforeFirst(front, meetingId, first, subMeetingId, column);
      }
    }
  }

  /**
   * After any run of any steps, each column but the list of the row read for a meeting shows what the latest step that
   * wrote to that row and told something for it has told.
   */
  lemma RowIsLatestTold(steps: seq<Step>, meetingId: string, subMeetingId: string, column: string)
    requires column != "participants"
    ensures ValueAt(FieldsRead(Run(START, steps).meetings, meetingId, subMeetingId), column)
         == LatestTold(START, steps, meetingId, FirstSub(START, steps, meetingId), subMeetingId, column)
  {
    ColumnIsLatest(steps, meetingId, FirstSub(START, steps, meetingId), subMeetingId, column);
  }

  // ---------------------------------------------------------------- user rows

  /** The value a user record tells for a column. */
  function UserTells(u: User, column: string): Option<Value> {
    match column
    case "uuid" => Some(Text(u.uuid))
    case "userid" => TextTold(u.userid)
    case "user_name" => TextTold(u.name)
    case "is_enterprise_user" => Some(Flag(u.userid != ""))
    case _ => None
  }

  lemma UserSends(u: User, column: string)
    ensures NoNulls(UserFields(u)) && Sent(UserFields(u), column) == UserTells(u, column)
  {
    var a: Fields := map["uuid" := Text(u.uuid)];
    var b: Fields := map["is_enterprise_user" := Flag(u.userid != "")];
    assert |"uuid"| == 4 && |"userid"| == 6 && |"user_name"| == 9 && |"is_enterprise_user"| == 18;
    TextSends("userid", u.userid, column);
    TextSends("user_name", u.name, column);
    SumSends(a, TextField("userid", u.userid), column);
    SumSends(a + TextField("userid", u.userid), TextField("user_name", u.name), column);
    SumSends(a + TextField("userid", u.userid) + TextField("user_name", u.name), b, column);
  }

  /** Where a user's own record write stops, which is where a search for the uuid does. */
  lemma UserPosition(s: Store, u: User, replies: Replies) returns (k: nat)
    requires s.Valid()
    ensures k <= |s.records| && UserRow(s, u.uuid) == if k < |s.records| then Some(k) else None
    ensures Upsert(s, UserFields(u), USER_QUERY, PLAIN, replies) == UpsertAt(s, k, UserFields(u), PLAIN, replies)
    ensures forall j :: 0 <= j < k ==> !Matches(s.records[j].fields, UuidFilter(u.uuid))
  {
    UuidFound(map[], u);
    k := UpsertByKey(s, UserFields(u), USER_QUERY, PLAIN, replies);
    forall j | 0 <= j < |s.records|
      ensures Matches(s.records[j].fields, UuidFilter(u.uuid))
         <==> KeyOf(s.records[j].fields, ["uuid"]) == KeyOf(UserFields(u), ["uuid"])
    {
      UuidFound(s.records[j].fields, u);
    }
    if k < |s.records| {
      FirstMatchIs(s.records, UuidFilter(u.uuid), k);
    }
  }

  lemma UserRowAfter(s: Store, k: nat, u: User, replies: Replies)
    requires s.Valid() && k <= |s.records|
    requires forall j :: 0 <= j < k ==> !Matches(s.records[j].fields, UuidFilter(u.uuid))
    requires k < |s.records| ==> Matches(s.records[k].fields, UuidFilter(u.uuid))
    ensures var s' := UpsertAt(s, k, UserFields(u), PLAIN, replies).0;
            var stored := if k < |s.records| then s.records[k].fields else map[];
            && UserRow(s', u.uuid) == Some(k)
            && s'.records[k].fields == Overlay(stored, UpdateBody(stored, UserFields(u), PLAIN))
  {
    var stored := if k < |s.records| then s.records[k].fields else map[];
    var s' := UpsertAt(s, k, UserFields(u), PLAIN, replies).0;
    OverNothing(UserFields(u));
    UuidFound(stored, u);
    WriteKeepsKey(stored, UserFields(u), ["uuid"], PLAIN);
    UuidFound(s'.records[k].fields, u);
    FirstMatchIs(s'.records, UuidFilter(u.uuid), k);
  }

  /** What a user's own record write leaves on the first row with the uuid. */
  lemma UserRowWritten(s: Store, u: User, replies: Replies, column: string)
    requires s.Valid()
    ensures var s' := Upsert(s, UserFields(u), USER_QUERY, PLAIN, replies).0;
            var before := match UserRow(s, u.uuid) case None => None case Some(k) => ValueAt(s.records[k].fields, column);
            && UserRow(s', u.uuid).Some?
            && ValueAt(s'.records[UserRow(s', u.uuid).value].fields, column) == Later(before, UserTells(u, column))
  {
    UserSends(u, column);
    var k := UserPosition(s, u, replies);
    UserRowAfter(s, k, u, replies);
    OverlayWrites(if k < |s.records| then s.records[k].fields else map[], UserFields(u), PLAIN);
  }
}
