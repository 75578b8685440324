/** The participant list kept on each meeting's row by the meeting events. */
module Participants {
  import opened Bitable
  import opened Common
  import Decimal

  datatype User = User(uuid: string, userid: string, name: string)

  /** What the writers hand to the meeting table; "" and 0 stand for missing, as both are dropped. */
  datatype MeetingData = MeetingData(
    platform: string, meetingId: string, subMeetingId: string, subject: string, code: string,
    startTime: int, endTime: int, kind: string, participants: Option<seq<string>>, creator: Option<seq<string>>)

  datatype MeetingInfo = MeetingInfo(
    meetingId: string, subMeetingId: string, subject: string, code: string, startTime: int, endTime: int, kind: string)

  const TENCENT := "TENCENT_MEETING"
  const TENCENT_LABEL := "\U{817E}\U{8BAF}\U{4F1A}\U{8BAE}"

  // ---------------------------------------------------------------- requests

  function TextField(name: string, text: string): Fields {
    if text == "" then map[] else map[name := Text(text)]
  }

  function TimeField(name: string, time: int): Fields {
    if time == 0 then map[] else map[name := Number(time)]
  }

  function ListField(name: string, items: Option<seq<string>>): Fields {
    if items.None? then map[] else map[name := List(items.value)]
  }

  function Details(d: MeetingData): Fields {
    TextField("subject", d.subject) + TextField("meeting_code", d.code) + TimeField("start_time", d.startTime)
    + TimeField("end_time", d.endTime) + TextField("meeting_type", d.kind) + ListField("creator", d.creator)
  }

  function MeetingFields(d: MeetingData): Fields {
    Details(d) + map["platform" := Text(d.platform), "meeting_id" := Text(d.meetingId)]
    + TextField("sub_meeting_id", d.subMeetingId) + ListField("participants", d.participants)
  }

  function MatchFields(subMeetingId: string): seq<string> {
    if subMeetingId != "" then ["meeting_id", "sub_meeting_id"] else ["meeting_id"]
  }

  function MeetingQuery(subMeetingId: string): Query {
    Query(MatchFields(subMeetingId), Exact, false)
  }

  const PLAIN := Options(false, [])

  function UpsertMeeting(s: Store, d: MeetingData, replies: Replies): (Store, Result<Upserted>) {
    Upsert(s, MeetingFields(d), MeetingQuery(d.subMeetingId), PLAIN, replies)
  }

  /** The filter of searchMeetingById. */
  function SearchFilter(meetingId: string, subMeetingId: string): Filter {
    Filter(And, [Condition("meeting_id", Is, [meetingId])]
                + if subMeetingId != "" then [Condition("sub_meeting_id", Is, [subMeetingId])] else [])
  }

  function ListOf(fields: Fields): seq<string> {
    if "participants" in fields && fields["participants"].List? then fields["participants"].items else []
  }

  /** The list that updateMeetingParticipants starts from. */
  function ListRead(s: Store, meetingId: string, subMeetingId: string): seq<string> {
    match FirstMatch(s.records, SearchFilter(meetingId, subMeetingId))
    case None => []
    case Some(k) => ListOf(s.records[k].fields)
  }

  /** A record id as the remote side prints it; never empty. */
  function RecordId(id: nat): string {
    "rec" + Decimal.Natural(id)
  }

  function UserFields(u: User): Fields {
    map["uuid" := Text(u.uuid)] + TextField("userid", u.userid) + TextField("user_name", u.name)
    + map["is_enterprise_user" := Flag(u.userid != "")]
  }

  const USER_QUERY := Query(["uuid"], Exact, false)

  function UuidFilter(uuid: string): Filter {
    Filter(And, [Condition("uuid", Is, [uuid])])
  }

  function IdOf(r: Result<Upserted>): Result<string> {
    match r case Success(u) => Success(RecordId(u.recordId)) case Failure(m) => Failure(m)
  }

  /** The user's record id, found by uuid or by writing the record. */
  function EnsureUser(s: Store, u: User, replies: Replies): (Store, Result<string>) {
    match FirstMatch(s.records, UuidFilter(u.uuid))
    case Some(k) => (s, Success(RecordId(s.records[k].id)))
    case None => var (s', r) := Upsert(s, UserFields(u), USER_QUERY, PLAIN, replies); (s', IdOf(r))
  }

  // ---------------------------------------------------------------- events

  datatype World = World(users: Store, meetings: Store)
  datatype Answers = Answers(operator: Replies, creator: Replies, meeting: Replies)

  /** The ids an event names, "" meaning none. */
  function Named(operatorId: string, creatorId: string): seq<string> {
    (if operatorId != "" then [operatorId] else []) + if creatorId != "" then [creatorId] else []
  }

  function EventData(info: MeetingInfo, participants: seq<string>, creatorId: string): MeetingData {
    MeetingData(TENCENT, info.meetingId, info.subMeetingId, info.subject, info.code, info.startTime * 1000,
                info.endTime * 1000, info.kind, Some(participants), Some(if creatorId != "" then [creatorId] else []))
  }

  /** Users after an event, and the ids it names unless a user could not be written. */
  function ResolveUsers(users: Store, operator: Option<User>, creator: User, a: Answers): (Store, Result<(string, string)>) {
    var (users1, op) := if operator.Some? then EnsureUser(users, operator.value, a.operator) else (users, Success(""));
    if op.Failure? then (users1, Failure(op.message))
    else
      var (users2, cr) := EnsureUser(users1, creator, a.creator);
      (users2, match cr case Success(id) => Success((op.value, id)) case Failure(m) => Failure(m))
  }

  function UpdateParticipants(w: World, info: MeetingInfo, operator: Option<User>, creator: User, a: Answers): (World, bool) {
    var (users, ids) := ResolveUsers(w.users, operator, creator, a);
    if ids.Failure? then (World(users, w.meetings), false)
    else
      var listed := ListRead(w.meetings, info.meetingId, info.subMeetingId);
      var participants := FirstOccurrences(listed + Named(ids.value.0, ids.value.1));
      var (meetings, r) := UpsertMeeting(w.meetings, EventData(info, participants, ids.value.1), a.meeting);
      (World(users, meetings), r.Success?)
  }

  class MeetingBitableService {
    const users: RemoteTable
    const meetings: RemoteTable

    constructor ()
      ensures fresh(users) && fresh(meetings) && users != meetings
      ensures users.store == Store([], 0) && meetings.store == Store([], 0)
    {
      users := new RemoteTable();
      meetings := new RemoteTable();
    }

    ghost predicate Valid()
      reads this, users, meetings
    {
      users != meetings && users.store.Valid() && meetings.store.Valid()
    }

    ghost function State(): World
      reads this, users, meetings
    {
      World(users.store, meetings.store)
    }

    method UpsertMeetingUserRecord(u: User, replies: Replies) returns (r: Result<string>)
      requires Valid()
      modifies users
      ensures Valid()
      ensures users.store == Upsert(old(users.store), UserFields(u), USER_QUERY, PLAIN, replies).0
      ensures match (r, Upsert(old(users.store), UserFields(u), USER_QUERY, PLAIN, replies).1)
              case (Success(id), Success(b)) => id == RecordId(b.recordId)
              case (Failure(_), Failure(_)) => true
              case _ => false
    {
      var written := users.UpsertRecord(UserFields(u), USER_QUERY, PLAIN, replies);
      r := IdOf(written);
    }

    method EnsureUserRecord(u: User, replies: Replies) returns (r: Result<string>)
      requires Valid()
      modifies users
      ensures Valid() && users.store == EnsureUser(old(users.store), u, replies).0
      ensures match (r, EnsureUser(old(users.store), u, replies).1)
              case (Success(a), Success(b)) => a == b
              case (Failure(_), Failure(_)) => true
              case _ => false
    {
      var found := users.SearchFirst(UuidFilter(u.uuid));
      if found.Some? {
        return Success(RecordId(found.value.id));
      }
      r := UpsertMeetingUserRecord(u, replies);
    }

    /** The operator's record first, then the creator's; the first that fails stops the event. */
    method EnsureUserRecords(operator: Option<User>, creator: User, a: Answers) returns (r: Result<(string, string)>)
      requires Valid()
      modifies users
      ensures Valid() && users.store == ResolveUsers(old(users.store), operator, creator, a).0
      ensures match (r, ResolveUsers(old(users.store), operator, creator, a).1)
              case (Success(x), Success(y)) => x == y
              case (Failure(_), Failure(_)) => true
              case _ => false
    {
      var operatorId := "";
      if operator.Some? {
        var op := EnsureUserRecord(operator.value, a.operator);
        if op.Failure? {
          return Failure(op.message);
        }
        operatorId := op.value;
      }
      var cr := EnsureUserRecord(creator, a.creator);
      return match cr case Success(id) => Success((operatorId, id)) case Failure(m) => Failure(m);
    }

    method ReadParticipants(meetingId: string, subMeetingId: string) returns (listed: seq<string>)
      ensures listed == ListRead(meetings.store, meetingId, subMeetingId)
    {
      var row := meetings.SearchFirst(SearchFilter(meetingId, subMeetingId));
      listed := if row.Some? then ListOf(row.value.fields) else [];
    }

    method UpsertMeetingRecord(d: MeetingData, replies: Replies) returns (ok: bool)
      requires Valid()
      modifies meetings
      ensures Valid() && meetings.store == UpsertMeeting(old(meetings.store), d, replies).0
      ensures ok == UpsertMeeting(old(meetings.store), d, replies).1.Success?
    {
      var written := meetings.UpsertRecord(MeetingFields(d), MeetingQuery(d.subMeetingId), PLAIN, replies);
      ok := written.Success?;
    }

    method UpdateMeetingParticipants(info: MeetingInfo, operator: Option<User>, creator: User, a: Answers) returns (ok: bool)
      requires Valid()
      modifies users, meetings
      ensures Valid()
      ensures (State(), ok) == UpdateParticipants(old(State()), info, operator, creator, a)
    {
      var listed := ReadParticipants(info.meetingId, info.subMeetingId);
      var ids := EnsureUserRecords(operator, creator, a);
      if ids.Failure? {
        return false;
      }
      var (operatorId, creatorId) := ids.value;
      var participants := listed;
      if operatorId != "" {
        participants := participants + [operatorId];
      }
      if creatorId != "" && creatorId !in participants {
        participants := participants + [creatorId];
      }
      assert participants == Pushed(listed, operatorId, creatorId);
      PushAgainIsIdle(listed, operatorId, creatorId);
      ok := UpsertMeetingRecord(EventData(info, FirstOccurrences(participants), creatorId), a.meeting);
    }
  }

  /** The two pushes of an event, the second behind its membership test. */
  function Pushed(listed: seq<string>, operatorId: string, creatorId: string): seq<string> {
    var participants := if operatorId != "" then listed + [operatorId] else listed;
    if creatorId != "" && creatorId !in participants then participants + [creatorId] else participants
  }

  /** The membership test before the second push saves nothing that the Set would not. */
  lemma PushAgainIsIdle(listed: seq<string>, operatorId: string, creatorId: string)
    ensures FirstOccurrences(Pushed(listed, operatorId, creatorId)) == FirstOccurrences(listed + Named(operatorId, creatorId))
  {
    AppendEach(listed, if operatorId != "" then [operatorId] else [], if creatorId != "" then [creatorId] else []);
    FirstOccurrencesAppend(if operatorId != "" then listed + [operatorId] else listed, creatorId);
  }

  lemma AppendEach<T>(s: seq<T>, a: seq<T>, b: seq<T>)
    ensures s + (a + b) == s + a + b
    ensures b == [] ==> s + a + b == s + a
    ensures a == [] ==> s + a == s
  {
  }
}
