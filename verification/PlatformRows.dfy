/** What the rows of meetings and platform users hold: the values of the events themselves, row by row and column by column. */
module PlatformRows {
  import opened Common
  import opened PlatformUsers
  import opened PlatformUserRuns

  type Events = seq<(Event, int)>

  /** A missing sub meeting id is stored as a marker. */
  function Stored(subMeetingId: string): string {
    if subMeetingId == "" then "__ROOT__" else subMeetingId
  }

  /** The event is about this meeting and this stored sub meeting id. */
  predicate About(e: Event, meetingId: string, stored: string) {
    e.MeetingSeen? && e.info.meetingId == meetingId && Stored(e.info.subMeetingId) == stored
  }

  predicate IsRowOf(m: Meeting, meetingId: string, stored: string) {
    m.key.platform == "TENCENT_MEETING" && m.key.meetingId == meetingId && m.key.subMeetingId == stored
  }

  /** The latest event about the pair, with its instant. */
  function Latest(events: Events, meetingId: string, stored: string): Option<(Event, int)> {
    if events == [] then None
    else if About(events[|events| - 1].0, meetingId, stored) then Some(events[|events| - 1])
    else Latest(events[..|events| - 1], meetingId, stored)
  }

  /** The instant of the first event about the pair. */
  function FirstAt(events: Events, meetingId: string, stored: string): Option<int> {
    if events == [] then None
    else
      var before := FirstAt(events[..|events| - 1], meetingId, stored);
      if before.Some? then before
      else if About(events[|events| - 1].0, meetingId, stored) then Some(events[|events| - 1].1) else None
  }

  /** The row's own columns are the event's, times in milliseconds and the duration in seconds. */
  predicate ShowsInfo(d: MeetingData, info: MeetingInfo) {
    && d.title == info.subject && d.code == info.code && d.kind == info.kind
    && d.startAt == d.scheduledStartAt == info.startTime * 1000 && d.endAt == d.scheduledEndAt == info.endTime * 1000
    && d.durationSeconds == info.endTime - info.startTime
    && !d.hasRecording && d.recordingStatus == Pending && d.processingStatus == Pending
  }

  /** The id is that of the user with this uuid. */
  ghost predicate IsIdOf(db: Db, id: Option<nat>, uuid: string) {
    id.Some? && exists k :: 0 <= k < |db.users| && db.users[k].id == id.value
                            && db.users[k].platform == "TENCENT_MEETING" && db.users[k].uuid == Some(uuid)
  }

  ghost predicate ShowsEvent(db: Db, m: Meeting, e: Event, at: int) {
    && e.MeetingSeen? && ShowsInfo(m.data, e.info)
    && IsIdOf(db, m.createdById, e.creator.uuid) && IsIdOf(db, m.hostId, e.creator.uuid) && m.updatedAt == at
  }

  lemma RowIsByKey(m: Meeting, e: Event, meetingId: string, stored: string)
    requires e.MeetingSeen?
    ensures About(e, meetingId, stored) <==> KeyOf(e.info) == MeetingKey(TENCENT_MEETING, meetingId, stored)
    ensures IsRowOf(m, meetingId, stored) <==> m.key == MeetingKey(TENCENT_MEETING, meetingId, stored)
  {
  }

  /** What one upsert of a meeting does to the rows, in any table with unique keys. */
  lemma MeetingUpserted(db: Db, key: MeetingKey, d: MeetingData, creator: nat, host: nat, now: int)
    requires UniqueMeetings(db.meetings)
    ensures var before, after := db.meetings, UpsertMeeting(db, key, d, creator, host, now).meetings;
            var k := FindMeeting(before, key);
            && |after| == (if k < |before| then |before| else |before| + 1) && after[k].key == key && UniqueMeetings(after)
            && after[k].data == d && after[k].createdById == Some(creator) && after[k].hostId == Some(host)
            && after[k].updatedAt == now && after[k].createdAt == (if k < |before| then before[k].createdAt else now)
            && forall j :: 0 <= j < |before| && j != k ==> after[j] == before[j]
  {
    var before, after := db.meetings, UpsertMeeting(db, key, d, creator, host, now).meetings;
    forall i, j | 0 <= i < j < |after|
      ensures after[i].key != after[j].key
    {
      assert j < |before| ==> before[i].key != before[j].key;
    }
  }

  /** The two user upserts of a meeting event leave the meetings alone and give the creator's id both times. */
  lemma CreatorUpserted(db: Db, creator: Person, now: int) returns (db2: Db, id: nat)
    requires Inv(db)
    ensures Inv(db2) && UsersStay(db, db2) && db2.meetings == db.meetings && IsIdOf(db2, Some(id), creator.uuid)
    ensures forall info :: RecordMeeting(db, info, creator, now) == UpsertMeeting(db2, KeyOf(info), DataOf(info), id, id, now)
  {
    var d := CreatorData(creator);
    UpsertUserKeepsInv(db, TENCENT_MEETING, creator.uuid, d, now);
    var (db1, id1) := UpsertUser(db, TENCENT_MEETING, creator.uuid, d, now);
    UpsertUserKeepsInv(db1, TENCENT_MEETING, creator.uuid, d, now);
    db2, id := UpsertUser(db1, TENCENT_MEETING, creator.uuid, d, now).0, id1;
    var k := FindUser(db2.users, TENCENT_MEETING, creator.uuid);
    assert db2.users[k].id == id && IsUser(db2.users[k], TENCENT_MEETING, creator.uuid);
  }

  predicate OneRow(meetings: seq<Meeting>, meetingId: string, stored: string) {
    forall i, j :: 0 <= i < j < |meetings| && IsRowOf(meetings[i], meetingId, stored) ==> !IsRowOf(meetings[j], meetingId, stored)
  }

  predicate HasRow(meetings: seq<Meeting>, meetingId: string, stored: string) {
    exists i :: 0 <= i < |meetings| && IsRowOf(meetings[i], meetingId, stored)
  }

  /** The row shows this event and was created at the first one. */
  ghost predicate RowShows(db: Db, m: Meeting, latest: Option<(Event, int)>, first: Option<int>) {
    latest.Some? && ShowsEvent(db, m, latest.value.0, latest.value.1) && first == Some(m.createdAt)
  }

  /** After these events there is at most one row for the pair, one exactly when an event was about it, showing the latest. */
  ghost predicate RowIsLatest(db: Db, events: Events, meetingId: string, stored: string) {
    && OneRow(db.meetings, meetingId, stored)
    && (HasRow(db.meetings, meetingId, stored) <==> Latest(events, meetingId, stored).Some?)
    && forall i :: 0 <= i < |db.meetings| && IsRowOf(db.meetings[i], meetingId, stored) ==>
         RowShows(db, db.meetings[i], Latest(events, meetingId, stored), FirstAt(events, meetingId, stored))
  }

  lemma IdStaysTheirs(before: Db, after: Db, id: Option<nat>, uuid: string)
    requires UsersStay(before, after) && IsIdOf(before, id, uuid)
    ensures IsIdOf(after, id, uuid)
  {
    var k :| 0 <= k < |before.users| && before.users[k].id == id.value
             && before.users[k].platform == "TENCENT_MEETING" && before.users[k].uuid == Some(uuid);
    assert after.users[k].id == id.value;
  }

  lemma ShownStays(before: Db, after: Db, m: Meeting, e: Event, at: int)
    requires UsersStay(before, after) && ShowsEvent(before, m, e, at)
    ensures ShowsEvent(after, m, e, at)
  {
    IdStaysTheirs(before, after, m.createdById, e.creator.uuid);
    IdStaysTheirs(before, after, m.hostId, e.creator.uuid);
  }

  lemma FirstIffLatest(events: Events, meetingId: string, stored: string)
    ensures FirstAt(events, meetingId, stored).Some? <==> Latest(events, meetingId, stored).Some?
  {
    if events != [] {
      FirstIffLatest(events[..|events| - 1], meetingId, stored);
    }
  }

  /** One more event, about the pair or not. */
  lemma OneMoreEvent(events: Events, e: Event, now: int, meetingId: string, stored: string)
    ensures var more, about := events + [(e, now)], About(e, meetingId, stored);
            && Latest(more, meetingId, stored) == (if about then Some((e, now)) else Latest(events, meetingId, stored))
            && (FirstAt(events, meetingId, stored).Some? || !about ==>
                  FirstAt(more, meetingId, stored) == FirstAt(events, meetingId, stored))
            && (FirstAt(events, meetingId, stored).None? && about ==> FirstAt(more, meetingId, stored) == Some(now))
            && (FirstAt(events, meetingId, stored).Some? <==> Latest(events, meetingId, stored).Some?)
  {
    assert (events + [(e, now)])[..|events|] == events;
    FirstIffLatest(events, meetingId, stored);
  }

  /** An event that is not about the pair leaves its row as it was. */
  lemma AfterOther(before: Db, after: Db, events: Events, e: Event, now: int, meetingId: string, stored: string)
    requires RowIsLatest(before, events, meetingId, stored) && UsersStay(before, after) && !About(e, meetingId, stored)
    requires |before.meetings| <= |after.meetings|
    requires forall i :: 0 <= i < |after.meetings| && IsRowOf(after.meetings[i], meetingId, stored) ==>
               i < |before.meetings| && after.meetings[i] == before.meetings[i]
    requires forall i :: 0 <= i < |before.meetings| && IsRowOf(before.meetings[i], meetingId, stored) ==>
               after.meetings[i] == before.meetings[i]
    ensures RowIsLatest(after, events + [(e, now)], meetingId, stored)
  {
    OneMoreEvent(events, e, now, meetingId, stored);
    forall i | 0 <= i < |after.meetings| && IsRowOf(after.meetings[i], meetingId, stored)
      ensures RowShows(after, after.meetings[i], Latest(events, meetingId, stored), FirstAt(events, meetingId, stored))
    {
      var latest := Latest(events, meetingId, stored).value;
      ShownStays(before, after, before.meetings[i], latest.0, latest.1);
    }
    if HasRow(before.meetings, meetingId, stored) {
      var i :| 0 <= i < |before.meetings| && IsRowOf(before.meetings[i], meetingId, stored);
      assert IsRowOf(after.meetings[i], meetingId, stored);
    }
  }

  /** An event about the pair: its row is the one that is written. */
  lemma AfterOwn(before: Db, after: Db, events: Events, e: Event, now: int, meetingId: string, stored: string, k: nat)
    requires RowIsLatest(before, events, meetingId, stored) && About(e, meetingId, stored)
    requires k < |after.meetings| && ShowsEvent(after, after.meetings[k], e, now)
    requires forall i :: 0 <= i < |after.meetings| ==> (IsRowOf(after.meetings[i], meetingId, stored) <==> i == k)
    requires HasRow(before.meetings, meetingId, stored) <==> k < |before.meetings|
    requires k < |before.meetings| ==>
               IsRowOf(before.meetings[k], meetingId, stored) && after.meetings[k].createdAt == before.meetings[k].createdAt
    requires k >= |before.meetings| ==> after.meetings[k].createdAt == now
    ensures RowIsLatest(after, events + [(e, now)], meetingId, stored)
  {
    OneMoreEvent(events, e, now, meetingId, stored);
  }

  /** A person's event leaves the meetings alone. */
  lemma AfterPerson(db: Db, events: Events, p: Person, now: int, meetingId: string, stored: string)
    requires Inv(db) && RowIsLatest(db, events, meetingId, stored)
    ensures RowIsLatest(RecordPerson(db, p, now), events + [(PersonSeen(p), now)], meetingId, stored)
  {
    UpsertUserKeepsInv(db, TENCENT_MEETING, p.uuid, SeenData(p), now);
    AfterOther(db, RecordPerson(db, p, now), events, PersonSeen(p), now, meetingId, stored);
  }

  /** The rows of the pair after a meeting event: the one with the event's key is written, no other changes. */
  lemma RowsAfterMeeting(db: Db, info: MeetingInfo, creator: Person, now: int, meetingId: string, stored: string)
    returns (k: nat)
    requires Inv(db)
    ensures var e, after := MeetingSeen(info, creator), RecordMeeting(db, info, creator, now);
            && UsersStay(db, after) && k <= |db.meetings|
            && |after.meetings| == (if k < |db.meetings| then |db.meetings| else |db.meetings| + 1)
            && (forall i :: 0 <= i < |after.meetings| && i != k ==>
                  i < |db.meetings| && after.meetings[i] == db.meetings[i])
            && (About(e, meetingId, stored) <==> IsRowOf(after.meetings[k], meetingId, stored))
            && (k < |db.meetings| ==> after.meetings[k].key == db.meetings[k].key
                                      && after.meetings[k].createdAt == db.meetings[k].createdAt)
            && (k >= |db.meetings| ==> after.meetings[k].createdAt == now)
            && UniqueMeetings(after.meetings) && ShowsEvent(after, after.meetings[k], e, now)
  {
    var db2, id := CreatorUpserted(db, creator, now);
    MeetingUpserted(db2, KeyOf(info), DataOf(info), id, id, now);
    k := FindMeeting(db.meetings, KeyOf(info));
    RowIsByKey(RecordMeeting(db, info, creator, now).meetings[k], MeetingSeen(info, creator), meetingId, stored);
    IdStaysTheirs(db2, RecordMeeting(db, info, creator, now), Some(id), creator.uuid);
  }

  lemma AfterMeeting(db: Db, events: Events, info: MeetingInfo, creator: Person, now: int, meetingId: string, stored: string)
    requires Inv(db) && RowIsLatest(db, events, meetingId, stored)
    ensures RowIsLatest(RecordMeeting(db, info, creator, now), events + [(MeetingSeen(info, creator), now)], meetingId, stored)
  {
    var e, after := MeetingSeen(info, creator), RecordMeeting(db, info, creator, now);
    var k := RowsAfterMeeting(db, info, creator, now, meetingId, stored);
    if About(e, meetingId, stored) {
      forall i | 0 <= i < |after.meetings|
        ensures IsRowOf(after.meetings[i], meetingId, stored) <==> i == k
      {
        OneKeyOneRow(after.meetings, i, k, meetingId, stored);
      }
      AfterOwn(db, after, events, e, now, meetingId, stored, k);
    } else {
      AfterOther(db, after, events, e, now, meetingId, stored);
    }
  }

  lemma OneKeyOneRow(meetings: seq<Meeting>, i: nat, k: nat, meetingId: string, stored: string)
    requires UniqueMeetings(meetings) && i < |meetings| && k < |meetings| && IsRowOf(meetings[k], meetingId, stored)
    ensures IsRowOf(meetings[i], meetingId, stored) <==> i == k
  {
  }

  /**
   * After any run from empty: for every meeting id and stored sub meeting id there is one row exactly when an event was
   * about the pair, and it shows the latest one; creator and host are that event's creator.
   */
  lemma {:induction false} RowsAreLatest(events: Events, meetingId: string, stored: string)
    ensures Inv(Run(EMPTY, events)) && RowIsLatest(Run(EMPTY, events), events, meetingId, stored)
  {
    if events != [] {
      var front, last := events[..|events| - 1], events[|events| - 1];
      RowsAreLatest(front, meetingId, stored);
      NextKeepsInv(Run(EMPTY, front), last.0, last.1);
      assert front + [last] == events;
      match last.0
      case MeetingSeen(info, creator) => AfterMeeting(Run(EMPTY, front), front, info, creator, last.1, meetingId, stored);
      case PersonSeen(p) => AfterPerson(Run(EMPTY, front), front, p, last.1, meetingId, stored);
    }
  }

  /** A second event adds a row unless it is about the pair of the only row there is. */
  lemma SecondRow(db: Db, info: MeetingInfo, p: Person, now: int)
    requires Inv(db) && |db.meetings| == 1
    ensures |RecordMeeting(db, info, p, now).meetings|
         == if IsRowOf(db.meetings[0], info.meetingId, Stored(info.subMeetingId)) then 1 else 2
  {
    var l := RowsAfterMeeting(db, info, p, now, info.meetingId, Stored(info.subMeetingId));
    OneKeyOneRow(RecordMeeting(db, info, p, now).meetings, 0, l, info.meetingId, Stored(info.subMeetingId));
  }

  lemma FirstRow(info: MeetingInfo, p: Person, now: int, meetingId: string, stored: string)
    ensures var db := RecordMeeting(EMPTY, info, p, now);
            && Inv(db) && |db.meetings| == 1
            && (IsRowOf(db.meetings[0], meetingId, stored) <==> About(MeetingSeen(info, p), meetingId, stored))
  {
    var k := RowsAfterMeeting(EMPTY, info, p, now, meetingId, stored);
    MeetingEventKeepsInv(EMPTY, info, p, now);
  }

  /** Two events on an empty table share a row exactly when both ids agree, a missing sub meeting id counting as the marker. */
  lemma TwoEventsShareRowIff(a: MeetingInfo, b: MeetingInfo, p: Person, q: Person, now: int, now': int)
    ensures |RecordMeeting(RecordMeeting(EMPTY, a, p, now), b, q, now').meetings|
         == if a.meetingId == b.meetingId && Stored(a.subMeetingId) == Stored(b.subMeetingId) then 1 else 2
  {
    FirstRow(a, p, now, b.meetingId, Stored(b.subMeetingId));
    SecondRow(RecordMeeting(EMPTY, a, p, now), b, q, now');
  }

  // ---------------------------------------------------------------- users

  /** A column keeps what it held unless the event gives a value. */
  predicate Keeps(column: Option<string>, told: Option<string>, before: Option<string>) {
    column == if told.Some? then told else before
  }

  /** The row of a person seen on their own: every column. */
  lemma PersonRow(db: Db, p: Person, now: int)
    requires Inv(db)
    ensures var db', k := RecordPerson(db, p, now), FindUser(db.users, TENCENT_MEETING, p.uuid);
            && k < |db'.users| && db'.meetings == db.meetings
            && (forall j :: 0 <= j < |db.users| && j != k ==> db'.users[j] == db.users[j])
            && var u := db'.users[k];
            && u.platform == "TENCENT_MEETING" && u.uuid == Some(p.uuid) && u.platformData == p.devices
            && u.updatedAt == u.lastSeenAt == now
            && if k < |db.users| then
                 var v := db.users[k];
                 && |db'.users| == |db.users| && u.id == v.id && u.createdAt == v.createdAt && u.isActive == v.isActive
                 && u.email == v.email
                 && Keeps(u.platformUserId, p.userid, v.platformUserId) && Keeps(u.userName, p.name, v.userName)
               else
                 && |db'.users| == |db.users| + 1 && u.id == db.nextId && u.createdAt == now && u.isActive
                 && u.email == None && u.platformUserId == p.userid && u.userName == p.name
  {
  }

  /** The row of a meeting's creator: the same, but the device data stays, or is empty for a new user. */
  lemma CreatorRow(db: Db, info: MeetingInfo, p: Person, now: int)
    requires Inv(db)
    ensures var db', k := RecordMeeting(db, info, p, now), FindUser(db.users, TENCENT_MEETING, p.uuid);
            && k < |db'.users|
            && (forall j :: 0 <= j < |db.users| && j != k ==> db'.users[j] == db.users[j])
            && var u := db'.users[k];
            && u.platform == "TENCENT_MEETING" && u.uuid == Some(p.uuid) && u.updatedAt == u.lastSeenAt == now
            && if k < |db.users| then
                 var v := db.users[k];
                 && |db'.users| == |db.users| && u.id == v.id && u.createdAt == v.createdAt && u.isActive == v.isActive
                 && u.email == v.email && u.platformData == v.platformData
                 && Keeps(u.platformUserId, p.userid, v.platformUserId) && Keeps(u.userName, p.name, v.userName)
               else
                 && |db'.users| == |db.users| + 1 && u.id == db.nextId && u.createdAt == now && u.isActive
                 && u.email == None && u.platformData == "{}" && u.platformUserId == p.userid && u.userName == p.name
  {
    var d := CreatorData(p);
    UpsertUserKeepsInv(db, TENCENT_MEETING, p.uuid, d, now);
    var db1 := UpsertUser(db, TENCENT_MEETING, p.uuid, d, now).0;
    FindUserIs(db1.users, TENCENT_MEETING, p.uuid, FindUser(db.users, TENCENT_MEETING, p.uuid));
  }
}
