/** What every sequential run of user and meeting writes keeps, and what delivering an event again changes. */
module PlatformUserRuns {
  import opened Common
  import opened PlatformUsers

  // ---------------------------------------------------------------- invariant

  predicate SameUser(a: User, b: User) {
    a.uuid.Some? && a.platform == b.platform && a.uuid == b.uuid
  }

  /** At most one user per platform and uuid. */
  ghost predicate UniqueUsers(users: seq<User>) {
    forall i, j :: 0 <= i < j < |users| ==> !SameUser(users[i], users[j])
  }

  ghost predicate UniqueMeetings(meetings: seq<Meeting>) {
    forall i, j :: 0 <= i < j < |meetings| ==> meetings[i].key != meetings[j].key
  }

  predicate HasUser(users: seq<User>, id: nat) {
    exists k :: 0 <= k < |users| && users[k].id == id
  }

  /** Creator and host of the meeting are the same existing user. */
  predicate Linked(users: seq<User>, m: Meeting) {
    m.createdById == m.hostId && m.hostId.Some? && HasUser(users, m.hostId.value)
  }

  ghost predicate Inv(db: Db) {
    && DistinctIds(db)
    && UniqueUsers(db.users)
    && UniqueMeetings(db.meetings)
    && forall j :: 0 <= j < |db.meetings| ==> Linked(db.users, db.meetings[j])
  }

  /** Users keep their place, their id and their identity. */
  ghost predicate UsersStay(before: Db, after: Db) {
    && |before.users| <= |after.users|
    && forall j :: 0 <= j < |before.users| ==>
         after.users[j].id == before.users[j].id
         && after.users[j].platform == before.users[j].platform && after.users[j].uuid == before.users[j].uuid
  }

  lemma UpsertUserKeepsInv(db: Db, platform: string, uuid: string, d: UserData, now: int)
    requires Inv(db)
    ensures var (db', id) := UpsertUser(db, platform, uuid, d, now);
            && Inv(db') && UsersStay(db, db') && db'.meetings == db.meetings
            && FindUser(db'.users, platform, uuid) < |db'.users|
            && db'.users[FindUser(db'.users, platform, uuid)].id == id
  {
    var (db', id) := UpsertUser(db, platform, uuid, d, now);
    var k := FindUser(db.users, platform, uuid);
    assert IsUser(db'.users[k], platform, uuid) && db'.users[k].id == id;
    assert UsersStay(db, db');
    forall i, j | 0 <= i < j < |db'.users|
      ensures !SameUser(db'.users[i], db'.users[j])
    {
      if j == |db.users| {
        assert !IsUser(db.users[i], platform, uuid);
      } else {
        assert !SameUser(db.users[i], db.users[j]);
      }
    }
    forall j | 0 <= j < |db.meetings|
      ensures Linked(db'.users, db.meetings[j])
    {
      LinkStays(db, db', db.meetings[j]);
    }
  }

  lemma LinkStays(before: Db, after: Db, m: Meeting)
    requires UsersStay(before, after) && Linked(before.users, m)
    ensures Linked(after.users, m)
  {
    var k :| 0 <= k < |before.users| && before.users[k].id == m.hostId.value;
    assert after.users[k].id == m.hostId.value;
  }

  lemma UpsertMeetingKeepsInv(db: Db, key: MeetingKey, d: MeetingData, id: nat, now: int)
    requires Inv(db) && HasUser(db.users, id)
    ensures var db' := UpsertMeeting(db, key, d, id, id, now);
            && Inv(db') && db'.users == db.users
            && FindMeeting(db'.meetings, key) < |db'.meetings|
            && db'.meetings[FindMeeting(db'.meetings, key)].hostId == Some(id)
  {
    var db' := UpsertMeeting(db, key, d, id, id, now);
    var k := FindMeeting(db.meetings, key);
    assert db'.meetings[k].key == key && db'.meetings[k].hostId == Some(id);
    forall i, j | 0 <= i < j < |db'.meetings|
      ensures db'.meetings[i].key != db'.meetings[j].key
    {
      if j < |db.meetings| {
        assert db.meetings[i].key != db.meetings[j].key;
      }
    }
  }

  // ---------------------------------------------------------------- runs

  datatype Event =
    | MeetingSeen(info: MeetingInfo, creator: Person)
    | PersonSeen(person: Person)

  function Next(db: Db, e: Event, now: int): Db {
    match e
    case MeetingSeen(info, creator) => RecordMeeting(db, info, creator, now)
    case PersonSeen(p) => RecordPerson(db, p, now)
  }

  /** Events in order of handling, each with its instant. */
  function Run(db: Db, events: seq<(Event, int)>): Db {
    if events == [] then db
    else
      var n := |events| - 1;
      Next(Run(db, events[..n]), events[n].0, events[n].1)
  }

  /** The user a uuid stands for, when there is one. */
  function UserId(db: Db, uuid: string): Option<nat> {
    var k := FindUser(db.users, TENCENT_MEETING, uuid);
    if k < |db.users| then Some(db.users[k].id) else None
  }

  function MeetingOf(db: Db, info: MeetingInfo): Option<Meeting> {
    var k := FindMeeting(db.meetings, KeyOf(info));
    if k < |db.meetings| then Some(db.meetings[k]) else None
  }

  lemma MeetingEventKeepsInv(db: Db, info: MeetingInfo, creator: Person, now: int)
    requires Inv(db)
    ensures var db' := RecordMeeting(db, info, creator, now);
            && Inv(db') && UsersStay(db, db')
            && UserId(db', creator.uuid).Some?
            && MeetingOf(db', info).Some? && MeetingOf(db', info).value.hostId == UserId(db', creator.uuid)
  {
    var d := CreatorData(creator);
    UpsertUserKeepsInv(db, TENCENT_MEETING, creator.uuid, d, now);
    var (db1, id1) := UpsertUser(db, TENCENT_MEETING, creator.uuid, d, now);
    UpsertUserKeepsInv(db1, TENCENT_MEETING, creator.uuid, d, now);
    var (db2, id2) := UpsertUser(db1, TENCENT_MEETING, creator.uuid, d, now);
    assert id1 == id2;
    assert HasUser(db2.users, id2);
    UpsertMeetingKeepsInv(db2, KeyOf(info), DataOf(info), id2, now);
  }

  lemma NextKeepsInv(db: Db, e: Event, now: int)
    requires Inv(db)
    ensures Inv(Next(db, e, now)) && UsersStay(db, Next(db, e, now))
  {
    match e
    case MeetingSeen(info, creator) => MeetingEventKeepsInv(db, info, creator, now);
    case PersonSeen(p) => UpsertUserKeepsInv(db, TENCENT_MEETING, p.uuid, SeenData(p), now);
  }

  lemma {:induction false} RunKeepsInv(db: Db, events: seq<(Event, int)>)
    requires Inv(db)
    ensures Inv(Run(db, events)) && UsersStay(db, Run(db, events))
  {
    if events != [] {
      var n := |events| - 1;
      RunKeepsInv(db, events[..n]);
      NextKeepsInv(Run(db, events[..n]), events[n].0, events[n].1);
    }
  }


  // ---------------------------------------------------------------- who hosts a meeting

  lemma FindUserIs(users: seq<User>, platform: string, uuid: string, k: nat)
    requires UniqueUsers(users) && k < |users| && IsUser(users[k], platform, uuid)
    ensures FindUser(users, platform, uuid) == k
  {
    var h := FindUser(users, platform, uuid);
    assert h < k ==> !SameUser(users[h], users[k]);
  }

  /** A uuid never changes the user it stands for. */
  lemma UserIdStays(before: Db, after: Db, uuid: string)
    requires Inv(before) && Inv(after) && UsersStay(before, after) && UserId(before, uuid).Some?
    ensures UserId(after, uuid) == UserId(before, uuid)
  {
    FindUserIs(after.users, TENCENT_MEETING, uuid, FindUser(before.users, TENCENT_MEETING, uuid));
  }

  lemma OtherMeetingsStay(db: Db, key: MeetingKey, d: MeetingData, id: nat, now: int, other: MeetingKey)
    requires UniqueMeetings(db.meetings) && other != key
    ensures var before, after := db.meetings, UpsertMeeting(db, key, d, id, id, now).meetings;
            var k := FindMeeting(before, other);
            if k < |before| then k < |after| && FindMeeting(after, other) == k && after[k] == before[k]
            else FindMeeting(after, other) == |after|
  {
    var before, after := db.meetings, UpsertMeeting(db, key, d, id, id, now).meetings;
    var k := FindMeeting(before, other);
    assert forall j :: 0 <= j < |before| ==> after[j].key == before[j].key;
    if k < |before| {
      assert after[k].key == other && forall j :: 0 <= j < k ==> after[j].key != other;
    }
  }

  lemma WrittenMeeting(db: Db, key: MeetingKey, d: MeetingData, id: nat, now: int)
    ensures var after := UpsertMeeting(db, key, d, id, id, now).meetings;
            var k := FindMeeting(after, key);
            k < |after| && k == FindMeeting(db.meetings, key) && after[k].data == d && after[k].hostId == Some(id)
  {
    var after := UpsertMeeting(db, key, d, id, id, now).meetings;
    var k := FindMeeting(db.meetings, key);
    assert after[k].key == key && forall j :: 0 <= j < k ==> after[j].key != key;
  }

  /** The latest event about a meeting. */
  function LatestFor(events: seq<(Event, int)>, key: MeetingKey): Option<(MeetingInfo, Person)> {
    if events == [] then None
    else
      var e := events[|events| - 1].0;
      if e.MeetingSeen? && KeyOf(e.info) == key then Some((e.info, e.creator)) else LatestFor(events[..|events| - 1], key)
  }

  /** What one event leaves of a meeting. */
  lemma NextMeeting(db: Db, e: Event, now: int, info: MeetingInfo)
    requires Inv(db)
    ensures var row, row' := MeetingOf(db, info), MeetingOf(Next(db, e, now), info);
            if e.MeetingSeen? && KeyOf(e.info) == KeyOf(info)
            then row'.Some? && row'.value.data == DataOf(e.info)
                 && row'.value.hostId == UserId(Next(db, e, now), e.creator.uuid) && row'.value.hostId.Some?
            else row' == row
  {
    match e
    case PersonSeen(p) =>
    case MeetingSeen(seen, creator) =>
      MeetingEventKeepsInv(db, seen, creator, now);
      var d := CreatorData(creator);
      UpsertUserKeepsInv(db, TENCENT_MEETING, creator.uuid, d, now);
      var (db1, id1) := UpsertUser(db, TENCENT_MEETING, creator.uuid, d, now);
      UpsertUserKeepsInv(db1, TENCENT_MEETING, creator.uuid, d, now);
      var (db2, id2) := UpsertUser(db1, TENCENT_MEETING, creator.uuid, d, now);
      assert id1 == id2;
      if KeyOf(seen) == KeyOf(info) {
        WrittenMeeting(db2, KeyOf(seen), DataOf(seen), id2, now);
      } else {
        OtherMeetingsStay(db2, KeyOf(seen), DataOf(seen), id2, now, KeyOf(info));
      }
  }

  const EMPTY := Db([], [], 0)

  /** The row holds the event's data, and its creator and host are the user of the event's creator. */
  predicate Reflects(db: Db, row: Option<Meeting>, latest: Option<(MeetingInfo, Person)>) {
    match (row, latest)
    case (None, None) => true
    case (Some(m), Some(e)) =>
      m.data == DataOf(e.0) && m.hostId.Some? && m.createdById == m.hostId == UserId(db, e.1.uuid)
    case _ => false
  }

  lemma NextReflects(db: Db, e: Event, now: int, info: MeetingInfo, latest: Option<(MeetingInfo, Person)>)
    requires Inv(db) && Reflects(db, MeetingOf(db, info), latest)
    ensures var here := e.MeetingSeen? && KeyOf(e.info) == KeyOf(info);
            Reflects(Next(db, e, now), MeetingOf(Next(db, e, now), info), if here then Some((e.info, e.creator)) else latest)
  {
    NextKeepsInv(db, e, now);
    NextMeeting(db, e, now, info);
    if MeetingOf(Next(db, e, now), info).Some? {
      LinkedMeeting(Next(db, e, now), info);
    }
    if latest.Some? {
      UserIdStays(db, Next(db, e, now), latest.value.1.uuid);
    }
  }

  /** After any run a meeting has a row exactly when an event told of it, with the latest event's data and creator as host. */
  lemma {:induction false} MeetingIsItsLatestEvent(events: seq<(Event, int)>, info: MeetingInfo)
    ensures Inv(Run(EMPTY, events))
    ensures Reflects(Run(EMPTY, events), MeetingOf(Run(EMPTY, events), info), LatestFor(events, KeyOf(info)))
  {
    if events != [] {
      var n := |events| - 1;
      MeetingIsItsLatestEvent(events[..n], info);
      NextKeepsInv(Run(EMPTY, events[..n]), events[n].0, events[n].1);
      NextReflects(Run(EMPTY, events[..n]), events[n].0, events[n].1, info, LatestFor(events[..n], KeyOf(info)));
    }
  }

  lemma LinkedMeeting(db: Db, info: MeetingInfo)
    requires Inv(db) && MeetingOf(db, info).Some?
    ensures MeetingOf(db, info).value.createdById == MeetingOf(db, info).value.hostId
  {
  }

  // ---------------------------------------------------------------- delivering an event again

  function ErasedUser(u: User): User {
    u.(updatedAt := 0, lastSeenAt := 0)
  }

  function ErasedMeeting(m: Meeting): Meeting {
    m.(updatedAt := 0)
  }

  /** Everything but the timestamps an update sets. */
  function Erased(db: Db): Db {
    Db(seq(|db.users|, i requires 0 <= i < |db.users| => ErasedUser(db.users[i])),
       seq(|db.meetings|, i requires 0 <= i < |db.meetings| => ErasedMeeting(db.meetings[i])), db.nextId)
  }

  /** The row shows everything d sends that `later` does not send over it. */
  predicate Shows(u: User, d: UserData, later: UserData) {
    && (d.platformUserId.Some? && later.platformUserId.None? ==> u.platformUserId == d.platformUserId)
    && (d.userName.Some? && later.userName.None? ==> u.userName == d.userName)
    && (d.email.Some? && later.email.None? ==> u.email == d.email)
    && (d.platformData.Some? && later.platformData.None? ==> Some(u.platformData) == d.platformData)
  }

  const NOTHING := UserData(None, None, None, None)

  /** Sending what is shown already changes only the timestamps, also when the later data is sent after it. */
  lemma ShownChangesNothing(u: User, d: UserData, later: UserData, now: int, now': int)
    ensures Shows(u, d, NOTHING) ==> ErasedUser(Overlaid(u, d, now)) == ErasedUser(u)
    ensures Shows(u, d, later) && Shows(u, later, NOTHING) ==>
              ErasedUser(Overlaid(Overlaid(u, d, now), later, now')) == ErasedUser(u)
  {
  }

  lemma NewUserShows(id: nat, uuid: string, d: UserData, now: int)
    ensures Shows(NewUser(id, TENCENT_MEETING, uuid, d, now), d, NOTHING)
  {
  }

  lemma OverlayOnShown(u: User, d: UserData, later: UserData, now: int)
    requires Shows(u, d, NOTHING)
    ensures Shows(Overlaid(u, later, now), d, later) && Shows(Overlaid(u, later, now), later, NOTHING)
  {
  }

  function PositionOf(db: Db, uuid: string): nat {
    FindUser(db.users, TENCENT_MEETING, uuid)
  }

  predicate HasPerson(db: Db, uuid: string) {
    PositionOf(db, uuid) < |db.users|
  }

  /** Where an upsert leaves its data, and that it leaves every other user alone. */
  lemma UpsertShows(db: Db, uuid: string, d: UserData, now: int)
    requires Inv(db)
    ensures var db' := UpsertUser(db, TENCENT_MEETING, uuid, d, now).0;
            var k := PositionOf(db, uuid);
            && Inv(db') && UsersStay(db, db') && db'.meetings == db.meetings
            && HasPerson(db', uuid) && PositionOf(db', uuid) == k
            && Shows(db'.users[k], d, NOTHING)
            && (k < |db.users| ==> db'.users == db.users[k := Overlaid(db.users[k], d, now)])
            && forall j :: 0 <= j < |db.users| && j != k ==> db'.users[j] == db.users[j]
  {
    UpsertUserKeepsInv(db, TENCENT_MEETING, uuid, d, now);
    var db' := UpsertUser(db, TENCENT_MEETING, uuid, d, now).0;
    var k := PositionOf(db, uuid);
    NewUserShows(db.nextId, uuid, d, now);
    FindUserIs(db'.users, TENCENT_MEETING, uuid, k);
  }

  lemma PositionStays(before: Db, after: Db, uuid: string)
    requires Inv(before) && Inv(after) && UsersStay(before, after) && HasPerson(before, uuid)
    ensures HasPerson(after, uuid) && PositionOf(after, uuid) == PositionOf(before, uuid)
  {
    FindUserIs(after.users, TENCENT_MEETING, uuid, PositionOf(before, uuid));
  }

  /** The database tells all that a meeting event says, as far as `later` does not send over it. */
  ghost predicate Tells(db: Db, info: MeetingInfo, creator: Person, later: UserData) {
    && HasPerson(db, creator.uuid)
    && Shows(db.users[PositionOf(db, creator.uuid)], CreatorData(creator), later)
    && Reflects(db, MeetingOf(db, info), Some((info, creator)))
  }

  lemma MeetingEventTells(db: Db, info: MeetingInfo, creator: Person, now: int)
    requires Inv(db)
    ensures Inv(RecordMeeting(db, info, creator, now)) && Tells(RecordMeeting(db, info, creator, now), info, creator, NOTHING)
  {
    var d := CreatorData(creator);
    UpsertShows(db, creator.uuid, d, now);
    var db1 := UpsertUser(db, TENCENT_MEETING, creator.uuid, d, now).0;
    UpsertShows(db1, creator.uuid, d, now);
    MeetingEventKeepsInv(db, info, creator, now);
    NextMeeting(db, MeetingSeen(info, creator), now, info);
    LinkedMeeting(RecordMeeting(db, info, creator, now), info);
  }

  /** Delivering a meeting event once more overlays its creator again and touches the meeting's update time. */
  lemma MeetingEventAgain(db: Db, info: MeetingInfo, creator: Person, later: UserData, now: int)
    requires Inv(db) && Tells(db, info, creator, later)
    ensures var k, m := PositionOf(db, creator.uuid), FindMeeting(db.meetings, KeyOf(info));
            && m < |db.meetings|
            && RecordMeeting(db, info, creator, now)
               == Db(db.users[k := Overlaid(db.users[k], CreatorData(creator), now)],
                     db.meetings[m := db.meetings[m].(updatedAt := now)], db.nextId)
  {
    var d := CreatorData(creator);
    UpsertShows(db, creator.uuid, d, now);
    var db1 := UpsertUser(db, TENCENT_MEETING, creator.uuid, d, now).0;
    UpsertShows(db1, creator.uuid, d, now);
    var u := db.users[PositionOf(db, creator.uuid)];
    assert Overlaid(Overlaid(u, d, now), d, now) == Overlaid(u, d, now);
  }

  /** Rewriting one user with what it shows and one meeting's update time leaves the rest. */
  lemma OnlyTimesDiffer(db: Db, k: nat, u: User, m: nat, now: int)
    requires k < |db.users| && m < |db.meetings| && ErasedUser(u) == ErasedUser(db.users[k])
    ensures Erased(Db(db.users[k := u], db.meetings[m := db.meetings[m].(updatedAt := now)], db.nextId)) == Erased(db)
  {
    var db' := Db(db.users[k := u], db.meetings[m := db.meetings[m].(updatedAt := now)], db.nextId);
    assert Erased(db').users == Erased(db).users;
    assert Erased(db').meetings == Erased(db).meetings;
  }

  /** An ended event delivered twice leaves what it left the first time, timestamps apart. */
  lemma EndedTwiceIsOnce(db: Db, info: MeetingInfo, creator: Person, now: int, now': int)
    requires Inv(db)
    ensures var once := RecordMeeting(db, info, creator, now);
            Erased(RecordMeeting(once, info, creator, now')) == Erased(once)
  {
    MeetingEventTells(db, info, creator, now);
    ToldAgain(RecordMeeting(db, info, creator, now), info, creator, now');
  }

  lemma ToldAgain(db: Db, info: MeetingInfo, creator: Person, now: int)
    requires Inv(db) && Tells(db, info, creator, NOTHING)
    ensures Erased(RecordMeeting(db, info, creator, now)) == Erased(db)
  {
    var k, m := PositionOf(db, creator.uuid), FindMeeting(db.meetings, KeyOf(info));
    MeetingEventAgain(db, info, creator, NOTHING, now);
    ShownChangesNothing(db.users[k], CreatorData(creator), NOTHING, now, 0);
    OnlyTimesDiffer(db, k, Overlaid(db.users[k], CreatorData(creator), now), m, now);
  }

  /** A started event: the meeting with its creator, then the operator; one after the other. */
  function RecordStarted(db: Db, info: MeetingInfo, creator: Person, operator: Person, now: int): Db {
    RecordPerson(RecordMeeting(db, info, creator, now), operator, now)
  }

  lemma StartedTells(db: Db, info: MeetingInfo, creator: Person, operator: Person, now: int)
    requires Inv(db)
    ensures var db' := RecordStarted(db, info, creator, operator, now);
            && Inv(db') && HasPerson(db', operator.uuid)
            && Shows(db'.users[PositionOf(db', operator.uuid)], SeenData(operator), NOTHING)
            && Tells(db', info, creator, if operator.uuid == creator.uuid then SeenData(operator) else NOTHING)
  {
    var db1 := RecordMeeting(db, info, creator, now);
    MeetingEventTells(db, info, creator, now);
    PersonAfterMeeting(db1, info, creator, operator, now);
  }

  lemma PersonAfterMeeting(db: Db, info: MeetingInfo, creator: Person, operator: Person, now: int)
    requires Inv(db) && Tells(db, info, creator, NOTHING)
    ensures var db' := RecordPerson(db, operator, now);
            && Inv(db') && HasPerson(db', operator.uuid)
            && Shows(db'.users[PositionOf(db', operator.uuid)], SeenData(operator), NOTHING)
            && Tells(db', info, creator, if operator.uuid == creator.uuid then SeenData(operator) else NOTHING)
  {
    var db' := RecordPerson(db, operator, now);
    UpsertShows(db, operator.uuid, SeenData(operator), now);
    PositionStays(db, db', creator.uuid);
    UserIdStays(db, db', creator.uuid);
    OverlayOnShown(db.users[PositionOf(db, creator.uuid)], CreatorData(creator), SeenData(operator), now);
    if operator.uuid != creator.uuid {
      assert PositionOf(db, operator.uuid) != PositionOf(db, creator.uuid);
    }
  }

  /** What a second delivery of a started event writes, row by row. */
  lemma StartedAgain(db: Db, info: MeetingInfo, creator: Person, operator: Person, later: UserData, now: int)
    requires Inv(db) && Tells(db, info, creator, later) && HasPerson(db, operator.uuid)
    ensures var k, h := PositionOf(db, creator.uuid), PositionOf(db, operator.uuid);
            var m := FindMeeting(db.meetings, KeyOf(info));
            var users := db.users[k := Overlaid(db.users[k], CreatorData(creator), now)];
            && m < |db.meetings|
            && RecordStarted(db, info, creator, operator, now)
               == Db(users[h := Overlaid(users[h], SeenData(operator), now)],
                     db.meetings[m := db.meetings[m].(updatedAt := now)], db.nextId)
  {
    var again := RecordMeeting(db, info, creator, now);
    MeetingEventAgain(db, info, creator, later, now);
    MeetingEventKeepsInv(db, info, creator, now);
    PositionStays(db, again, operator.uuid);
  }

  /** A started event told again changes nothing but timestamps, also if operator and creator are one person. */
  lemma StartedTwiceIsOnce(db: Db, info: MeetingInfo, creator: Person, operator: Person, now: int, now': int)
    requires Inv(db)
    ensures var once := RecordStarted(db, info, creator, operator, now);
            Erased(RecordStarted(once, info, creator, operator, now')) == Erased(once)
  {
    StartedTells(db, info, creator, operator, now);
    StartedToldAgain(RecordStarted(db, info, creator, operator, now), info, creator, operator, now');
  }

  lemma StartedToldAgain(db: Db, info: MeetingInfo, creator: Person, operator: Person, now: int)
    requires Inv(db) && HasPerson(db, operator.uuid)
    requires Shows(db.users[PositionOf(db, operator.uuid)], SeenData(operator), NOTHING)
    requires Tells(db, info, creator, if operator.uuid == creator.uuid then SeenData(operator) else NOTHING)
    ensures Erased(RecordStarted(db, info, creator, operator, now)) == Erased(db)
  {
    var k, h := PositionOf(db, creator.uuid), PositionOf(db, operator.uuid);
    var m := FindMeeting(db.meetings, KeyOf(info));
    var c, o := CreatorData(creator), SeenData(operator);
    StartedAgain(db, info, creator, operator, if operator.uuid == creator.uuid then o else NOTHING, now);
    if operator.uuid == creator.uuid {
      OneUserSeenTwice(db, k, c, o, m, now);
    } else {
      TwoUsersSeen(db, k, h, c, o, m, now);
    }
  }

  lemma OneUserSeenTwice(db: Db, k: nat, c: UserData, o: UserData, m: nat, now: int)
    requires k < |db.users| && m < |db.meetings| && Shows(db.users[k], c, o) && Shows(db.users[k], o, NOTHING)
    ensures var users := db.users[k := Overlaid(db.users[k], c, now)];
            Erased(Db(users[k := Overlaid(users[k], o, now)], db.meetings[m := db.meetings[m].(updatedAt := now)], db.nextId))
            == Erased(db)
  {
    var u := Overlaid(db.users[k], c, now);
    ShownChangesNothing(db.users[k], c, o, now, now);
    OnlyTimesDiffer(db, k, Overlaid(u, o, now), m, now);
    assert db.users[k := u][k := Overlaid(u, o, now)] == db.users[k := Overlaid(u, o, now)];
  }

  lemma TwoUsersSeen(db: Db, k: nat, h: nat, c: UserData, o: UserData, m: nat, now: int)
    requires k < |db.users| && h < |db.users| && h != k && m < |db.meetings|
    requires Shows(db.users[k], c, NOTHING) && Shows(db.users[h], o, NOTHING)
    ensures var users := db.users[k := Overlaid(db.users[k], c, now)];
            Erased(Db(users[h := Overlaid(users[h], o, now)], db.meetings[m := db.meetings[m].(updatedAt := now)], db.nextId))
            == Erased(db)
  {
    var u, v := Overlaid(db.users[k], c, now), Overlaid(db.users[h], o, now);
    ShownChangesNothing(db.users[k], c, NOTHING, now, 0);
    ShownChangesNothing(db.users[h], o, NOTHING, now, 0);
    OnlyTimesDiffer(db, h, v, m, now);
    var db1 := Db(db.users[h := v], db.meetings[m := db.meetings[m].(updatedAt := now)], db.nextId);
    OnlyTimesDiffer(db1, k, u, m, now);
    assert db.users[k := u][h := v] == db.users[h := v][k := u];
    assert db1.meetings[m := db1.meetings[m].(updatedAt := now)] == db1.meetings;
  }
}
