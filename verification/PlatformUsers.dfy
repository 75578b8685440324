/** Platform users and meetings as the meeting events keep them in the relational database. */
module PlatformUsers {
  import opened Common

  const TENCENT_MEETING := "TENCENT_MEETING"
  const ROOT := "__ROOT__"

  /** Nullable columns are options; createdAt, updatedAt and lastSeenAt are milliseconds. */
  datatype User = User(
    id: nat, platform: string, uuid: Option<string>, platformUserId: Option<string>, userName: Option<string>,
    email: Option<string>, platformData: string, isActive: bool, createdAt: int, updatedAt: int, lastSeenAt: int)

  /** What a writer sends; None is `undefined`, which an update leaves unchanged. */
  datatype UserData = UserData(
    platformUserId: Option<string>, userName: Option<string>, email: Option<string>, platformData: Option<string>)

  datatype Status = Pending | Processing | Completed | Failed

  datatype MeetingKey = MeetingKey(platform: string, meetingId: string, subMeetingId: string)

  datatype MeetingData = MeetingData(
    title: string, code: string, kind: string, scheduledStartAt: int, scheduledEndAt: int, startAt: int, endAt: int,
    durationSeconds: int, hasRecording: bool, recordingStatus: Status, processingStatus: Status)

  datatype Meeting = Meeting(
    id: nat, key: MeetingKey, data: MeetingData, createdById: Option<nat>, hostId: Option<nat>,
    createdAt: int, updatedAt: int)

  datatype Db = Db(users: seq<User>, meetings: seq<Meeting>, nextId: nat)

  predicate IsUser(u: User, platform: string, uuid: string) {
    u.platform == platform && u.uuid == Some(uuid)
  }

  /** Position of the first such user, or the number of users. */
  function FindUser(users: seq<User>, platform: string, uuid: string): (k: nat)
    ensures k <= |users| && (k < |users| ==> IsUser(users[k], platform, uuid))
    ensures forall j :: 0 <= j < k ==> !IsUser(users[j], platform, uuid)
  {
    if users == [] then 0
    else
      var n := |users| - 1;
      var k := FindUser(users[..n], platform, uuid);
      if k < n || IsUser(users[n], platform, uuid) then k else n + 1
  }

  function FindMeeting(meetings: seq<Meeting>, key: MeetingKey): (k: nat)
    ensures k <= |meetings| && (k < |meetings| ==> meetings[k].key == key)
    ensures forall j :: 0 <= j < k ==> meetings[j].key != key
  {
    if meetings == [] then 0
    else
      var n := |meetings| - 1;
      var k := FindMeeting(meetings[..n], key);
      if k < n || meetings[n].key == key then k else n + 1
  }

  function Given<T>(sent: Option<T>, stored: Option<T>): Option<T> {
    if sent.Some? then sent else stored
  }

  function Overlaid(u: User, d: UserData, now: int): User {
    u.(platformUserId := Given(d.platformUserId, u.platformUserId), userName := Given(d.userName, u.userName),
       email := Given(d.email, u.email),
       platformData := if d.platformData.Some? then d.platformData.value else u.platformData,
       updatedAt := now, lastSeenAt := now)
  }

  function NewUser(id: nat, platform: string, uuid: string, d: UserData, now: int): User {
    User(id, platform, Some(uuid), d.platformUserId, d.userName, d.email,
         if d.platformData.Some? then d.platformData.value else "{}", true, now, now, now)
  }

  /** Find, then update or create; with the id of the row written. */
  function UpsertUser(db: Db, platform: string, uuid: string, d: UserData, now: int): (Db, nat) {
    var k := FindUser(db.users, platform, uuid);
    if k < |db.users| then (db.(users := db.users[k := Overlaid(db.users[k], d, now)]), db.users[k].id)
    else (db.(users := db.users + [NewUser(db.nextId, platform, uuid, d, now)], nextId := db.nextId + 1), db.nextId)
  }

  function UpsertMeeting(db: Db, key: MeetingKey, d: MeetingData, createdById: nat, hostId: nat, now: int): Db {
    var k := FindMeeting(db.meetings, key);
    if k < |db.meetings| then
      var row := db.meetings[k].(data := d, createdById := Some(createdById), hostId := Some(hostId), updatedAt := now);
      db.(meetings := db.meetings[k := row])
    else
      db.(meetings := db.meetings + [Meeting(db.nextId, key, d, Some(createdById), Some(hostId), now, now)],
          nextId := db.nextId + 1)
  }

  // ---------------------------------------------------------------- events

  datatype Person = Person(uuid: string, userid: Option<string>, name: Option<string>, devices: string)

  datatype MeetingInfo = MeetingInfo(
    meetingId: string, subMeetingId: string, subject: string, code: string, kind: string, startTime: int, endTime: int)

  function KeyOf(info: MeetingInfo): MeetingKey {
    MeetingKey(TENCENT_MEETING, info.meetingId, if info.subMeetingId != "" then info.subMeetingId else ROOT)
  }

  /** Every delivery marks the recording as pending again. */
  function DataOf(info: MeetingInfo): MeetingData {
    MeetingData(info.subject, info.code, info.kind, info.startTime * 1000, info.endTime * 1000,
                info.startTime * 1000, info.endTime * 1000, info.endTime - info.startTime, false, Pending, Pending)
  }

  /** What a meeting event says about its creator. */
  function CreatorData(p: Person): UserData {
    UserData(p.userid, p.name, None, None)
  }

  /** What is written for a person seen on their own; `devices` is the JSON text of the three device ids. */
  function SeenData(p: Person): UserData {
    UserData(p.userid, p.name, None, Some(p.devices))
  }

  function RecordMeeting(db: Db, info: MeetingInfo, creator: Person, now: int): Db {
    var (db1, createdById) := UpsertUser(db, TENCENT_MEETING, creator.uuid, CreatorData(creator), now);
    var (db2, hostId) := UpsertUser(db1, TENCENT_MEETING, creator.uuid, CreatorData(creator), now);
    UpsertMeeting(db2, KeyOf(info), DataOf(info), createdById, hostId, now)
  }

  function RecordPerson(db: Db, p: Person, now: int): Db {
    UpsertUser(db, TENCENT_MEETING, p.uuid, SeenData(p), now).0
  }

  // ---------------------------------------------------------------- the store and its writers

  /** No two rows share an id. */
  ghost predicate DistinctIds(db: Db) {
    && (forall i, j :: 0 <= i < j < |db.users| ==> db.users[i].id != db.users[j].id)
    && (forall i :: 0 <= i < |db.users| ==> db.users[i].id < db.nextId)
  }

  class Prisma {
    var db: Db

    constructor ()
      ensures db == Db([], [], 0)
    {
      db := Db([], [], 0);
    }

    method FindFirstUser(platform: string, uuid: string) returns (u: Option<User>)
      ensures var k := FindUser(db.users, platform, uuid);
              u == if k < |db.users| then Some(db.users[k]) else None
    {
      var k := FindUser(db.users, platform, uuid);
      u := if k < |db.users| then Some(db.users[k]) else None;
    }

    method UpdateUser(id: nat, d: UserData, now: int)
      requires DistinctIds(db)
      modifies this
      ensures DistinctIds(db)
      ensures |db.users| == |old(db).users| && db == old(db).(users := db.users)
      ensures forall i :: 0 <= i < |db.users| ==>
                db.users[i] == if old(db).users[i].id == id then Overlaid(old(db).users[i], d, now) else old(db).users[i]
    {
      var rows := db.users;
      db := db.(users := seq(|rows|, i requires 0 <= i < |rows| =>
                           if rows[i].id == id then Overlaid(rows[i], d, now) else rows[i]));
    }

    method CreateUser(platform: string, uuid: string, d: UserData, now: int) returns (id: nat)
      requires DistinctIds(db)
      modifies this
      ensures DistinctIds(db) && id == old(db).nextId
      ensures db == old(db).(users := old(db).users + [NewUser(id, platform, uuid, d, now)], nextId := id + 1)
    {
      id := db.nextId;
      db := db.(users := db.users + [NewUser(id, platform, uuid, d, now)], nextId := id + 1);
    }

    /** The database's own upsert on the unique meeting key. */
    method WriteMeeting(key: MeetingKey, d: MeetingData, createdById: nat, hostId: nat, now: int)
      requires DistinctIds(db)
      modifies this
      ensures DistinctIds(db) && db == UpsertMeeting(old(db), key, d, createdById, hostId, now)
    {
      db := UpsertMeeting(db, key, d, createdById, hostId, now);
    }
  }

  class PlatformUserRepository {
    const prisma: Prisma

    constructor (prisma: Prisma)
      ensures this.prisma == prisma
    {
      this.prisma := prisma;
    }

    method UpsertPlatformUser(platform: string, uuid: string, d: UserData, now: int) returns (id: nat)
      requires DistinctIds(prisma.db)
      modifies prisma
      ensures DistinctIds(prisma.db)
      ensures (prisma.db, id) == UpsertUser(old(prisma.db), platform, uuid, d, now)
    {
      var existing := prisma.FindFirstUser(platform, uuid);
      if existing.Some? {
        ghost var before := prisma.db;
        prisma.UpdateUser(existing.value.id, d, now);
        assert prisma.db.users == UpsertUser(before, platform, uuid, d, now).0.users;
        return existing.value.id;
      }
      id := prisma.CreateUser(platform, uuid, d, now);
    }
  }

  class TencentMeetingRepository {
    const prisma: Prisma
    const users: PlatformUserRepository

    constructor (prisma: Prisma)
      ensures this.prisma == prisma && users.prisma == prisma
    {
      this.prisma := prisma;
      users := new PlatformUserRepository(prisma);
    }

    method UpsertMeetingWithPlatformUsers(
        key: MeetingKey, d: MeetingData, creatorUuid: string, creatorData: UserData, hostUuid: string, hostData: UserData,
        now: int)
      requires users.prisma == prisma && DistinctIds(prisma.db)
      modifies prisma
      ensures DistinctIds(prisma.db)
      ensures var (db1, createdById) := UpsertUser(old(prisma.db), TENCENT_MEETING, creatorUuid, creatorData, now);
              var (db2, hostId) := UpsertUser(db1, TENCENT_MEETING, hostUuid, hostData, now);
              prisma.db == UpsertMeeting(db2, key, d, createdById, hostId, now)
    {
      var createdById := users.UpsertPlatformUser(TENCENT_MEETING, creatorUuid, creatorData, now);
      var hostId := users.UpsertPlatformUser(TENCENT_MEETING, hostUuid, hostData, now);
      prisma.WriteMeeting(key, d, createdById, hostId, now);
    }
  }

  class MeetingDatabaseService {
    const prisma: Prisma
    const meetings: TencentMeetingRepository
    const users: PlatformUserRepository

    constructor (prisma: Prisma)
      ensures this.prisma == prisma && Wired()
    {
      this.prisma := prisma;
      meetings := new TencentMeetingRepository(prisma);
      users := new PlatformUserRepository(prisma);
    }

    predicate Wired() {
      meetings.prisma == prisma && meetings.users.prisma == prisma && users.prisma == prisma
    }

    method UpsertMeetingRecord(info: MeetingInfo, creator: Person, now: int)
      requires Wired() && DistinctIds(prisma.db)
      modifies prisma
      ensures DistinctIds(prisma.db) && prisma.db == RecordMeeting(old(prisma.db), info, creator, now)
    {
      meetings.UpsertMeetingWithPlatformUsers(
        KeyOf(info), DataOf(info), creator.uuid, CreatorData(creator), creator.uuid, CreatorData(creator), now);
    }

    method UpsertPlatformUser(p: Person, now: int)
      requires Wired() && DistinctIds(prisma.db)
      modifies prisma
      ensures DistinctIds(prisma.db) && prisma.db == RecordPerson(old(prisma.db), p, now)
    {
      var id := users.UpsertPlatformUser(TENCENT_MEETING, p.uuid, SeenData(p), now);
    }
  }
}
