/** What one meeting event does to the participant lists and to the users it names. */
module ParticipantSteps {
  import opened Bitable
  import opened Case
  import opened Common
  import opened Participants

  // ---------------------------------------------------------------- the search and the upsert meet the same row

  function MeetingKey(meetingId: string, subMeetingId: string): seq<Option<seq<string>>> {
    [Some([Lower(meetingId)])] + if subMeetingId != "" then [Some([Lower(subMeetingId)])] else []
  }

  lemma NamesDiffer()
    ensures "meeting_id" != "sub_meeting_id" && "meeting_id" != "participants" && "meeting_id" != "platform"
    ensures "sub_meeting_id" != "participants" && "platform" != "participants"
  {
  }

  const DETAIL_NAMES := {"subject", "meeting_code", "start_time", "end_time", "meeting_type", "creator"}

  lemma NotADetail()
    ensures "participants" !in DETAIL_NAMES && "sub_meeting_id" !in DETAIL_NAMES
  {
    assert "participants"[0] != "meeting_code"[0] && "participants"[0] != "meeting_type"[0];
    assert |"participants"| == 12 && |"sub_meeting_id"| == 14;
  }

  lemma DetailNames(d: MeetingData)
    ensures Details(d).Keys <= DETAIL_NAMES
  {
  }

  lemma ListSent(d: MeetingData)
    ensures var fields := MeetingFields(d);
            if d.participants.Some? then "participants" in fields && fields["participants"] == List(d.participants.value)
            else "participants" !in fields
  {
    NamesDiffer();
    NotADetail();
    DetailNames(d);
  }

  lemma IdsSent(d: MeetingData)
    ensures var fields := MeetingFields(d);
            && "meeting_id" in fields && fields["meeting_id"] == Text(d.meetingId)
            && (d.subMeetingId != "" ==> "sub_meeting_id" in fields && fields["sub_meeting_id"] == Text(d.subMeetingId))
  {
    NamesDiffer();
  }

  lemma MeetingIsKeyed(d: MeetingData)
    ensures Keyed(MeetingFields(d), MatchFields(d.subMeetingId))
    ensures KeyOf(MeetingFields(d), MatchFields(d.subMeetingId)) == MeetingKey(d.meetingId, d.subMeetingId)
  {
    IdsSent(d);
    KeyedByIds(MeetingFields(d), d.meetingId, d.subMeetingId);
  }

  lemma KeyedByIds(fields: Fields, meetingId: string, subMeetingId: string)
    requires "meeting_id" in fields && fields["meeting_id"] == Text(meetingId)
    requires subMeetingId != "" ==> "sub_meeting_id" in fields && fields["sub_meeting_id"] == Text(subMeetingId)
    ensures Keyed(fields, MatchFields(subMeetingId))
    ensures KeyOf(fields, MatchFields(subMeetingId)) == MeetingKey(meetingId, subMeetingId)
  {
    OneLowered(meetingId);
    OneLowered(subMeetingId);
    var mf := MatchFields(subMeetingId);
    assert |mf| == |MeetingKey(meetingId, subMeetingId)| && mf[0] == "meeting_id";
    assert KeyOf(fields, mf)[0] == Some([Lower(meetingId)]);
    assert subMeetingId != "" ==> KeyOf(fields, mf)[1] == Some([Lower(subMeetingId)]);
  }

  lemma OneLowered(s: string)
    ensures LowerAll(Show(Text(s))) == [Lower(s)] == LowerAll([s])
  {
  }

  lemma SearchFindsKey(stored: Fields, meetingId: string, subMeetingId: string)
    ensures Matches(stored, SearchFilter(meetingId, subMeetingId))
       <==> KeyOf(stored, MatchFields(subMeetingId)) == MeetingKey(meetingId, subMeetingId)
  {
    var have, key := KeyOf(stored, MatchFields(subMeetingId)), MeetingKey(meetingId, subMeetingId);
    var first := Condition("meeting_id", Is, [meetingId]);
    var second := Condition("sub_meeting_id", Is, [subMeetingId]);
    OneLowered(meetingId);
    OneLowered(subMeetingId);
    assert Satisfies(stored, first) <==> have[0] == key[0];
    if subMeetingId != "" {
      assert Satisfies(stored, second) <==> have[1] == key[1];
      assert SearchFilter(meetingId, subMeetingId).conditions == [first, second];
    } else {
      assert SearchFilter(meetingId, subMeetingId).conditions == [first];
    }
  }

  /** What a write does, told by the position k at which its search and searchMeetingById both stop. */
  lemma WriteAt(s: Store, d: MeetingData, replies: Replies) returns (k: nat)
    requires s.Valid()
    ensures k <= |s.records|
    ensures forall j :: 0 <= j < k ==> !Matches(s.records[j].fields, SearchFilter(d.meetingId, d.subMeetingId))
    ensures k < |s.records| ==> Matches(s.records[k].fields, SearchFilter(d.meetingId, d.subMeetingId))
    ensures FirstMatch(s.records, SearchFilter(d.meetingId, d.subMeetingId)) == if k < |s.records| then Some(k) else None
    ensures UpsertMeeting(s, d, replies) == UpsertAt(s, k, MeetingFields(d), PLAIN, replies)
  {
    MeetingIsKeyed(d);
    k := UpsertByKey(s, MeetingFields(d), MeetingQuery(d.subMeetingId), PLAIN, replies);
    forall j | 0 <= j < |s.records|
      ensures Matches(s.records[j].fields, SearchFilter(d.meetingId, d.subMeetingId))
         <==> KeyOf(s.records[j].fields, MatchFields(d.subMeetingId)) == MeetingKey(d.meetingId, d.subMeetingId)
    {
      SearchFindsKey(s.records[j].fields, d.meetingId, d.subMeetingId);
    }
    if k < |s.records| {
      FirstMatchIs(s.records, SearchFilter(d.meetingId, d.subMeetingId), k);
    }
  }

  /** The fields a write leaves on the row it found, or creates when `stored` is empty. */
  function Written(stored: Fields, d: MeetingData): Fields {
    Overlay(stored, UpdateBody(stored, MeetingFields(d), PLAIN))
  }

  lemma ListWritten(stored: Fields, d: MeetingData)
    ensures ListOf(Written(stored, d)) == if d.participants.Some? then d.participants.value else ListOf(stored)
    ensures ListOf(FormatFields(MeetingFields(d))) == if d.participants.Some? then d.participants.value else []
  {
    ListSent(d);
    OverlaidField(stored, MeetingFields(d), "participants");
  }

  /** A row written under a key is found by a search of the same kind exactly when that key is searched. */
  lemma KeyWritten(stored: Fields, d: MeetingData, meetingId: string, subMeetingId: string)
    requires d.subMeetingId == "" <==> subMeetingId == ""
    ensures Matches(FormatFields(MeetingFields(d)), SearchFilter(meetingId, subMeetingId))
       <==> MeetingKey(d.meetingId, d.subMeetingId) == MeetingKey(meetingId, subMeetingId)
    ensures Matches(stored, SearchFilter(d.meetingId, d.subMeetingId)) ==>
              (Matches(Written(stored, d), SearchFilter(meetingId, subMeetingId))
               <==> MeetingKey(d.meetingId, d.subMeetingId) == MeetingKey(meetingId, subMeetingId))
  {
    MeetingIsKeyed(d);
    WriteKeepsKey(stored, MeetingFields(d), MatchFields(d.subMeetingId), PLAIN);
    SearchFindsKey(stored, d.meetingId, d.subMeetingId);
    SearchFindsKey(Written(stored, d), meetingId, subMeetingId);
    SearchFindsKey(FormatFields(MeetingFields(d)), meetingId, subMeetingId);
  }

  /** Same-kind reads after a write: the written list under the written key, anything else as before. */
  lemma ReadAfterWrite(s: Store, d: MeetingData, replies: Replies, meetingId: string, subMeetingId: string)
    requires s.Valid() && (d.subMeetingId == "" <==> subMeetingId == "")
    ensures ListRead(UpsertMeeting(s, d, replies).0, meetingId, subMeetingId)
         == if MeetingKey(d.meetingId, d.subMeetingId) == MeetingKey(meetingId, subMeetingId) && d.participants.Some?
            then d.participants.value else ListRead(s, meetingId, subMeetingId)
  {
    var k := WriteAt(s, d, replies);
    if MeetingKey(d.meetingId, d.subMeetingId) == MeetingKey(meetingId, subMeetingId) {
      ReadHere(s, k, d, replies, meetingId, subMeetingId);
    } else {
      ReadElsewhere(s, k, d, replies, meetingId, subMeetingId);
    }
  }

  lemma ReadHere(s: Store, k: nat, d: MeetingData, replies: Replies, meetingId: string, subMeetingId: string)
    requires k <= |s.records|
    requires d.subMeetingId == "" <==> subMeetingId == ""
    requires MeetingKey(d.meetingId, d.subMeetingId) == MeetingKey(meetingId, subMeetingId)
    requires forall j :: 0 <= j < k ==> !Matches(s.records[j].fields, SearchFilter(d.meetingId, d.subMeetingId))
    requires k < |s.records| ==> Matches(s.records[k].fields, SearchFilter(d.meetingId, d.subMeetingId))
    ensures ListRead(UpsertAt(s, k, MeetingFields(d), PLAIN, replies).0, meetingId, subMeetingId)
         == if d.participants.Some? then d.participants.value else ListRead(s, meetingId, subMeetingId)
  {
    var filter := SearchFilter(meetingId, subMeetingId);
    var after := UpsertAt(s, k, MeetingFields(d), PLAIN, replies).0;
    var stored := if k < |s.records| then s.records[k].fields else map[];
    ListWritten(stored, d);
    KeyWritten(stored, d, meetingId, subMeetingId);
    forall j | 0 <= j < |s.records|
      ensures Matches(s.records[j].fields, filter)
         <==> Matches(s.records[j].fields, SearchFilter(d.meetingId, d.subMeetingId))
    {
      SearchFindsKey(s.records[j].fields, meetingId, subMeetingId);
      SearchFindsKey(s.records[j].fields, d.meetingId, d.subMeetingId);
    }
    if k < |s.records| {
      FirstMatchIs(s.records, filter, k);
    }
    assert after.records[k].fields == if k < |s.records| then Written(stored, d) else FormatFields(MeetingFields(d));
    FirstMatchIs(after.records, filter, k);
  }

  /** The rows after a write: row k overlaid, every other one as it was, any new one as sent. */
  lemma RowsAfterWrite(s: Store, k: nat, d: MeetingData, replies: Replies)
    requires k <= |s.records|
    ensures var before, after := s.records, UpsertAt(s, k, MeetingFields(d), PLAIN, replies).0.records;
            && |before| <= |after|
            && (forall j :: 0 <= j < |before| && j != k ==> after[j] == before[j])
            && (k < |before| ==> after[k] == Record(before[k].id, Written(before[k].fields, d)))
            && (forall j :: |before| <= j < |after| ==> after[j].fields == FormatFields(MeetingFields(d)))
  {
  }

  lemma ReadElsewhere(s: Store, k: nat, d: MeetingData, replies: Replies, meetingId: string, subMeetingId: string)
    requires k <= |s.records|
    requires d.subMeetingId == "" <==> subMeetingId == ""
    requires MeetingKey(d.meetingId, d.subMeetingId) != MeetingKey(meetingId, subMeetingId)
    requires k < |s.records| ==> Matches(s.records[k].fields, SearchFilter(d.meetingId, d.subMeetingId))
    ensures ListRead(UpsertAt(s, k, MeetingFields(d), PLAIN, replies).0, meetingId, subMeetingId)
         == ListRead(s, meetingId, subMeetingId)
  {
    var filter := SearchFilter(meetingId, subMeetingId);
    var after := UpsertAt(s, k, MeetingFields(d), PLAIN, replies).0;
    var stored := if k < |s.records| then s.records[k].fields else map[];
    RowsAfterWrite(s, k, d, replies);
    KeyWritten(stored, d, meetingId, subMeetingId);
    if k < |s.records| {
      SearchFindsKey(stored, d.meetingId, d.subMeetingId);
      SearchFindsKey(stored, meetingId, subMeetingId);
    }
    ReadIsStable(s.records, after.records, filter);
  }

  lemma NoSubIdSent(d: MeetingData)
    requires d.subMeetingId == ""
    ensures "sub_meeting_id" !in MeetingFields(d)
  {
    NamesDiffer();
    NotADetail();
    DetailNames(d);
  }

  /** The stored value and the text differ at most in case. */
  predicate Carries(stored: Fields, field: string, text: string) {
    field in stored && LowerAll(Show(stored[field])) == [Lower(text)]
  }

  lemma MatchesIs(stored: Fields, meetingId: string, subMeetingId: string)
    ensures Matches(stored, SearchFilter(meetingId, subMeetingId))
       <==> Carries(stored, "meeting_id", meetingId)
            && (subMeetingId != "" ==> Carries(stored, "sub_meeting_id", subMeetingId))
  {
    OneLowered(meetingId);
    OneLowered(subMeetingId);
    var first := Condition("meeting_id", Is, [meetingId]);
    var second := Condition("sub_meeting_id", Is, [subMeetingId]);
    assert SearchFilter(meetingId, subMeetingId).conditions == if subMeetingId != "" then [first, second] else [first];
    assert Satisfies(stored, first) <==> Carries(stored, "meeting_id", meetingId);
    assert Satisfies(stored, second) <==> Carries(stored, "sub_meeting_id", subMeetingId);
  }

  lemma OverlaidField(stored: Fields, sent: Fields, f: string)
    ensures var after := Overlay(stored, UpdateBody(stored, sent, PLAIN));
            if f in sent && sent[f] != Undefined && sent[f] != Null then f in after && after[f] == sent[f]
            else (f in after <==> f in stored) && (f in stored ==> after[f] == stored[f])
  {
  }

  /** The two ids a write leaves on a row. */
  lemma IdsWritten(stored: Fields, d: MeetingData)
    ensures var after := Written(stored, d);
            && "meeting_id" in after && after["meeting_id"] == Text(d.meetingId)
            && (if d.subMeetingId != "" then "sub_meeting_id" in after && after["sub_meeting_id"] == Text(d.subMeetingId)
                else ("sub_meeting_id" in after <==> "sub_meeting_id" in stored)
                     && ("sub_meeting_id" in stored ==> after["sub_meeting_id"] == stored["sub_meeting_id"]))
  {
    IdsSent(d);
    if d.subMeetingId == "" {
      NoSubIdSent(d);
    }
    OverlaidField(stored, MeetingFields(d), "meeting_id");
    OverlaidField(stored, MeetingFields(d), "sub_meeting_id");
  }

  /** Whatever its kind, a write on the row it found leaves the searches that find that row as they were. */
  lemma WriteKeepsMatches(stored: Fields, d: MeetingData, meetingId: string, subMeetingId: string)
    requires Matches(stored, SearchFilter(d.meetingId, d.subMeetingId))
    ensures Matches(Written(stored, d), SearchFilter(meetingId, subMeetingId))
       <==> Matches(stored, SearchFilter(meetingId, subMeetingId))
  {
    MatchesIs(stored, d.meetingId, d.subMeetingId);
    MatchesIs(stored, meetingId, subMeetingId);
    MatchesIs(Written(stored, d), meetingId, subMeetingId);
    IdsWritten(stored, d);
    OneLowered(d.meetingId);
    OneLowered(d.subMeetingId);
  }

  /** The row that searchMeetingById stops at; empty when there is none. */
  function FieldsRead(s: Store, meetingId: string, subMeetingId: string): Fields {
    match FirstMatch(s.records, SearchFilter(meetingId, subMeetingId))
    case None => map[]
    case Some(k) => s.records[k].fields
  }

  lemma ListIsOfFields(s: Store, meetingId: string, subMeetingId: string)
    ensures ListRead(s, meetingId, subMeetingId) == ListOf(FieldsRead(s, meetingId, subMeetingId))
  {
  }

  /**
   * A meeting that has a row keeps it, and a write changes what is read for it exactly when the write's own search
   * stops at that row: an event without a sub meeting id also lands on the row of a sub meeting if that row comes first.
   */
  lemma ReadAfterAnyWrite(s: Store, d: MeetingData, replies: Replies, meetingId: string, subMeetingId: string)
    requires s.Valid() && FirstMatch(s.records, SearchFilter(meetingId, subMeetingId)).Some?
    ensures var filter, after := SearchFilter(meetingId, subMeetingId), UpsertMeeting(s, d, replies).0;
            var hit := FirstMatch(s.records, filter);
            && FirstMatch(after.records, filter) == hit
            && FieldsRead(after, meetingId, subMeetingId)
                 == if FirstMatch(s.records, SearchFilter(d.meetingId, d.subMeetingId)) == hit
                    then Written(FieldsRead(s, meetingId, subMeetingId), d) else FieldsRead(s, meetingId, subMeetingId)
  {
    var filter := SearchFilter(meetingId, subMeetingId);
    var k := WriteAt(s, d, replies);
    var after := UpsertMeeting(s, d, replies).0.records;
    RowsAfterWrite(s, k, d, replies);
    if k < |s.records| {
      WriteKeepsMatches(s.records[k].fields, d, meetingId, subMeetingId);
    }
    FirstMatchIs(after, filter, FirstMatch(s.records, filter).value);
  }

  // ---------------------------------------------------------------- users

  lemma UserNames()
    ensures "uuid" !in {"userid", "user_name", "is_enterprise_user"}
  {
    assert |"uuid"| == 4;
  }

  /** The row of a user is the first one with the uuid. */
  function UserRow(users: Store, uuid: string): Option<nat> {
    FirstMatch(users.records, UuidFilter(uuid))
  }

  lemma UuidFound(stored: Fields, u: User)
    ensures Keyed(UserFields(u), ["uuid"])
    ensures Matches(stored, UuidFilter(u.uuid)) <==> KeyOf(stored, ["uuid"]) == KeyOf(UserFields(u), ["uuid"])
    ensures Matches(FormatFields(UserFields(u)), UuidFilter(u.uuid))
  {
    UserNames();
    OneLowered(u.uuid);
    var c := Condition("uuid", Is, [u.uuid]);
    var written := FormatFields(UserFields(u));
    assert UserFields(u)["uuid"] == Text(u.uuid) == written["uuid"];
    assert Satisfies(written, c);
    assert KeyOf(UserFields(u), ["uuid"])[0] == Some([Lower(u.uuid)]);
    assert Satisfies(stored, c) <==> KeyOf(stored, ["uuid"])[0] == Some([Lower(u.uuid)]);
    assert UuidFilter(u.uuid).conditions == [c];
  }

  /** Ensuring a user leaves the row that carries the uuid, or appends one. */
  lemma EnsureUserIs(s: Store, u: User, replies: Replies)
    requires s.Valid()
    ensures EnsureUser(s, u, replies).0 == if UserRow(s, u.uuid).Some? then s else s.Inserted(UserFields(u))
    ensures EnsureUser(s, u, replies).1.Success? <==> UserRow(s, u.uuid).Some? || replies.create
    ensures EnsureUser(s, u, replies).1.Success? ==>
              EnsureUser(s, u, replies).1.value
                == RecordId(match UserRow(s, u.uuid) case Some(k) => s.records[k].id case None => s.nextId)
  {
    if UserRow(s, u.uuid).None? {
      UuidFound(map[], u);
      var k := UpsertByKey(s, UserFields(u), USER_QUERY, PLAIN, replies);
      if k < |s.records| {
        UuidFound(s.records[k].fields, u);
        assert false;
      }
    }
  }

  /** Once ensured, a user has a row, and the id given out is that row's. */
  lemma EnsuredUserHasRow(s: Store, u: User, replies: Replies)
    requires s.Valid() && EnsureUser(s, u, replies).1.Success?
    ensures var (s', id) := EnsureUser(s, u, replies);
            && UserRow(s', u.uuid).Some?
            && id.value == RecordId(s'.records[UserRow(s', u.uuid).value].id)
  {
    EnsureUserIs(s, u, replies);
    if UserRow(s, u.uuid).None? {
      UuidFound(map[], u);
      var s' := s.Inserted(UserFields(u));
      FirstMatchIs(s'.records, UuidFilter(u.uuid), |s.records|);
    }
  }

  lemma EnsureKeepsValid(s: Store, u: User, replies: Replies)
    requires s.Valid()
    ensures EnsureUser(s, u, replies).0.Valid()
  {
    EnsureUserIs(s, u, replies);
  }

  function IdOfUser(users: Store, uuid: string): Option<string> {
    match UserRow(users, uuid) case Some(k) => Some(RecordId(users.records[k].id)) case None => None
  }

  lemma EnsuredIdIsTheirs(s: Store, u: User, replies: Replies)
    requires s.Valid()
    ensures var (s', id) := EnsureUser(s, u, replies);
            s'.Valid() && (id.Success? ==> IdOfUser(s', u.uuid) == Some(id.value) && id.value != "")
  {
    EnsureKeepsValid(s, u, replies);
    if EnsureUser(s, u, replies).1.Success? {
      EnsuredUserHasRow(s, u, replies);
    }
  }

  /** Ensuring one user never changes the id of another. */
  lemma IdStays(s: Store, u: User, replies: Replies, uuid: string)
    requires s.Valid() && IdOfUser(s, uuid).Some?
    ensures IdOfUser(EnsureUser(s, u, replies).0, uuid) == IdOfUser(s, uuid)
  {
    EnsureUserIs(s, u, replies);
    var row := UserRow(s, uuid).value;
    var s' := EnsureUser(s, u, replies).0;
    assert s'.records[..|s.records|] == s.records;
    FirstMatchIs(s'.records, UuidFilter(uuid), row);
  }

  /** The ids an event names are, afterwards, those of its operator and its creator. */
  lemma ResolvedIdsAreTheirs(users: Store, operator: Option<User>, creator: User, a: Answers)
    requires users.Valid()
    ensures ResolveUsers(users, operator, creator, a).0.Valid()
    ensures var (users', ids) := ResolveUsers(users, operator, creator, a);
            ids.Success? ==>
              && IdOfUser(users', creator.uuid) == Some(ids.value.1)
              && ids.value.1 != ""
              && (if operator.Some? then IdOfUser(users', operator.value.uuid) == Some(ids.value.0) && ids.value.0 != ""
                  else ids.value.0 == "")
  {
    var (users1, op) := if operator.Some? then EnsureUser(users, operator.value, a.operator) else (users, Success(""));
    if operator.Some? {
      EnsuredIdIsTheirs(users, operator.value, a.operator);
      if op.Success? {
        IdStays(users1, creator, a.creator, operator.value.uuid);
      }
    }
    EnsuredIdIsTheirs(users1, creator, a.creator);
  }

  lemma SameKeySameUser(stored: Fields, stored': Fields, uuid: string)
    requires KeyOf(stored, ["uuid"]) == KeyOf(stored', ["uuid"])
    ensures Matches(stored, UuidFilter(uuid)) <==> Matches(stored', UuidFilter(uuid))
  {
    UuidFound(stored, User(uuid, "", ""));
    UuidFound(stored', User(uuid, "", ""));
  }

  lemma UserRowsKeepKeys(s: Store, u: User, replies: Replies)
    requires s.Valid()
    ensures var s' := Upsert(s, UserFields(u), USER_QUERY, PLAIN, replies).0;
            && s'.Valid() && |s.records| <= |s'.records|
            && forall j :: 0 <= j < |s.records| ==>
                 s'.records[j].id == s.records[j].id
                 && KeyOf(s'.records[j].fields, ["uuid"]) == KeyOf(s.records[j].fields, ["uuid"])
  {
    UuidFound(map[], u);
    UpsertKeys(s, UserFields(u), USER_QUERY, PLAIN, replies);
    var k := UpsertByKey(s, UserFields(u), USER_QUERY, PLAIN, replies);
    var s' := Upsert(s, UserFields(u), USER_QUERY, PLAIN, replies).0;
    forall j | 0 <= j < |s.records|
      ensures KeyOf(s'.records[j].fields, ["uuid"]) == KeyOf(s.records[j].fields, ["uuid"])
    {
      assert Keys(s'.records, ["uuid"])[j] == Keys(s.records, ["uuid"])[j];
    }
  }

  /** Writing a user's record never changes the id another user, or the same one, already has. */
  lemma IdStaysOnUpsert(s: Store, u: User, replies: Replies, uuid: string)
    requires s.Valid() && IdOfUser(s, uuid).Some?
    ensures var s' := Upsert(s, UserFields(u), USER_QUERY, PLAIN, replies).0;
            s'.Valid() && IdOfUser(s', uuid) == IdOfUser(s, uuid)
  {
    UserRowsKeepKeys(s, u, replies);
    var s' := Upsert(s, UserFields(u), USER_QUERY, PLAIN, replies).0;
    forall j | 0 <= j < |s.records|
      ensures Matches(s'.records[j].fields, UuidFilter(uuid)) <==> Matches(s.records[j].fields, UuidFilter(uuid))
    {
      SameKeySameUser(s'.records[j].fields, s.records[j].fields, uuid);
    }
    FirstMatchIs(s'.records, UuidFilter(uuid), UserRow(s, uuid).value);
  }

  // ---------------------------------------------------------------- one event

  /** After an event the meeting's list is the old one followed by whoever it names that was not there yet. */
  lemma EventJoins(w: World, info: MeetingInfo, operator: Option<User>, creator: User, a: Answers)
    requires w.users.Valid() && w.meetings.Valid()
    ensures var (users, ids) := ResolveUsers(w.users, operator, creator, a);
            var w' := UpdateParticipants(w, info, operator, creator, a).0;
            && w'.users == users
            && ListRead(w'.meetings, info.meetingId, info.subMeetingId)
                 == var listed := ListRead(w.meetings, info.meetingId, info.subMeetingId);
                    if ids.Failure? then listed else FirstOccurrences(listed + Named(ids.value.0, ids.value.1))
  {
    var ids := ResolveUsers(w.users, operator, creator, a).1;
    if ids.Success? {
      var listed := ListRead(w.meetings, info.meetingId, info.subMeetingId);
      var ps := FirstOccurrences(listed + Named(ids.value.0, ids.value.1));
      ReadAfterWrite(w.meetings, EventData(info, ps, ids.value.1), a.meeting, info.meetingId, info.subMeetingId);
    }
  }

  /** An event that completes has its operator and its creator on the meeting's list. */
  lemma EventListsOperatorAndCreator(w: World, info: MeetingInfo, operator: Option<User>, creator: User, a: Answers)
    requires w.users.Valid() && w.meetings.Valid()
    ensures var (w', completed) := UpdateParticipants(w, info, operator, creator, a);
            var listed := ListRead(w'.meetings, info.meetingId, info.subMeetingId);
            forall u :: completed && (u == creator || operator == Some(u)) ==>
              IdOfUser(w'.users, u.uuid).Some? && IdOfUser(w'.users, u.uuid).value in listed
  {
    EventJoins(w, info, operator, creator, a);
    ResolvedIdsAreTheirs(w.users, operator, creator, a);
    var ids := ResolveUsers(w.users, operator, creator, a).1;
    if ids.Success? {
      var named := Named(ids.value.0, ids.value.1);
      assert ids.value.1 in named && (operator.Some? ==> ids.value.0 in named);
    }
  }

  /** Whoever is not on the list yet is put at its end. */
  function Behind(listed: seq<string>, id: string): seq<string> {
    if id in listed then listed else listed + [id]
  }

  /** The operator joins before the creator. */
  lemma OperatorJoinsFirst(w: World, info: MeetingInfo, operator: Option<User>, creator: User, a: Answers)
    requires w.users.Valid() && w.meetings.Valid() && UpdateParticipants(w, info, operator, creator, a).1
    requires NoDuplicates(ListRead(w.meetings, info.meetingId, info.subMeetingId))
    ensures var w' := UpdateParticipants(w, info, operator, creator, a).0;
            var listed := ListRead(w.meetings, info.meetingId, info.subMeetingId);
            && IdOfUser(w'.users, creator.uuid).Some? && (operator.Some? ==> IdOfUser(w'.users, operator.value.uuid).Some?)
            && ListRead(w'.meetings, info.meetingId, info.subMeetingId)
               == Behind(if operator.Some? then Behind(listed, IdOfUser(w'.users, operator.value.uuid).value) else listed,
                         IdOfUser(w'.users, creator.uuid).value)
  {
    EventJoins(w, info, operator, creator, a);
    ResolvedIdsAreTheirs(w.users, operator, creator, a);
    var ids := ResolveUsers(w.users, operator, creator, a).1.value;
    NamedJoin(ListRead(w.meetings, info.meetingId, info.subMeetingId), ids.0, ids.1);
  }

  lemma NamedJoin(listed: seq<string>, operatorId: string, creatorId: string)
    requires NoDuplicates(listed) && creatorId != ""
    ensures FirstOccurrences(listed + Named(operatorId, creatorId))
         == Behind(if operatorId != "" then Behind(listed, operatorId) else listed, creatorId)
  {
    var front := if operatorId != "" then listed + [operatorId] else listed;
    assert listed + Named(operatorId, creatorId) == front + [creatorId];
    DistinctIsItself(listed);
    FirstOccurrencesAppend(listed, operatorId);
    FirstOccurrencesAppend(front, creatorId);
  }
}
