/** Meeting events whose read and write of the participant list overlap: whether somebody gets lost. */
module ParticipantRaces {
  import opened Bitable
  import Case
  import opened Common
  import opened Participants
  import opened ParticipantSteps
  import opened ParticipantLists
  import Decimal
  import R = ParticipantRuns

  /** An event between reading the list and writing it. */
  datatype Call = Call(info: MeetingInfo, operator: Option<User>, creator: User, listed: seq<string>)

  datatype State = State(w: World, calls: map<nat, Call>)

  /** Meanwhile: a user record or the meeting write of a recording, which carries no list. */
  datatype Event =
    | Read(call: nat, info: MeetingInfo, operator: Option<User>, creator: User)
    | Write(written: nat, answers: Answers)
    | Drop(dropped: nat)
    | Meanwhile(step: R.Step)

  /** The user calls and the write of an event, with the list it has read. */
  function Written(w: World, c: Call, a: Answers): World {
    var (users, ids) := ResolveUsers(w.users, c.operator, c.creator, a);
    if ids.Failure? then World(users, w.meetings)
    else
      var participants := FirstOccurrences(c.listed + Named(ids.value.0, ids.value.1));
      World(users, UpsertMeeting(w.meetings, EventData(c.info, participants, ids.value.1), a.meeting).0)
  }

  function Next(s: State, e: Event): State {
    match e
    case Read(c, info, operator, creator) =>
      if c in s.calls then s
      else s.(calls := s.calls[c := Call(info, operator, creator, ListRead(s.w.meetings, info.meetingId, info.subMeetingId))])
    case Write(c, a) => if c in s.calls then State(Written(s.w, s.calls[c], a), s.calls - {c}) else s
    case Drop(c) => s.(calls := s.calls - {c})
    case Meanwhile(step) => if step.MeetingStep? then s else s.(w := R.Next(s.w, step))
  }

  function Run(es: seq<Event>): State {
    if es == [] then State(R.START, map[]) else Next(Run(es[..|es| - 1]), es[|es| - 1])
  }

  /** Without anything in between, the two halves are the event. */
  lemma ReadThenWriteIsEvent(s: State, c: nat, info: MeetingInfo, operator: Option<User>, creator: User, a: Answers)
    requires c !in s.calls
    ensures Next(Next(s, Read(c, info, operator, creator)), Write(c, a))
         == State(UpdateParticipants(s.w, info, operator, creator, a).0, s.calls)
  {
    var call := Call(info, operator, creator, ListRead(s.w.meetings, info.meetingId, info.subMeetingId));
    assert s.calls[c := call] - {c} == s.calls;
  }

  /** The events of this meeting between read and write. */
  function InFlight(calls: map<nat, Call>, meetingId: string): set<nat> {
    set c | c in calls && SameId(calls[c].info.meetingId, meetingId)
  }

  /** Never more than n events of any one meeting between read and write. */
  ghost predicate FewInFlight(es: seq<Event>, n: nat) {
    (forall meetingId :: |InFlight(Run(es).calls, meetingId)| <= n) && (es != [] ==> FewInFlight(es[..|es| - 1], n))
  }

  // ---------------------------------------------------------------- events of one meeting that do not overlap

  /** The steps taken, each event at the moment of its write. */
  function StepsOf(es: seq<Event>): seq<R.Step> {
    if es == [] then []
    else
      var front, last := es[..|es| - 1], es[|es| - 1];
      StepsOf(front) + match StepOf(Run(front), last) case Some(step) => [step] case None => []
  }

  function StepOf(s: State, e: Event): Option<R.Step> {
    match e
    case Write(c, a) =>
      if c in s.calls then Some(R.MeetingStep(s.calls[c].info, s.calls[c].operator, s.calls[c].creator, a)) else None
    case Meanwhile(step) => if step.MeetingStep? then None else Some(step)
    case _ => None
  }

  /** What was read is still what a read would find. */
  ghost predicate UpToDate(s: State) {
    forall c :: c in s.calls ==>
      s.calls[c].listed == ListRead(s.w.meetings, s.calls[c].info.meetingId, s.calls[c].info.subMeetingId)
  }

  /** The run so far is the sequential run of its steps, and whoever is in flight is up to date. */
  ghost predicate Sequential(es: seq<Event>) {
    Run(es).w == R.Run(R.START, StepsOf(es)) && UpToDate(Run(es))
  }

  lemma OnlyOne(calls: map<nat, Call>, c: nat, d: nat)
    requires c in calls && d in calls && c != d && |InFlight(calls, calls[c].info.meetingId)| <= 1
    ensures !SameId(calls[c].info.meetingId, calls[d].info.meetingId)
  {
    if SameId(calls[c].info.meetingId, calls[d].info.meetingId) {
      SubsetSize({c, d}, InFlight(calls, calls[c].info.meetingId));
    }
  }

  /** A step of another meeting, or one without a list, leaves what is read for a meeting alone. */
  lemma OtherListStays(steps: seq<R.Step>, step: R.Step, meetingId: string, subMeetingId: string)
    requires step.MeetingStep? ==> !SameId(step.info.meetingId, meetingId)
    ensures var w := R.Run(R.START, steps);
            ListRead(R.Next(w, step).meetings, meetingId, subMeetingId) == ListRead(w.meetings, meetingId, subMeetingId)
  {
    RunFitsFirst(steps, meetingId);
    NextMixed(R.Run(R.START, steps), step, meetingId, FirstSub(R.START, steps, meetingId), subMeetingId);
  }

  lemma RunOneMore(steps: seq<R.Step>, step: R.Step)
    ensures R.Run(R.START, steps + [step]) == R.Next(R.Run(R.START, steps), step)
  {
    assert (steps + [step])[..|steps|] == steps;
  }

  lemma StepTaken(s: State, e: Event)
    requires UpToDate(s)
    ensures Next(s, e).w == match StepOf(s, e) case Some(step) => R.Next(s.w, step) case None => s.w
  {
  }

  lemma {:induction false} RunIsSequential(es: seq<Event>, n: nat)
    requires n <= 1 && FewInFlight(es, n)
    ensures Sequential(es)
  {
    if es != [] {
      var front, e := es[..|es| - 1], es[|es| - 1];
      RunIsSequential(front, n);
      var s, s', steps := Run(front), Run(es), StepsOf(front);
      StepTaken(s, e);
      match StepOf(s, e) {
        case Some(step) => RunOneMore(steps, step);
        case None => assert steps + [] == steps;
      }
      forall c | c in s'.calls && c in s.calls
        ensures s.calls[c].listed == ListRead(s'.w.meetings, s.calls[c].info.meetingId, s.calls[c].info.subMeetingId)
      {
        StaysUpToDate(s, e, c, steps);
      }
    }
  }

  lemma StaysUpToDate(s: State, e: Event, c: nat, steps: seq<R.Step>)
    requires UpToDate(s) && s.w == R.Run(R.START, steps) && c in s.calls && c in Next(s, e).calls
    requires forall meetingId :: |InFlight(s.calls, meetingId)| <= 1
    ensures s.calls[c].listed == ListRead(Next(s, e).w.meetings, s.calls[c].info.meetingId, s.calls[c].info.subMeetingId)
  {
    StepTaken(s, e);
    if StepOf(s, e).Some? {
      if e.Write? {
        OnlyOne(s.calls, e.written, c);
      }
      OtherListStays(steps, StepOf(s, e).value, s.calls[c].info.meetingId, s.calls[c].info.subMeetingId);
    }
  }

  // ---------------------------------------------------------------- lists that only grow

  ghost predicate ListsGrow(before: Store, after: Store) {
    forall meetingId, subMeetingId :: ListRead(before, meetingId, subMeetingId) <= ListRead(after, meetingId, subMeetingId)
  }

  lemma StepGrowsList(steps: seq<R.Step>, step: R.Step, meetingId: string, subMeetingId: string)
    ensures var w := R.Run(R.START, steps);
            ListRead(w.meetings, meetingId, subMeetingId) <= ListRead(R.Next(w, step).meetings, meetingId, subMeetingId)
  {
    var w := R.Run(R.START, steps);
    ListReadIsClean(steps, meetingId, subMeetingId);
    RunFitsFirst(steps, meetingId);
    NextMixed(w, step, meetingId, FirstSub(R.START, steps, meetingId), subMeetingId);
    if step.MeetingStep? {
      R.NamesSomeone(w, step);
    }
    R.JoinedListIsClean(ListRead(w.meetings, meetingId, subMeetingId), R.NamedBy(w, step));
  }

  lemma ListReadIsClean(steps: seq<R.Step>, meetingId: string, subMeetingId: string)
    ensures R.Clean(ListRead(R.Run(R.START, steps).meetings, meetingId, subMeetingId))
  {
    R.RunGrows(R.START, steps);
  }

  lemma StepGrowsLists(steps: seq<R.Step>, step: R.Step)
    ensures var w := R.Run(R.START, steps); ListsGrow(w.meetings, R.Next(w, step).meetings)
  {
    var w := R.Run(R.START, steps);
    forall meetingId, subMeetingId
      ensures ListRead(w.meetings, meetingId, subMeetingId) <= ListRead(R.Next(w, step).meetings, meetingId, subMeetingId)
    {
      StepGrowsList(steps, step, meetingId, subMeetingId);
    }
  }

  lemma {:induction false} ListsGrowBetween(es: seq<Event>, i: nat, n: nat)
    requires n <= 1 && FewInFlight(es, n) && i <= |es|
    ensures ListsGrow(Run(es[..i]).w.meetings, Run(es).w.meetings)
  {
    if i < |es| {
      var front, e := es[..|es| - 1], es[|es| - 1];
      ListsGrowBetween(front, i, n);
      assert front[..i] == es[..i];
      RunIsSequential(front, n);
      StepTaken(Run(front), e);
      if StepOf(Run(front), e).Some? {
        StepGrowsLists(StepsOf(front), StepOf(Run(front), e).value);
      }
    } else {
      assert es[..i] == es;
    }
  }

  // ---------------------------------------------------------------- two events that overlap

  const A := User("a", "", "")
  const B := User("b", "", "")
  const INFO := MeetingInfo("meeting", "", "subject", "", 0, 0, "")

  /** Both have read, and the first has written; then the second writes. */
  const ONE_WRITTEN: seq<Event> := [Read(0, INFO, None, A)] + [Read(1, INFO, None, B)] + [Write(0, ALL_REPLIES)]
  const BOTH_WRITTEN: seq<Event> := ONE_WRITTEN + [Write(1, ALL_REPLIES)]

  function Reader(u: User): Call {
    Call(INFO, None, u, [])
  }

  lemma RunMore(es: seq<Event>, e: Event, n: nat)
    requires n >= 2 && FewInFlight(es, n) && Next(Run(es), e).calls.Keys <= {0, 1}
    ensures FewInFlight(es + [e], n) && Run(es + [e]) == Next(Run(es), e)
  {
    assert (es + [e])[..|es|] == es;
    forall meetingId
      ensures |InFlight(Next(Run(es), e).calls, meetingId)| <= n
    {
      SubsetSize(InFlight(Next(Run(es), e).calls, meetingId), {0, 1});
    }
  }

  lemma ReadBoth(n: nat)
    requires n >= 2
    ensures var es: seq<Event> := [Read(0, INFO, None, A)] + [Read(1, INFO, None, B)];
            FewInFlight(es, n) && Run(es) == State(R.START, map[0 := Reader(A), 1 := Reader(B)])
  {
    assert forall meetingId :: InFlight(map[], meetingId) == {};
    RunMore([], Read(0, INFO, None, A), n);
    assert [] + [Read(0, INFO, None, A)] == [Read(0, INFO, None, A)];
    RunMore([Read(0, INFO, None, A)], Read(1, INFO, None, B), n);
  }

  lemma WriteOne(n: nat)
    requires n >= 2
    ensures FewInFlight(ONE_WRITTEN, n)
    ensures Run(ONE_WRITTEN) == State(Written(R.START, Reader(A), ALL_REPLIES), map[1 := Reader(B)])
  {
    ReadBoth(n);
    RunMore([Read(0, INFO, None, A)] + [Read(1, INFO, None, B)], Write(0, ALL_REPLIES), n);
  }

  lemma WriteBoth(n: nat)
    requires n >= 2
    ensures FewInFlight(BOTH_WRITTEN, n)
    ensures Run(BOTH_WRITTEN) == State(Written(Run(ONE_WRITTEN).w, Reader(B), ALL_REPLIES), map[])
  {
    WriteOne(n);
    RunMore(ONE_WRITTEN, Write(1, ALL_REPLIES), n);
  }

  /** An event that overlaps others writes the list it has read, with whom it names, over theirs. */
  lemma WrittenList(w: World, u: User)
    requires R.Valid(w)
    ensures EnsureUser(w.users, u, ALL_REPLIES.creator).1.Success?
    ensures var (users, id) := EnsureUser(w.users, u, ALL_REPLIES.creator);
            var w' := Written(w, Reader(u), ALL_REPLIES);
            w'.users == users && ListRead(w'.meetings, "meeting", "") == [id.value]
  {
    EnsureUserIs(w.users, u, ALL_REPLIES.creator);
    var (users, id) := EnsureUser(w.users, u, ALL_REPLIES.creator);
    EnsuredIdIsTheirs(w.users, u, ALL_REPLIES.creator);
    assert [] + Named("", id.value) == [id.value] && FirstOccurrences([id.value]) == [id.value];
    ReadAfterWrite(w.meetings, EventData(INFO, [id.value], id.value), ALL_REPLIES.meeting, "meeting", "");
  }

  lemma DifferentUsers()
    ensures !Matches(FormatFields(UserFields(A)), UuidFilter(B.uuid))
  {
    var stored := FormatFields(UserFields(A));
    UuidFound(stored, B);
    UserNames();
    OneLowered("a");
    OneLowered("b");
    assert stored["uuid"] == Text("a") && UserFields(B)["uuid"] == Text("b");
    assert KeyOf(stored, ["uuid"])[0] == Some([Case.Lower("a")]) && KeyOf(UserFields(B), ["uuid"])[0] == Some([Case.Lower("b")]);
    assert Case.Lower("a")[0] == 'a' && Case.Lower("b")[0] == 'b';
  }

  lemma FirstList(n: nat)
    requires n >= 2
    ensures ListRead(Run(ONE_WRITTEN).w.meetings, "meeting", "") == [RecordId(0)]
    ensures R.Valid(Run(ONE_WRITTEN).w) && Run(ONE_WRITTEN).w.users == R.START.users.Inserted(UserFields(A))
  {
    WriteOne(n);
    EnsureUserIs(R.START.users, A, ALL_REPLIES.creator);
    WrittenList(R.START, A);
    R.NextIsValid(R.START, R.MeetingStep(INFO, None, A, ALL_REPLIES));
  }

  /** The second write takes the first one's user off the list. */
  lemma FirstIsLost(n: nat)
    requires n >= 2
    ensures ListRead(Run(ONE_WRITTEN).w.meetings, "meeting", "") == [RecordId(0)]
    ensures ListRead(Run(BOTH_WRITTEN).w.meetings, "meeting", "") == [RecordId(1)]
  {
    FirstList(n);
    WriteBoth(n);
    SecondList(Run(ONE_WRITTEN).w);
  }

  lemma SecondList(w: World)
    requires R.Valid(w) && w.users == R.START.users.Inserted(UserFields(A))
    ensures ListRead(Written(w, Reader(B), ALL_REPLIES).meetings, "meeting", "") == [RecordId(1)]
  {
    SecondUserIsNew(w.users);
    WrittenList(w, B);
  }

  lemma SecondUserIsNew(users: Store)
    requires users == R.START.users.Inserted(UserFields(A)) && users.Valid()
    ensures EnsureUser(users, B, ALL_REPLIES.creator).1 == Success(RecordId(1))
  {
    DifferentUsers();
    EnsureUserIs(users, B, ALL_REPLIES.creator);
  }

  lemma RecordIdsDiffer(i: nat, j: nat)
    requires i != j
    ensures !([RecordId(i)] <= [RecordId(j)])
  {
    Decimal.NaturalsDiffer(i, j);
    assert RecordId(i)[3..] == Decimal.Natural(i) && RecordId(j)[3..] == Decimal.Natural(j);
    assert [RecordId(i)][0] != [RecordId(j)][0];
  }

  // ---------------------------------------------------------------- the condition

  /** With at most n events of each meeting between read and write, no list ever loses or moves anybody. */
  ghost predicate NobodyIsLost(n: nat) {
    forall es, i :: 0 <= i <= |es| && FewInFlight(es, n) ==> ListsGrow(Run(es[..i]).w.meetings, Run(es).w.meetings)
  }

  /** Nobody is lost exactly when events of one meeting do not overlap; those of other meetings may. */
  lemma NobodyIsLostIff(n: nat)
    ensures NobodyIsLost(n) <==> n <= 1
  {
    if n <= 1 {
      forall es, i | 0 <= i <= |es| && FewInFlight(es, n)
        ensures ListsGrow(Run(es[..i]).w.meetings, Run(es).w.meetings)
      {
        ListsGrowBetween(es, i, n);
      }
    } else {
      SomebodyIsLost(n);
    }
  }

  lemma SomebodyIsLost(n: nat)
    requires n >= 2
    ensures !NobodyIsLost(n)
  {
    WriteBoth(n);
    FirstIsLost(n);
    RecordIdsDiffer(0, 1);
    assert !ListsGrow(Run(ONE_WRITTEN).w.meetings, Run(BOTH_WRITTEN).w.meetings);
    assert BOTH_WRITTEN[..3] == ONE_WRITTEN;
  }
}
