/** The remote table and the search-then-update-or-create operation of bitable.service.ts. */
module Bitable {
  import opened Case
  import opened Common
  import Decimal

  // ---------------------------------------------------------------- values and records

  datatype Value =
    | Undefined
    | Null
    | Text(s: string)
    | Number(n: int)
    | Flag(b: bool)
    | List(items: seq<string>)
    | Object(json: string)

  type Fields = map<string, Value>
  datatype Record = Record(id: nat, fields: Fields)

  /** Drops null and undefined values before anything is sent. */
  function FormatFields(fields: Fields): Fields {
    map k | k in fields && fields[k] != Undefined && fields[k] != Null :: fields[k]
  }

  /** A remote update overlays only the fields it is given. */
  function Overlay(stored: Fields, sent: Fields): Fields {
    stored + FormatFields(sent)
  }

  function Show(v: Value): seq<string> {
    match v
    case Undefined => ["undefined"]
    case Null => ["null"]
    case Text(s) => [s]
    case Number(n) => [Decimal.Integer(n)]
    case Flag(b) => [if b then "true" else "false"]
    case List(items) => items
    case Object(json) => [json]
  }

  function LowerAll(ss: seq<string>): seq<string> {
    seq(|ss|, i requires 0 <= i < |ss| => Lower(ss[i]))
  }

  lemma LowerTwice(ss: seq<string>)
    ensures LowerAll(LowerAll(ss)) == LowerAll(ss)
  {
    forall i | 0 <= i < |ss|
      ensures Lower(Lower(ss[i])) == Lower(ss[i])
    {
    }
  }

  // ---------------------------------------------------------------- filters

  datatype Operator = Is | Contains
  datatype Conjunction = And | Or
  datatype Condition = Condition(field: string, operator: Operator, value: seq<string>)
  datatype Filter = Filter(conjunction: Conjunction, conditions: seq<Condition>)

  datatype MatchMode = Exact | Partial | AnyField
  datatype Query = Query(matchFields: seq<string>, mode: MatchMode, caseSensitive: bool)

  function ConditionFor(field: string, v: Value, q: Query): Condition {
    Condition(field, if q.mode == Partial then Contains else Is,
              if q.caseSensitive then Show(v) else LowerAll(Show(v)))
  }

  function ConditionsFor(fields: Fields, matchFields: seq<string>, q: Query): seq<Condition> {
    if matchFields == [] then []
    else
      var n := |matchFields| - 1;
      var f := matchFields[n];
      ConditionsFor(fields, matchFields[..n], q)
      + if f in fields && fields[f] != Undefined then [ConditionFor(f, fields[f], q)] else []
  }

  /** None stands for the error thrown when no match field carries a value. */
  function FilterFor(fields: Fields, q: Query): Option<Filter> {
    var conditions := ConditionsFor(fields, q.matchFields, q);
    if conditions == [] then None
    else Some(Filter(if q.mode == AnyField then Or else And, conditions))
  }

  lemma ConditionsAppend(fields: Fields, matchFields: seq<string>, f: string, q: Query)
    ensures ConditionsFor(fields, matchFields + [f], q)
         == ConditionsFor(fields, matchFields, q)
            + if f in fields && fields[f] != Undefined then [ConditionFor(f, fields[f], q)] else []
  {
    assert (matchFields + [f])[..|matchFields|] == matchFields;
  }

  method BuildSearchFilter(fields: Fields, q: Query) returns (r: Result<Filter>)
    ensures r.Success? <==> exists f :: f in q.matchFields && f in fields && fields[f] != Undefined
    ensures match FilterFor(fields, q) case Some(filter) => r == Success(filter) case None => r.Failure?
    ensures r.Success? ==> Says(r.value, fields, q)
  {
    var conditions: seq<Condition> := [];
    for i := 0 to |q.matchFields|
      invariant conditions == ConditionsFor(fields, q.matchFields[..i], q)
    {
      var f := q.matchFields[i];
      ConditionsAppend(fields, q.matchFields[..i], f, q);
      assert q.matchFields[..i + 1] == q.matchFields[..i] + [f];
      if f in fields && fields[f] != Undefined {
        conditions := conditions + [ConditionFor(f, fields[f], q)];
      }
    }
    assert q.matchFields[..|q.matchFields|] == q.matchFields;
    ConditionsAreMatchFields(fields, q.matchFields, q);
    if |conditions| == 0 {
      return Failure("no valid query condition field");
    }
    FilterSays(fields, q);
    return Success(Filter(if q.mode == AnyField then Or else And, conditions));
  }

  /** The conditions are exactly those of the match fields that carry a value. */
  lemma {:induction false} ConditionsAreMatchFields(fields: Fields, matchFields: seq<string>, q: Query)
    ensures forall c :: c in ConditionsFor(fields, matchFields, q) <==>
              c.field in matchFields && c.field in fields && fields[c.field] != Undefined
              && c == ConditionFor(c.field, fields[c.field], q)
    ensures ConditionsFor(fields, matchFields, q) == [] <==>
              forall f :: f in matchFields ==> !(f in fields && fields[f] != Undefined)
  {
    if matchFields != [] {
      var n := |matchFields| - 1;
      ConditionsAreMatchFields(fields, matchFields[..n], q);
      assert matchFields == matchFields[..n] + [matchFields[n]];
    }
  }

  // ---------------------------------------------------------------- the remote side

  predicate OccursAt(needle: string, hay: string, i: nat) {
    i + |needle| <= |hay| && hay[i..i + |needle|] == needle
  }

  predicate Within(needle: string, hay: string) {
    exists i: nat :: i <= |hay| && OccursAt(needle, hay, i)
  }

  /** The remote operators ignore case; a field without a value satisfies no condition. */
  predicate Satisfies(stored: Fields, c: Condition) {
    && c.field in stored
    && var have, want := LowerAll(Show(stored[c.field])), LowerAll(c.value);
       if c.operator == Is then have == want
       else |have| == |want| && forall i :: 0 <= i < |want| ==> Within(want[i], have[i])
  }

  predicate Matches(stored: Fields, f: Filter) {
    if f.conjunction == And then forall c :: c in f.conditions ==> Satisfies(stored, c)
    else exists c :: c in f.conditions && Satisfies(stored, c)
  }

  /** Position of the first record the search returns. */
  function FirstMatch(records: seq<Record>, f: Filter): (r: Option<nat>)
    ensures r.Some? ==> r.value < |records| && Matches(records[r.value].fields, f)
                        && forall k :: 0 <= k < r.value ==> !Matches(records[k].fields, f)
    ensures r.None? ==> forall k :: 0 <= k < |records| ==> !Matches(records[k].fields, f)
  {
    if records == [] then None
    else
      var n := |records| - 1;
      match FirstMatch(records[..n], f)
      case Some(k) => Some(k)
      case None => if Matches(records[n].fields, f) then Some(n) else None
  }

  lemma FirstMatchIs(records: seq<Record>, f: Filter, k: nat)
    requires k < |records| && Matches(records[k].fields, f)
    requires forall j :: 0 <= j < k ==> !Matches(records[j].fields, f)
    ensures FirstMatch(records, f) == Some(k)
  {
  }

  /** A search depends on the matching records only. */
  lemma ReadIsStable(before: seq<Record>, after: seq<Record>, filter: Filter)
    requires |before| <= |after|
    requires forall j :: 0 <= j < |before| ==>
               (Matches(after[j].fields, filter) <==> Matches(before[j].fields, filter))
               && (Matches(before[j].fields, filter) ==> after[j] == before[j])
    requires forall j :: |before| <= j < |after| ==> !Matches(after[j].fields, filter)
    ensures FirstMatch(after, filter) == FirstMatch(before, filter)
    ensures match FirstMatch(before, filter) case Some(k) => after[k] == before[k] case None => true
  {
    match FirstMatch(before, filter)
    case Some(k) => FirstMatchIs(after, filter, k);
    case None =>
  }

  datatype Store = Store(records: seq<Record>, nextId: nat) {
    ghost predicate Valid() {
      && (forall i, j :: 0 <= i < j < |records| ==> records[i].id != records[j].id)
      && (forall i :: 0 <= i < |records| ==> records[i].id < nextId)
    }

    function Inserted(fields: Fields): Store {
      Store(records + [Record(nextId, FormatFields(fields))], nextId + 1)
    }

    /** Overlays the record with the given id and leaves every other one alone. */
    function Updated(id: nat, sent: Fields): Store {
      Store(seq(|records|, i requires 0 <= i < |records| =>
              if records[i].id == id then Record(id, Overlay(records[i].fields, sent)) else records[i]), nextId)
    }
  }

  // ---------------------------------------------------------------- what a search says and accepts

  /** The conditions name the match fields that carry a value; each asks for the value as it is printed or folded. */
  ghost predicate Says(filter: Filter, fields: Fields, q: Query) {
    && (filter.conjunction == Or <==> q.mode == AnyField)
    && (forall f :: (exists c :: c in filter.conditions && c.field == f) <==>
          f in q.matchFields && f in fields && fields[f] != Undefined)
    && forall c :: c in filter.conditions && c.field in fields ==>
         && (c.operator == Contains <==> q.mode == Partial)
         && |c.value| == |Show(fields[c.field])|
         && forall i :: 0 <= i < |c.value| ==>
              c.value[i] == if q.caseSensitive then Show(fields[c.field])[i] else Lower(Show(fields[c.field])[i])
  }

  lemma FilterSays(fields: Fields, q: Query)
    requires FilterFor(fields, q).Some?
    ensures Says(FilterFor(fields, q).value, fields, q)
  {
    ConditionsAreMatchFields(fields, q.matchFields, q);
    forall f | f in q.matchFields && f in fields && fields[f] != Undefined
      ensures exists c :: c in FilterFor(fields, q).value.conditions && c.field == f
    {
      assert ConditionFor(f, fields[f], q) in FilterFor(fields, q).value.conditions;
    }
  }

  /** The same texts but for upper and lower case. */
  predicate SameText(a: seq<string>, b: seq<string>) {
    |a| == |b| && forall i :: 0 <= i < |a| ==> Lower(a[i]) == Lower(b[i])
  }

  /** Text by text the wanted one is a part of the one there, but for upper and lower case. */
  predicate PartOf(wanted: seq<string>, have: seq<string>) {
    |wanted| == |have| && forall i :: 0 <= i < |wanted| ==> Within(Lower(wanted[i]), Lower(have[i]))
  }

  /** The stored field answers the value asked for: contains it in a partial search, is the same otherwise. */
  predicate Answers(stored: Fields, f: string, v: Value, mode: MatchMode) {
    f in stored && if mode == Partial then PartOf(Show(v), Show(stored[f])) else SameText(Show(v), Show(stored[f]))
  }

  lemma ConditionAnswers(stored: Fields, f: string, v: Value, q: Query)
    ensures Satisfies(stored, ConditionFor(f, v, q)) <==> Answers(stored, f, v, q.mode)
  {
    LowerTwice(Show(v));
    if f in stored {
      var have, want := LowerAll(Show(stored[f])), LowerAll(Show(v));
      assert |have| == |Show(stored[f])| && forall i :: 0 <= i < |have| ==> have[i] == Lower(Show(stored[f])[i]);
      assert |want| == |Show(v)| && forall i :: 0 <= i < |want| ==> want[i] == Lower(Show(v)[i]);
    }
  }

  /** The record answers every match field that carries a value, or any of them in the third mode. */
  ghost predicate Accepts(stored: Fields, fields: Fields, q: Query) {
    if q.mode == AnyField then
      exists f :: f in q.matchFields && f in fields && fields[f] != Undefined && Answers(stored, f, fields[f], q.mode)
    else
      forall f :: f in q.matchFields && f in fields && fields[f] != Undefined ==> Answers(stored, f, fields[f], q.mode)
  }

  lemma SearchAccepts(stored: Fields, fields: Fields, q: Query)
    requires FilterFor(fields, q).Some?
    ensures Matches(stored, FilterFor(fields, q).value) <==> Accepts(stored, fields, q)
  {
    ConditionsAreMatchFields(fields, q.matchFields, q);
    var conditions := ConditionsFor(fields, q.matchFields, q);
    forall f | f in q.matchFields && f in fields && fields[f] != Undefined
      ensures ConditionFor(f, fields[f], q) in conditions
      ensures Satisfies(stored, ConditionFor(f, fields[f], q)) <==> Answers(stored, f, fields[f], q.mode)
    {
      ConditionAnswers(stored, f, fields[f], q);
    }
  }

  lemma FoundWithin(s: string)
    ensures Within(s, s)
  {
    assert OccursAt(s, s, 0);
  }

  /** A partial search finds whatever an exact search for the same fields finds. */
  lemma PartialFindsMore(stored: Fields, fields: Fields, q: Query)
    requires q.mode == Exact && FilterFor(fields, q).Some? && Matches(stored, FilterFor(fields, q).value)
    ensures FilterFor(fields, q.(mode := Partial)).Some?
    ensures Matches(stored, FilterFor(fields, q.(mode := Partial)).value)
  {
    var p := q.(mode := Partial);
    ConditionsAreMatchFields(fields, q.matchFields, q);
    ConditionsAreMatchFields(fields, q.matchFields, p);
    SearchAccepts(stored, fields, q);
    SearchAccepts(stored, fields, p);
    forall f | f in q.matchFields && f in fields && fields[f] != Undefined
      ensures Answers(stored, f, fields[f], Partial)
    {
      assert Answers(stored, f, fields[f], Exact);
      forall i | 0 <= i < |Show(fields[f])|
        ensures Within(Lower(Show(fields[f])[i]), Lower(Show(stored[f])[i]))
      {
        FoundWithin(Lower(Show(fields[f])[i]));
      }
    }
  }

  lemma IntegersDiffer(m: int, n: int)
    requires m != n
    ensures Decimal.Integer(m) != Decimal.Integer(n)
  {
    var a, b := Decimal.Integer(m), Decimal.Integer(n);
    assert m >= 0 ==> '0' <= a[0] <= '9';
    assert n >= 0 ==> '0' <= b[0] <= '9';
    assert m < 0 ==> a[0] == '-' && a[1..] == Decimal.Natural(-m);
    assert n < 0 ==> b[0] == '-' && b[1..] == Decimal.Natural(-n);
    if (m < 0) == (n < 0) {
      Decimal.NaturalsDiffer(if m < 0 then -m else m, if n < 0 then -n else n);
    }
  }

  predicate SameKind(v: Value, w: Value) {
    || (v.Text? && w.Text?) || (v.Number? && w.Number?) || (v.Flag? && w.Flag?) || (v.List? && w.List?)
    || (v.Object? && w.Object?)
  }

  /** Values of one kind are printed alike only when they are the same; a text is printed as it is. */
  lemma PrintsTellApart(v: Value, w: Value)
    requires SameKind(v, w)
    ensures Show(v) == Show(w) <==> v == w
    ensures v.Text? ==> Show(v) == [v.s]
  {
    if v.Number? && v != w {
      IntegersDiffer(v.n, w.n);
    }
    assert "true"[0] != "false"[0];
  }

  // ---------------------------------------------------------------- upsert

  datatype Options = Options(mergeFields: bool, excludeFields: seq<string>)

  /** Whether the update and the create response carry a record. */
  datatype Replies = Replies(update: bool, create: bool)

  datatype Action = Created | Changed
  datatype Upserted = Upserted(action: Action, recordId: nat)

  /** The body of the update request: excluded fields dropped, then merged over what the search returned. */
  function UpdateBody(found: Fields, fields: Fields, opts: Options): Fields {
    (if opts.mergeFields then found else map[]) + (fields - ToSet(opts.excludeFields))
  }

  function Insert(s: Store, fields: Fields, replies: Replies): (Store, Result<Upserted>) {
    (s.Inserted(fields), if replies.create then Success(Upserted(Created, s.nextId)) else Failure("no record returned"))
  }

  function Upsert(s: Store, fields: Fields, q: Query, opts: Options, replies: Replies): (Store, Result<Upserted>) {
    match FilterFor(fields, q)
    case None => (s, Failure("no valid query condition field"))
    case Some(filter) =>
      match FirstMatch(s.records, filter)
      case None => Insert(s, fields, replies)
      case Some(k) =>
        var found := s.records[k];
        var s' := s.Updated(found.id, UpdateBody(found.fields, fields, opts));
        if replies.update then (s', Success(Upserted(Changed, found.id))) else Insert(s', fields, replies)
  }

  method DeleteExcluded(fields: Fields, excluded: seq<string>) returns (r: Fields)
    ensures r == fields - ToSet(excluded)
  {
    r := fields;
    for i := 0 to |excluded|
      invariant r == fields - ToSet(excluded[..i])
    {
      assert ToSet(excluded[..i + 1]) == ToSet(excluded[..i]) + {excluded[i]};
      r := r - {excluded[i]};
    }
    assert excluded[..|excluded|] == excluded;
  }

  class RemoteTable {
    var store: Store

    constructor ()
      ensures store == Store([], 0) && store.Valid()
    {
      store := Store([], 0);
    }

    method SearchFirst(filter: Filter) returns (item: Option<Record>)
      ensures match FirstMatch(store.records, filter)
              case None => item == None
              case Some(k) => item == Some(store.records[k])
    {
      var k := FirstMatch(store.records, filter);
      item := if k.Some? then Some(store.records[k.value]) else None;
    }

    method CreateRecord(fields: Fields, reply: bool) returns (id: Option<nat>)
      requires store.Valid()
      modifies this
      ensures store == old(store).Inserted(fields) && store.Valid()
      ensures id == if reply then Some(old(store).nextId) else None
    {
      id := if reply then Some(store.nextId) else None;
      store := store.Inserted(fields);
    }

    method UpdateRecord(id: nat, fields: Fields, reply: bool) returns (updated: bool)
      requires store.Valid()
      modifies this
      ensures store == old(store).Updated(id, fields) && store.Valid() && updated == reply
    {
      store := store.Updated(id, fields);
      updated := reply;
    }

    method UpsertRecord(fields: Fields, q: Query, opts: Options, replies: Replies) returns (r: Result<Upserted>)
      requires store.Valid()
      modifies this
      ensures store.Valid()
      ensures store == Upsert(old(store), fields, q, opts, replies).0
      ensures match (r, Upsert(old(store), fields, q, opts, replies).1)
              case (Success(a), Success(b)) => a == b
              case (Failure(_), Failure(_)) => true
              case _ => false
    {
      var filter := BuildSearchFilter(fields, q);
      if filter.Failure? {
        return Failure(filter.message);
      }
      var existing := SearchFirst(filter.value);
      if existing.Some? {
        var updateFields := DeleteExcluded(fields, opts.excludeFields);
        if opts.mergeFields {
          updateFields := existing.value.fields + updateFields;
        }
        assert updateFields == UpdateBody(existing.value.fields, fields, opts);
        var updated := UpdateRecord(existing.value.id, updateFields, replies.update);
        if updated {
          return Success(Upserted(Changed, existing.value.id));
        }
      }
      var id := CreateRecord(fields, replies.create);
      if id.Some? {
        return Success(Upserted(Created, id.value));
      }
      return Failure("no record returned");
    }
  }

  // ---------------------------------------------------------------- sequential laws

  /** What the remote `is` compares, match field by match field. */
  function KeyOf(fields: Fields, matchFields: seq<string>): seq<Option<seq<string>>> {
    seq(|matchFields|, i requires 0 <= i < |matchFields| =>
      if matchFields[i] in fields then Some(LowerAll(Show(fields[matchFields[i]]))) else None)
  }

  /** Every match field carries a value that is neither null nor undefined. */
  predicate Keyed(fields: Fields, matchFields: seq<string>) {
    matchFields != [] && forall f :: f in matchFields ==> f in fields && fields[f] != Undefined && fields[f] != Null
  }

  function Keys(records: seq<Record>, matchFields: seq<string>): seq<seq<Option<seq<string>>>> {
    seq(|records|, i requires 0 <= i < |records| => KeyOf(records[i].fields, matchFields))
  }

  /** Records that carry every match field have pairwise different keys. */
  ghost predicate Distinct(keys: seq<seq<Option<seq<string>>>>) {
    forall i, j :: 0 <= i < j < |keys| && None !in keys[i] ==> keys[i] != keys[j]
  }

  /** Per match field the condition compares one component of the key. */
  lemma ConditionComparesKey(stored: Fields, fields: Fields, q: Query, i: nat)
    requires q.mode == Exact && Keyed(fields, q.matchFields) && i < |q.matchFields|
    ensures var f := q.matchFields[i];
            && ConditionFor(f, fields[f], q) in ConditionsFor(fields, q.matchFields, q)
            && (Satisfies(stored, ConditionFor(f, fields[f], q))
                <==> KeyOf(stored, q.matchFields)[i] == KeyOf(fields, q.matchFields)[i])
  {
    ConditionsAreMatchFields(fields, q.matchFields, q);
    LowerTwice(Show(fields[q.matchFields[i]]));
  }

  lemma AllConditionsMeanSameKey(stored: Fields, fields: Fields, q: Query)
    requires q.mode == Exact && Keyed(fields, q.matchFields)
    ensures (forall c :: c in ConditionsFor(fields, q.matchFields, q) ==> Satisfies(stored, c))
       <==> KeyOf(stored, q.matchFields) == KeyOf(fields, q.matchFields)
  {
    var mf := q.matchFields;
    var conditions := ConditionsFor(fields, mf, q);
    var have, want := KeyOf(stored, mf), KeyOf(fields, mf);
    ConditionsAreMatchFields(fields, mf, q);
    forall i | 0 <= i < |mf|
      ensures ConditionFor(mf[i], fields[mf[i]], q) in conditions
      ensures Satisfies(stored, ConditionFor(mf[i], fields[mf[i]], q)) <==> have[i] == want[i]
    {
      ConditionComparesKey(stored, fields, q, i);
    }
    if c :| c in conditions && !Satisfies(stored, c) {
      var i :| 0 <= i < |mf| && mf[i] == c.field;
      assert have[i] != want[i];
    } else {
      assert forall i :: 0 <= i < |mf| ==> have[i] == want[i];
    }
  }

  /** An exact search for keyed fields returns just the records with the same key, whatever caseSensitive says. */
  lemma ExactSearchFindsKey(stored: Fields, fields: Fields, q: Query)
    requires q.mode == Exact && Keyed(fields, q.matchFields)
    ensures FilterFor(fields, q).Some?
    ensures Matches(stored, FilterFor(fields, q).value) <==> KeyOf(stored, q.matchFields) == KeyOf(fields, q.matchFields)
  {
    ConditionsAreMatchFields(fields, q.matchFields, q);
    assert q.matchFields[0] in q.matchFields;
    AllConditionsMeanSameKey(stored, fields, q);
  }

  /** An update sent under a key leaves the record under that key; so does creating it. */
  lemma WriteKeepsKey(stored: Fields, fields: Fields, matchFields: seq<string>, opts: Options)
    requires Keyed(fields, matchFields)
    ensures KeyOf(FormatFields(fields), matchFields) == KeyOf(fields, matchFields)
    ensures KeyOf(stored, matchFields) == KeyOf(fields, matchFields) ==>
              KeyOf(Overlay(stored, UpdateBody(stored, fields, opts)), matchFields) == KeyOf(fields, matchFields)
  {
    if KeyOf(stored, matchFields) == KeyOf(fields, matchFields) {
      var written := Overlay(stored, UpdateBody(stored, fields, opts));
      forall i | 0 <= i < |matchFields|
        ensures KeyOf(written, matchFields)[i] == KeyOf(fields, matchFields)[i]
      {
        assert KeyOf(stored, matchFields)[i] == KeyOf(fields, matchFields)[i];
      }
    }
  }

  /** Ids are unique, so an update touches one position only. */
  lemma UpdatedAt(s: Store, k: nat, sent: Fields)
    requires s.Valid() && k < |s.records|
    ensures var r := s.records[k];
            s.Updated(r.id, sent) == Store(s.records[k := Record(r.id, Overlay(r.fields, sent))], s.nextId)
  {
    var r := s.records[k];
    forall i | 0 <= i < |s.records|
      ensures s.Updated(r.id, sent).records[i] == s.records[k := Record(r.id, Overlay(r.fields, sent))][i]
    {
    }
  }

  /** What an upsert does once its search has stopped at position k. */
  function UpsertAt(s: Store, k: nat, fields: Fields, opts: Options, replies: Replies): (Store, Result<Upserted>) {
    if k < |s.records| then
      var r := s.records[k];
      var s' := Store(s.records[k := Record(r.id, Overlay(r.fields, UpdateBody(r.fields, fields, opts)))], s.nextId);
      if replies.update then (s', Success(Upserted(Changed, r.id))) else Insert(s', fields, replies)
    else Insert(s, fields, replies)
  }

  /** Upsert in terms of keys: the first record with the key is overlaid, or a record is appended. */
  lemma UpsertByKey(s: Store, fields: Fields, q: Query, opts: Options, replies: Replies) returns (k: nat)
    requires s.Valid() && q.mode == Exact && Keyed(fields, q.matchFields)
    ensures k <= |s.records|
    ensures forall j :: 0 <= j < k ==> KeyOf(s.records[j].fields, q.matchFields) != KeyOf(fields, q.matchFields)
    ensures k < |s.records| ==> KeyOf(s.records[k].fields, q.matchFields) == KeyOf(fields, q.matchFields)
    ensures Upsert(s, fields, q, opts, replies) == UpsertAt(s, k, fields, opts, replies)
  {
    ExactSearchFindsKey(fields, fields, q);
    var filter := FilterFor(fields, q).value;
    forall j | 0 <= j < |s.records|
      ensures Matches(s.records[j].fields, filter)
         <==> KeyOf(s.records[j].fields, q.matchFields) == KeyOf(fields, q.matchFields)
    {
      ExactSearchFindsKey(s.records[j].fields, fields, q);
    }
    match FirstMatch(s.records, filter)
    case None => k := |s.records|;
    case Some(hit) =>
      k := hit;
      UpdatedAt(s, k, UpdateBody(s.records[k].fields, fields, opts));
  }

  /** In every mode: the first record that the search accepts is overlaid, or a record is appended. */
  lemma UpsertFirstAccepted(s: Store, fields: Fields, q: Query, opts: Options, replies: Replies) returns (k: nat)
    requires s.Valid() && exists f :: f in q.matchFields && f in fields && fields[f] != Undefined
    ensures k <= |s.records| && (k < |s.records| ==> Accepts(s.records[k].fields, fields, q))
    ensures forall j :: 0 <= j < k ==> !Accepts(s.records[j].fields, fields, q)
    ensures Upsert(s, fields, q, opts, replies) == UpsertAt(s, k, fields, opts, replies)
  {
    ConditionsAreMatchFields(fields, q.matchFields, q);
    var filter := FilterFor(fields, q).value;
    forall j | 0 <= j < |s.records|
      ensures Matches(s.records[j].fields, filter) <==> Accepts(s.records[j].fields, fields, q)
    {
      SearchAccepts(s.records[j].fields, fields, q);
    }
    match FirstMatch(s.records, filter)
    case None => k := |s.records|;
    case Some(hit) =>
      k := hit;
      UpdatedAt(s, k, UpdateBody(s.records[k].fields, fields, opts));
  }

  /** Merging the found fields into the request changes nothing under an overlay update. */
  lemma MergeMakesNoDifference(stored: Fields, fields: Fields, excluded: seq<string>)
    ensures Overlay(stored, UpdateBody(stored, fields, Options(true, excluded)))
         == Overlay(stored, UpdateBody(stored, fields, Options(false, excluded)))
  {
  }

  /** Over nothing an update leaves what a creation does. */
  lemma OverNothing(fields: Fields)
    ensures Overlay(map[], UpdateBody(map[], fields, Options(false, []))) == FormatFields(fields)
  {
    assert UpdateBody(map[], fields, Options(false, [])) == fields;
  }

  /** What a field holds, None when it holds nothing. */
  function ValueAt(fields: Fields, f: string): Option<Value> {
    if f in fields then Some(fields[f]) else None
  }

  /** The value a request carries for f, unless it is dropped before sending. */
  function Sent(fields: Fields, f: string): Option<Value> {
    if f in fields && fields[f] != Undefined && fields[f] != Null then Some(fields[f]) else None
  }

  /** The record at p, and no other, takes the values sent and keeps the rest. */
  ghost predicate OnlyWrote(before: seq<Record>, after: seq<Record>, p: nat, fields: Fields, excluded: seq<string>) {
    && |after| == |before| && p < |after| && after[p].id == before[p].id
    && (forall j :: 0 <= j < |before| && j != p ==> after[j] == before[j])
    && forall f :: ValueAt(after[p].fields, f)
         == if f !in excluded && Sent(fields, f).Some? then Sent(fields, f) else ValueAt(before[p].fields, f)
  }

  /** A reported update wrote the values sent to one record, whatever mergeFields says; a reported creation only appended one. */
  lemma UpsertWrites(s: Store, fields: Fields, q: Query, opts: Options, replies: Replies) returns (p: nat)
    requires s.Valid() && replies.update && Upsert(s, fields, q, opts, replies).1.Success?
    ensures var (s', r) := Upsert(s, fields, q, opts, replies);
            && p < |s'.records| && s'.records[p].id == r.value.recordId
            && match r.value.action
               case Changed => OnlyWrote(s.records, s'.records, p, fields, opts.excludeFields)
               case Created => p == |s.records| && s'.records[..p] == s.records && |s'.records| == p + 1
                               && forall f :: ValueAt(s'.records[p].fields, f) == Sent(fields, f)
  {
    ConditionsAreMatchFields(fields, q.matchFields, q);
    p := UpsertFirstAccepted(s, fields, q, opts, replies);
    if p < |s.records| {
      OverlayWrites(s.records[p].fields, fields, opts);
    }
  }

  lemma OverlayWrites(stored: Fields, fields: Fields, opts: Options)
    ensures var after := Overlay(stored, UpdateBody(stored, fields, opts));
            forall f :: ValueAt(after, f)
              == if f !in opts.excludeFields && Sent(fields, f).Some? then Sent(fields, f) else ValueAt(stored, f)
  {
  }

  lemma UpsertAtKeys(s: Store, k: nat, fields: Fields, opts: Options, replies: Replies, matchFields: seq<string>)
    requires s.Valid() && Keyed(fields, matchFields)
    requires k < |s.records| ==> KeyOf(s.records[k].fields, matchFields) == KeyOf(fields, matchFields)
    ensures var keys, key := Keys(s.records, matchFields), KeyOf(fields, matchFields);
            Keys(UpsertAt(s, k, fields, opts, replies).0.records, matchFields)
              == if k < |s.records| && replies.update then keys else keys + [key]
  {
    var stored := if k < |s.records| then s.records[k].fields else map[];
    WriteKeepsKey(stored, fields, matchFields, opts);
    var written := Overlay(stored, UpdateBody(stored, fields, opts));
    if k < |s.records| {
      var r := Record(s.records[k].id, written);
      assert Keys(s.records[k := r], matchFields) == Keys(s.records, matchFields);
    }
  }

  /** An upsert keeps every key in place, or appends the key it was sent. */
  lemma UpsertKeys(s: Store, fields: Fields, q: Query, opts: Options, replies: Replies)
    requires s.Valid() && q.mode == Exact && Keyed(fields, q.matchFields)
    ensures Upsert(s, fields, q, opts, replies).0.Valid()
    ensures var keys, key := Keys(s.records, q.matchFields), KeyOf(fields, q.matchFields);
            None !in key && Keys(Upsert(s, fields, q, opts, replies).0.records, q.matchFields)
              == if key in keys && replies.update then keys else keys + [key]
  {
    var keys, key := Keys(s.records, q.matchFields), KeyOf(fields, q.matchFields);
    var k := UpsertByKey(s, fields, q, opts, replies);
    UpsertAtKeys(s, k, fields, opts, replies, q.matchFields);
    FirstAt(keys, k, key);
  }

  lemma FirstAt<T>(s: seq<T>, k: nat, x: T)
    requires k <= |s| && (forall j :: 0 <= j < k ==> s[j] != x) && (k < |s| ==> s[k] == x)
    ensures x in s <==> k < |s|
  {
  }

  lemma DistinctAppend(keys: seq<seq<Option<seq<string>>>>, key: seq<Option<seq<string>>>)
    requires Distinct(keys) && None !in key
    ensures Distinct(keys + [key]) <==> key !in keys
  {
    var longer := keys + [key];
    if key in keys {
      var i :| 0 <= i < |keys| && keys[i] == key;
      assert longer[i] == longer[|keys|];
    } else {
      forall i, j | 0 <= i < j < |longer| && None !in longer[i]
        ensures longer[i] != longer[j]
      {
        assert longer[i] == keys[i] && longer[i] in keys;
      }
    }
  }

  /**
   * From a table with at most one record per key, an exact upsert keeps it so exactly when
   * no record had the key or the update response carried the record.
   */
  lemma UpsertKeepsKeysUnique(s: Store, fields: Fields, q: Query, opts: Options, replies: Replies)
    requires s.Valid() && q.mode == Exact && Keyed(fields, q.matchFields) && Distinct(Keys(s.records, q.matchFields))
    ensures Distinct(Keys(Upsert(s, fields, q, opts, replies).0.records, q.matchFields))
       <==> replies.update || KeyOf(fields, q.matchFields) !in Keys(s.records, q.matchFields)
  {
    UpsertKeys(s, fields, q, opts, replies);
    DistinctAppend(Keys(s.records, q.matchFields), KeyOf(fields, q.matchFields));
  }

  /** A run of upserts, one after the other, with every response present. */
  function UpsertAll(s: Store, all: seq<Fields>, q: Query, opts: Options): Store {
    if all == [] then s
    else
      var n := |all| - 1;
      Upsert(UpsertAll(s, all[..n], q, opts), all[n], q, opts, Replies(true, true)).0
  }

  lemma {:induction false} RunKeepsKeysUnique(all: seq<Fields>, q: Query, opts: Options)
    requires q.mode == Exact && forall f :: f in all ==> Keyed(f, q.matchFields)
    ensures UpsertAll(Store([], 0), all, q, opts).Valid()
    ensures var keys := Keys(UpsertAll(Store([], 0), all, q, opts).records, q.matchFields);
            Distinct(keys) && forall key :: key in keys <==> exists f :: f in all && KeyOf(f, q.matchFields) == key
  {
    if all != [] {
      var n := |all| - 1;
      RunKeepsKeysUnique(all[..n], q, opts);
      var s := UpsertAll(Store([], 0), all[..n], q, opts);
      assert all == all[..n] + [all[n]];
      UpsertKeys(s, all[n], q, opts, Replies(true, true));
      UpsertKeepsKeysUnique(s, all[n], q, opts, Replies(true, true));
    }
  }

  /** Writing the same fields over what they just wrote changes nothing. */
  lemma RewriteChangesNothing(stored: Fields, fields: Fields, opts: Options)
    ensures var once := Overlay(stored, UpdateBody(stored, fields, opts));
            Overlay(once, UpdateBody(once, fields, opts)) == once
  {
  }

  lemma RewriteOfCreatedChangesNothing(fields: Fields, opts: Options)
    ensures var created := FormatFields(fields);
            Overlay(created, UpdateBody(created, fields, opts)) == created
  {
  }

  /** Sending the same fields a second time finds the record just written and changes nothing. */
  lemma UpsertTwiceIsOnce(s: Store, fields: Fields, q: Query, opts: Options, replies: Replies)
    requires s.Valid() && q.mode == Exact && Keyed(fields, q.matchFields) && replies.update && replies.create
    ensures var (s1, r1) := Upsert(s, fields, q, opts, replies);
            r1.Success? && Upsert(s1, fields, q, opts, replies) == (s1, Success(Upserted(Changed, r1.value.recordId)))
  {
    var k := UpsertByKey(s, fields, q, opts, replies);
    var s1 := Upsert(s, fields, q, opts, replies).0;
    var stored := if k < |s.records| then s.records[k].fields else map[];
    WriteKeepsKey(stored, fields, q.matchFields, opts);
    RewriteChangesNothing(stored, fields, opts);
    RewriteOfCreatedChangesNothing(fields, opts);
    UpsertKeys(s, fields, q, opts, replies);
    SecondUpsert(s1, k, fields, q, opts, replies);
  }

  /** An upsert that finds what it would write at position k leaves the table as it is. */
  lemma SecondUpsert(s: Store, k: nat, fields: Fields, q: Query, opts: Options, replies: Replies)
    requires s.Valid() && q.mode == Exact && Keyed(fields, q.matchFields) && replies.update && k < |s.records|
    requires KeyOf(s.records[k].fields, q.matchFields) == KeyOf(fields, q.matchFields)
    requires forall j :: 0 <= j < k ==> KeyOf(s.records[j].fields, q.matchFields) != KeyOf(fields, q.matchFields)
    requires Overlay(s.records[k].fields, UpdateBody(s.records[k].fields, fields, opts)) == s.records[k].fields
    ensures Upsert(s, fields, q, opts, replies) == (s, Success(Upserted(Changed, s.records[k].id)))
  {
    var hit := UpsertByKey(s, fields, q, opts, replies);
    assert hit == k;
    assert s.records[k := s.records[k]] == s.records;
  }
}
