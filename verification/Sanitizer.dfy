/** The masking of logged request bodies in webhook-logging.interceptor.ts. */
module Sanitizer {
  import opened Common
  import Decimal

  /** A parsed JSON body; Scalar stands for strings, numbers, booleans and null, by their text. */
  datatype Json = Scalar(text: string) | Arr(items: seq<Json>) | Obj(fields: map<string, Json>)

  const MASK := Scalar("***MASKED***")
  const SENSITIVE_FIELDS := ["password", "token", "secret", "key", "authorization", "credential"]

  predicate Sensitive(key: string) {
    key in SENSITIVE_FIELDS
  }

  function IndexKeys(items: seq<Json>): (m: map<string, Json>)
    ensures forall k :: k in m ==> m[k] in items
  {
    if items == [] then map[]
    else IndexKeys(items[..|items| - 1])[Decimal.Natural(|items| - 1) := items[|items| - 1]]
  }

  /** What spreading a container into a new object yields: an array's indices become keys. */
  function Spread(j: Json): (m: map<string, Json>)
    requires !j.Scalar?
    ensures forall k :: k in m ==> m[k] < j
  {
    if j.Obj? then j.fields else IndexKeys(j.items)
  }

  /** The fields after both loops: listed ones masked, the others sanitized. */
  function Cleaned(j: Json, k: string): Json
    requires !j.Scalar? && k in Spread(j)
    decreases j, 1
  {
    if Sensitive(k) then MASK else Sanitized(Spread(j)[k])
  }

  function Sanitized(j: Json): Json
    decreases j, 2
  {
    if j.Scalar? then j else Obj(map k | k in Spread(j) :: Cleaned(j, k))
  }

  function MaskListed(fields: map<string, Json>, listed: seq<string>): map<string, Json> {
    map k | k in fields :: if k in listed then MASK else fields[k]
  }

  method MaskFields(copy: map<string, Json>) returns (sanitized: map<string, Json>)
    ensures sanitized == MaskListed(copy, SENSITIVE_FIELDS)
  {
    sanitized := copy;
    for i := 0 to |SENSITIVE_FIELDS|
      invariant sanitized == MaskListed(copy, SENSITIVE_FIELDS[..i])
    {
      OneMoreListed(copy, SENSITIVE_FIELDS[..i], SENSITIVE_FIELDS[i]);
      assert SENSITIVE_FIELDS[..i + 1] == SENSITIVE_FIELDS[..i] + [SENSITIVE_FIELDS[i]];
      var field := SENSITIVE_FIELDS[i];
      if field in sanitized {
        sanitized := sanitized[field := MASK];
      }
    }
    assert SENSITIVE_FIELDS[..|SENSITIVE_FIELDS|] == SENSITIVE_FIELDS;
  }

  lemma OneMoreListed(fields: map<string, Json>, listed: seq<string>, field: string)
    ensures var masked := MaskListed(fields, listed);
            MaskListed(fields, listed + [field]) == if field in fields then masked[field := MASK] else masked
  {
  }

  /** Between the iterations of the second loop: keys in `todo` are only masked yet. */
  ghost predicate Partly(body: Json, todo: set<string>, sanitized: map<string, Json>)
    requires !body.Scalar?
  {
    && todo <= sanitized.Keys == Spread(body).Keys
    && forall k :: k in sanitized ==>
         sanitized[k] == if k in todo then (if Sensitive(k) then MASK else Spread(body)[k]) else Cleaned(body, k)
  }

  lemma OneKeyDone(body: Json, todo: set<string>, sanitized: map<string, Json>, key: string)
    requires !body.Scalar? && Partly(body, todo, sanitized) && key in todo
    ensures sanitized[key] < body || sanitized[key].Scalar?
    ensures Sanitized(sanitized[key]) == Cleaned(body, key)
    ensures Partly(body, todo - {key}, sanitized[key := Sanitized(sanitized[key])])
    ensures sanitized[key].Scalar? ==> sanitized[key := Sanitized(sanitized[key])] == sanitized
  {
  }

  method SanitizeBody(body: Json) returns (r: Json)
    ensures r == Sanitized(body)
    decreases body
  {
    if body.Scalar? {
      return body;
    }
    var sanitized := MaskFields(Spread(body));
    var todo := sanitized.Keys;
    while todo != {}
      invariant Partly(body, todo, sanitized)
      decreases |todo|
    {
      var key :| key in todo;
      OneKeyDone(body, todo, sanitized, key);
      todo := todo - {key};
      var val := sanitized[key];
      if !val.Scalar? {
        var clean := SanitizeBody(val);
        sanitized := sanitized[key := clean];
      }
    }
    r := Obj(sanitized);
  }

  // ---------------------------------------------------------------- what ends up in the log

  type Path = seq<string>

  /** The value a path leads to, array elements being named by their index. */
  function At(j: Json, p: Path): Option<Json>
    decreases |p|
  {
    if p == [] then Some(j)
    else if j.Scalar? || p[0] !in Spread(j) then None
    else At(Spread(j)[p[0]], p[1..])
  }

  predicate Open(p: Path) {
    forall i :: 0 <= i < |p| ==> !Sensitive(p[i])
  }

  /** On paths without a sensitive key the output has what the input has there, sanitized: a leaf is kept as it is. */
  lemma {:induction false} OpenPathsAreKept(j: Json, p: Path)
    requires Open(p)
    ensures At(Sanitized(j), p) == match At(j, p) case Some(v) => Some(Sanitized(v)) case None => None
    decreases |p|
  {
    if p != [] && !j.Scalar? && p[0] in Spread(j) {
      assert !Sensitive(p[0]);
      OpenPathsAreKept(Spread(j)[p[0]], p[1..]);
    }
  }

  lemma {:induction false} AtAppend(j: Json, p: Path, q: Path)
    ensures At(j, p + q) == match At(j, p) case Some(v) => At(v, q) case None => None
    decreases |p|
  {
    if p == [] {
      assert p + q == q;
    } else {
      assert (p + q)[0] == p[0] && (p + q)[1..] == p[1..] + q;
      if !j.Scalar? && p[0] in Spread(j) {
        AtAppend(Spread(j)[p[0]], p[1..], q);
      }
    }
  }

  /** The first sensitive key on a path holds the mask, at any depth, and there is nothing below it. */
  lemma SensitiveKeysAreMasked(j: Json, p: Path, key: string, rest: Path)
    requires Open(p) && Sensitive(key)
    ensures At(Sanitized(j), p + [key] + rest) == if rest == [] && At(j, p + [key]).Some? then Some(MASK) else None
  {
    OpenPathsAreKept(j, p);
    AtAppend(Sanitized(j), p + [key], rest);
    AtAppend(Sanitized(j), p, [key]);
    AtAppend(j, p, [key]);
    if At(j, p).Some? {
      UnderKey(At(j, p).value, key);
    }
  }

  lemma UnderKey(j: Json, key: string)
    requires Sensitive(key)
    ensures At(Sanitized(j), [key]) == if At(j, [key]).Some? then Some(MASK) else None
  {
  }

  /** The six names of the list are masked whatever they hold, every other field is kept, itself sanitized. */
  lemma SecretsByName(fields: map<string, Json>, key: string)
    requires key in fields
    ensures Sanitized(Obj(fields)).Obj? && Sanitized(Obj(fields)).fields.Keys == fields.Keys
    ensures Sanitized(Obj(fields)).fields[key]
         == if key in {"password", "token", "secret", "key", "authorization", "credential"} then Scalar("***MASKED***")
            else Sanitized(fields[key])
  {
    assert Sanitized(Obj(fields)).fields[key] == Cleaned(Obj(fields), key);
  }

  /** Bodies that differ at most below sensitive keys and in whether a container is an array or its index-keyed object. */
  ghost predicate SameButSecrets(a: Json, b: Json)
    decreases a
  {
    if a.Scalar? || b.Scalar? then a == b
    else
      && Spread(a).Keys == Spread(b).Keys
      && forall k :: k in Spread(a) && !Sensitive(k) ==> SameButSecrets(Spread(a)[k], Spread(b)[k])
  }

  /** What is logged depends on exactly that: two bodies are logged alike if and only if they differ in secrets only. */
  lemma {:induction false} LoggedAlikeIffSameButSecrets(a: Json, b: Json)
    ensures Sanitized(a) == Sanitized(b) <==> SameButSecrets(a, b)
    decreases a
  {
    if !a.Scalar? && !b.Scalar? && Spread(a).Keys == Spread(b).Keys {
      forall k | k in Spread(a)
        ensures Cleaned(a, k) == Cleaned(b, k) <==> Sensitive(k) || SameButSecrets(Spread(a)[k], Spread(b)[k])
      {
        LoggedAlikeIffSameButSecrets(Spread(a)[k], Spread(b)[k]);
      }
      if Sanitized(a) == Sanitized(b) {
        forall k | k in Spread(a)
          ensures Cleaned(a, k) == Cleaned(b, k)
        {
          assert Sanitized(a).fields[k] == Cleaned(a, k) && Sanitized(b).fields[k] == Cleaned(b, k);
        }
      }
    } else if !a.Scalar? && !b.Scalar? {
      assert Sanitized(a).fields.Keys == Spread(a).Keys && Sanitized(b).fields.Keys == Spread(b).Keys;
    }
  }

  /** A body the sanitizer has nothing to do on: no arrays, and the mask under every sensitive key. */
  ghost predicate Masked(j: Json)
    decreases j
  {
    j.Scalar?
    || (j.Obj? && forall k :: k in j.fields ==> if Sensitive(k) then j.fields[k] == MASK else Masked(j.fields[k]))
  }

  lemma {:induction false} FixedIffMasked(j: Json)
    ensures Sanitized(j) == j <==> Masked(j)
    decreases j
  {
    if j.Obj? {
      forall k | k in j.fields
        ensures Cleaned(j, k) == j.fields[k] <==> if Sensitive(k) then j.fields[k] == MASK else Masked(j.fields[k])
      {
        FixedIffMasked(j.fields[k]);
      }
      if forall k :: k in j.fields ==> Cleaned(j, k) == j.fields[k] {
        assert Sanitized(j).fields == j.fields;
      }
      if Sanitized(j) == j {
        forall k | k in j.fields
          ensures Cleaned(j, k) == j.fields[k]
        {
          assert Sanitized(j).fields[k] == Cleaned(j, k);
        }
      }
    }
  }

  lemma {:induction false} OutputIsMasked(j: Json)
    ensures Masked(Sanitized(j))
    decreases j
  {
    if !j.Scalar? {
      forall k | k in Spread(j)
        ensures Sensitive(k) || Masked(Cleaned(j, k))
      {
        OutputIsMasked(Spread(j)[k]);
      }
    }
  }

  lemma SanitizingTwiceIsOnce(j: Json)
    ensures Sanitized(Sanitized(j)) == Sanitized(j)
  {
    OutputIsMasked(j);
    FixedIffMasked(Sanitized(j));
  }

  // ---------------------------------------------------------------- arrays

  lemma {:induction false} IndexIsKey(items: seq<Json>, i: nat)
    requires i < |items|
    ensures Decimal.Natural(i) in IndexKeys(items) && IndexKeys(items)[Decimal.Natural(i)] == items[i]
  {
    var n := |items| - 1;
    if i < n {
      IndexIsKey(items[..n], i);
      Decimal.NaturalsDiffer(i, n);
    }
  }

  lemma {:induction false} KeyIsIndex(items: seq<Json>, k: string) returns (i: nat)
    requires k in IndexKeys(items)
    ensures i < |items| && k == Decimal.Natural(i)
  {
    var n := |items| - 1;
    i := n;
    if k != Decimal.Natural(n) {
      i := KeyIsIndex(items[..n], k);
    }
  }

  lemma NumbersAreNotSensitive(n: nat)
    ensures !Sensitive(Decimal.Natural(n))
  {
    assert forall k :: k in SENSITIVE_FIELDS ==> 'a' <= k[0] <= 'z';
  }

  /** An array becomes the object that maps each index to the sanitized element, and nothing else. */
  lemma ArraysBecomeIndexed(items: seq<Json>)
    ensures Sanitized(Arr(items)).Obj?
    ensures forall i :: 0 <= i < |items| ==>
              Decimal.Natural(i) in Sanitized(Arr(items)).fields
              && Sanitized(Arr(items)).fields[Decimal.Natural(i)] == Sanitized(items[i])
    ensures forall k :: k in Sanitized(Arr(items)).fields ==> exists i :: 0 <= i < |items| && k == Decimal.Natural(i)
  {
    forall i | 0 <= i < |items|
      ensures Decimal.Natural(i) in IndexKeys(items) && IndexKeys(items)[Decimal.Natural(i)] == items[i]
      ensures !Sensitive(Decimal.Natural(i))
    {
      IndexIsKey(items, i);
      NumbersAreNotSensitive(i);
    }
    forall k | k in IndexKeys(items)
      ensures exists i :: 0 <= i < |items| && k == Decimal.Natural(i)
    {
      var i := KeyIsIndex(items, k);
    }
  }
}
