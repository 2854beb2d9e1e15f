/** The nearby-search request (internal/nearby/input.go) and its re-encoding by the bot client. */
module NearbyInput {
  import opened Wrappers
  import opened Ordering
  import Text

  const DEFAULT_LIMIT := 5
  const MAX_LIMIT := 10
  const DEFAULT_RADIUS_KM := 10.0
  const MIN_RADIUS_KM := 0.1
  const MAX_RADIUS_KM := 50.0
  const DISTANCE_SORT := "distance"
  const MAX_QUERY_LENGTH := 120

  /** genre "" means no genre was given. */
  datatype Input = Input(query: string, genre: string, limit: int, radiusKm: real, sort: string)

  /**
   A member's value. A number remembers whether its text is a plain integer; OtherValue is a
   boolean, an array or an object.
   */
  datatype Value = Str(text: string) | Num(value: real, integer: bool) | OtherValue | NullValue

  datatype Member = Member(name: string, value: Value)

  /** A body is one object, or something else: another value, bad syntax, trailing data, bad UTF-8. */
  datatype Body = ObjectBody(members: seq<Member>) | OtherBody

  predicate ValidInput(i: Input) {
    && i.query != "" && |i.query| <= MAX_QUERY_LENGTH && !Text.HasControl(i.query)
    && (i.genre == "" || i.genre == "skatepark" || i.genre == "street")
    && 1 <= i.limit <= MAX_LIMIT
    && MIN_RADIUS_KM <= i.radiusKm <= MAX_RADIUS_KM
    && i.sort == DISTANCE_SORT
  }

  // ---------- the meaning of a list of members ----------

  /** A member the decoder can use on its own: a known name with a value of the right kind. */
  predicate Usable(m: Member) {
    match m.name
    case "query" => m.value.Str?
    case "genre" => m.value.Str? && m.value.text != ""
    case "limit" => m.value.Num? && m.value.integer
    case "radiusKm" => m.value.Num?
    case "sort" => m.value.Str?
    case _ => false
  }

  function Lookup(ms: seq<Member>, name: string): Option<Value> {
    if ms == [] then None
    else if ms[|ms| - 1].name == name then Some(ms[|ms| - 1].value)
    else Lookup(ms[..|ms| - 1], name)
  }

  function TextOr(v: Option<Value>, default: string): string {
    if v.Some? && v.value.Str? then v.value.text else default
  }

  function NumberOr(v: Option<Value>, default: real): real {
    if v.Some? && v.value.Num? then v.value.value else default
  }

  /** Each field from the member of its name, or its default. */
  function Assembled(ms: seq<Member>): Input {
    Input(TextOr(Lookup(ms, "query"), ""), TextOr(Lookup(ms, "genre"), ""),
          NumberOr(Lookup(ms, "limit"), DEFAULT_LIMIT as real).Floor, NumberOr(Lookup(ms, "radiusKm"), DEFAULT_RADIUS_KM),
          TextOr(Lookup(ms, "sort"), DISTANCE_SORT))
  }

  ghost predicate DistinctNames(ms: seq<Member>) {
    forall i, j | 0 <= i < j < |ms| :: ms[i].name != ms[j].name
  }

  function Finish(i: Input): Option<Input> {
    var trimmed := i.(query := Text.TrimSpace(i.query));
    if !Text.HasControl(i.query) && ValidInput(trimmed) then Some(trimmed) else None
  }

  /** What the decoder owes for a body: distinct usable members, then the assembled input, trimmed and valid. */
  ghost function Decoded(body: Body): Option<Input> {
    if body.ObjectBody? && DistinctNames(body.members) && (forall m | m in body.members :: Usable(m))
    then Finish(Assembled(body.members))
    else None
  }

  /** The switch of the member loop. */
  function Assign(i: Input, m: Member): Input
    requires Usable(m)
  {
    match m.name
    case "query" => i.(query := m.value.text)
    case "genre" => i.(genre := m.value.text)
    case "limit" => i.(limit := m.value.value.Floor)
    case "radiusKm" => i.(radiusKm := m.value.value)
    case _ => i.(sort := m.value.text)
  }

  lemma AssembleOne(ms: seq<Member>, m: Member)
    requires Usable(m)
    ensures Assembled(ms + [m]) == Assign(Assembled(ms), m)
  {
    var all := ms + [m];
    assert all[..|all| - 1] == ms;
  }

  method DecodeInput(body: Body) returns (r: Option<Input>)
    ensures r == Decoded(body)
  {
    if body.OtherBody? { return None; }
    var ms := body.members;
    var input := Input("", "", DEFAULT_LIMIT, DEFAULT_RADIUS_KM, DISTANCE_SORT);
    var seen: set<string> := {};
    for i := 0 to |ms|
      invariant DistinctNames(ms[..i])
      invariant forall m | m in ms[..i] :: Usable(m)
      invariant forall name :: name in seen <==> exists k :: 0 <= k < i && ms[k].name == name
      invariant input == Assembled(ms[..i])
    {
      assert ms[..i + 1] == ms[..i] + [ms[i]];
      hide Assembled, Usable;
      var m := ms[i];
      assert m in ms;
      if m.name in seen { return None; }
      seen := seen + {m.name};
      if !Usable(m) { return None; }
      AssembleOne(ms[..i], m);
      input := Assign(input, m);
    }
    assert ms[..|ms|] == ms;
    r := Finish(input);
  }

  // ---------- the order of members is irrelevant ----------

  lemma {:induction false} LookupMeaning(ms: seq<Member>, name: string)
    ensures Lookup(ms, name).None? <==> forall m | m in ms :: m.name != name
    ensures DistinctNames(ms) ==> forall m | m in ms && m.name == name :: Lookup(ms, name) == Some(m.value)
  {
    if ms != [] {
      var n := |ms| - 1;
      assert ms == ms[..n] + [ms[n]];
      LookupMeaning(ms[..n], name);
    }
  }

  lemma DistinctNamesPermute(a: seq<Member>, b: seq<Member>)
    requires multiset(a) == multiset(b) && DistinctNames(a)
    ensures DistinctNames(b)
  {
    PermutedElements(a, b);
    assert NoDuplicates(b);
    forall i, j | 0 <= i < j < |b|
      ensures b[i].name != b[j].name
    {
      assert b[i] in a && b[j] in a;
      var k :| 0 <= k < |a| && a[k] == b[i];
      var l :| 0 <= l < |a| && a[l] == b[j];
      assert k != l;
    }
  }

  lemma LookupPermutes(a: seq<Member>, b: seq<Member>, name: string)
    requires multiset(a) == multiset(b) && DistinctNames(a) && DistinctNames(b)
    ensures Lookup(a, name) == Lookup(b, name)
  {
    PermutedElements(a, b);
    LookupMeaning(a, name);
    LookupMeaning(b, name);
    if Lookup(a, name).Some? {
      var m :| m in a && m.name == name;
      assert m in b;
    }
  }

  /** Every permutation of the members is accepted or rejected alike, with the same input. */
  lemma MemberOrderIrrelevant(a: seq<Member>, b: seq<Member>)
    requires multiset(a) == multiset(b)
    ensures Decoded(ObjectBody(a)) == Decoded(ObjectBody(b))
  {
    PermutedElements(a, b);
    if DistinctNames(a) || DistinctNames(b) {
      if DistinctNames(a) { DistinctNamesPermute(a, b); } else { DistinctNamesPermute(b, a); }
      LookupPermutes(a, b, "query");
      LookupPermutes(a, b, "genre");
      LookupPermutes(a, b, "limit");
      LookupPermutes(a, b, "radiusKm");
      LookupPermutes(a, b, "sort");
      hide Lookup, Usable, Finish;
    }
  }

  // ---------- encoding and decoding again ----------

  /** The JSON object of an input: genre is left out when empty. */
  function Encoded(i: Input): seq<Member> {
    [Member("query", Str(i.query))]
    + (if i.genre == "" then [] else [Member("genre", Str(i.genre))])
    + [Member("limit", Num(i.limit as real, true)), Member("radiusKm", Num(i.radiusKm, false)), Member("sort", Str(i.sort))]
  }

  lemma EncodedNames(i: Input)
    ensures DistinctNames(Encoded(i)) && (forall m | m in Encoded(i) :: Usable(m))
  {
    assert "query" != "genre" && "query" != "limit" && "query" != "radiusKm" && "query" != "sort";
  }

  lemma EncodedAssembles(i: Input)
    ensures DistinctNames(Encoded(i)) && (forall m | m in Encoded(i) :: Usable(m))
    ensures Assembled(Encoded(i)) == i
  {
    var ms := Encoded(i);
    EncodedNames(i);
    LookupMeaning(ms, "query");
    LookupMeaning(ms, "genre");
    LookupMeaning(ms, "limit");
    LookupMeaning(ms, "radiusKm");
    LookupMeaning(ms, "sort");
    var n := |ms|;
    assert ms[0] in ms && ms[n - 3] in ms && ms[n - 2] in ms && ms[n - 1] in ms;
    if i.genre != "" { assert ms[1] in ms; }
    hide Lookup, Usable;
  }

  /** Re-encoding an input and decoding it again only trims the query, and rejects exactly what is invalid then. */
  lemma Reencoding(i: Input)
    ensures Decoded(ObjectBody(Encoded(i))) == Finish(i)
  {
    EncodedAssembles(i);
    hide Assembled, Usable, Finish;
  }

  /** An accepted input survives the round trip unchanged, however often it is repeated. */
  lemma AcceptedRoundTrip(body: Body)
    requires Decoded(body).Some?
    ensures Decoded(ObjectBody(Encoded(Decoded(body).value))) == Decoded(body)
    ensures ValidInput(Decoded(body).value) && Text.Trimmed(Decoded(body).value.query)
  {
    var i := Assembled(body.members);
    Text.TrimSpaceIsTrimmed(i.query);
    Reencoding(Decoded(body).value);
  }
}
