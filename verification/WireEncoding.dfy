/** The JSON tree of a search answer (internal/nearby/search.go:31-49) and the client's shape of it. */
module WireEncoding {
  import opened Wrappers
  import opened Facilities
  import opened NearbySearch
  import opened WireShape
  import opened WireStruct
  import opened RecordWire
  import opened FacilityWire

  function LabelTags(): Tags {
    [Tag("label", StringShape, false)]
  }

  function MatchTags(): Tags {
    [Tag("facility", StructShape(FacilityTags()), false), Tag("distanceKm", NumberShape, false)]
  }

  /** The response struct; only the place labels may be left out. */
  function ResponseTags(): Tags {
    [Tag("status", StringShape, false), Tag("matches", Slice(StructShape(MatchTags())), false),
     Tag("locationCandidates", Slice(StructShape(LabelTags())), true), Tag("distanceKind", StringShape, false),
     Tag("limit", NumberShape, false), Tag("radiusKm", NumberShape, false), Tag("sort", StringShape, false),
     Tag("availabilityNote", StringShape, false)]
  }

  function ResponseShape(): Shape {
    StructShape(ResponseTags())
  }

  function StatusText(s: Status): string {
    match s
    case Ok => "ok"
    case NoMatches => "no_matches"
    case DataUnavailable => "data_unavailable"
    case LocationNotFound => "location_not_found"
    case LocationAmbiguous => "location_ambiguous"
    case OtherStatus => "other"
  }

  function MatchRow(m: Match, n: Notation): Row {
    [Some(FacilityTree(m.facility, n)), Some(NumberTree(m.distanceKm))]
  }

  function MatchTree(m: Match, n: Notation): Json {
    StructTree(MatchTags(), MatchRow(m, n))
  }

  function MatchTrees(ms: seq<Match>, n: Notation): seq<Json> {
    seq(|ms|, i requires 0 <= i < |ms| => MatchTree(ms[i], n))
  }

  function LabelTree(label': string): Json {
    StructTree(LabelTags(), [Some(TextTree(label'))])
  }

  function LabelTrees(labels: seq<string>): seq<Json> {
    seq(|labels|, i requires 0 <= i < |labels| => LabelTree(labels[i]))
  }

  /** The search starts from an empty list of matches, not from a nil one. */
  function ResponseRow(r: Response, n: Notation): Row {
    [Some(TextTree(StatusText(r.status))), Some(Array(MatchTrees(r.matches, n))), OptionalList(LabelTrees(r.candidates)),
     Some(TextTree(r.distanceKind)), Some(NumberTree(r.limit as real)), Some(NumberTree(r.radiusKm)),
     Some(TextTree(r.sort)), Some(TextTree(r.availabilityNote))]
  }

  function ResponseTree(r: Response, n: Notation): Json {
    StructTree(ResponseTags(), ResponseRow(r, n))
  }

  lemma MatchTagsDistinct()
    ensures DistinctTags(MatchTags())
  {
    hide FacilityTags, StructShape;
    assert |"facility"| == 8 && |"distanceKm"| == 10;
  }

  lemma ResponseTagsDistinct()
    ensures DistinctTags(ResponseTags())
  {
    hide MatchTags, LabelTags, StructShape;
    assert |"status"| == 6 && |"matches"| == 7 && |"locationCandidates"| == 18 && |"distanceKind"| == 12;
    assert |"limit"| == 5 && |"radiusKm"| == 8 && |"sort"| == 4 && |"availabilityNote"| == 16;
    var tags := ResponseTags();
    assert forall i, j | 0 <= i < j < |tags| :: |tags[i].name| != |tags[j].name|;
  }

  // ---------- every answer has the client's shape ----------

  lemma MatchConforms(m: Match, n: Notation)
    requires ValidFacility(m.facility)
    ensures Conforms(MatchTree(m, n), StructShape(MatchTags()), 2)
  {
    hide FacilityTree, FacilityTags, ValidFacility;
    MatchTagsDistinct();
    StructConforms(MatchTags(), MatchRow(m, n), 2);
    ValidRecordConforms(m.facility, n, 3);
    hide StructShape;
  }

  lemma MatchesConform(ms: seq<Match>, n: Notation)
    requires forall m | m in ms :: ValidFacility(m.facility)
    ensures Conforms(Array(MatchTrees(ms, n)), Slice(StructShape(MatchTags())), 1)
  {
    hide MatchTree, MatchTags, StructShape, ValidFacility;
    forall i | 0 <= i < |ms|
      ensures Conforms(MatchTree(ms[i], n), StructShape(MatchTags()), 2)
    {
      assert ms[i] in ms;
      MatchConforms(ms[i], n);
    }
  }

  lemma LabelsConform(labels: seq<string>)
    ensures FitsOptional(OptionalList(LabelTrees(labels)), Slice(StructShape(LabelTags())), 1)
  {
    forall i | 0 <= i < |labels|
      ensures Conforms(LabelTree(labels[i]), StructShape(LabelTags()), 2)
    {
      StructConforms(LabelTags(), [Some(TextTree(labels[i]))], 2);
    }
    hide LabelTree, LabelTags, StructShape;
  }

  lemma ResponseRowFits(r: Response, n: Notation)
    requires Conforms(Array(MatchTrees(r.matches, n)), Slice(StructShape(MatchTags())), 1)
    ensures Encodes(ResponseTags(), ResponseRow(r, n)) && RowFits(ResponseTags(), ResponseRow(r, n), 1)
  {
    ScalarsConform(1);
    LabelsConform(r.candidates);
    assert forall x: real :: Conforms(NumberTree(x), NumberShape, 1);
    hide MatchTrees, MatchTags, LabelTrees, LabelTags, StructShape, StatusText, Conforms, TextTree, NumberTree, OptionalList;
  }

  /** Whatever the search answers, with valid records, passes the client's shape check: it consumes the whole body. */
  lemma AnswerPassesShapeCheck(r: Response, n: Notation)
    requires forall m | m in r.matches :: ValidFacility(m.facility)
    ensures IsBody(Tokens(ResponseTree(r, n)), ResponseShape(), ResponseTree(r, n))
    ensures Check(Tokens(ResponseTree(r, n)), ResponseShape(), 0) == Some([])
  {
    hide ResponseTags, ResponseRow, MatchTags, MatchTrees, StructTree, StructShape, Conforms, RowFits, Encodes, DistinctTags;
    hide Tokens, Check, ValidFacility;
    MatchesConform(r.matches, n);
    ResponseRowFits(r, n);
    ResponseTagsDistinct();
    StructConforms(ResponseTags(), ResponseRow(r, n), 0);
    assert IsBody(Tokens(ResponseTree(r, n)), ResponseShape(), ResponseTree(r, n));
    WholeBody(Tokens(ResponseTree(r, n)), ResponseShape());
  }
}
