/**
 The bot client's reading of a body (internal/botsearch/response.go:36-113): the shape check
 over the token stream, the typed decoder, and the checks of what the API promises.
 */
module BotClient {
  import opened Wrappers
  import opened Ordering
  import opened Facilities
  import opened NearbyInput
  import opened NearbySearch
  import opened WireShape
  import opened WireStruct
  import opened RecordWire
  import opened FacilityWire
  import opened WireEncoding
  import opened BotResponse

  // ---------- the typed decoder ----------

  function ReadStatus(text: string): Status {
    if text == "ok" then Ok
    else if text == "no_matches" then NoMatches
    else if text == "data_unavailable" then DataUnavailable
    else if text == "location_not_found" then LocationNotFound
    else if text == "location_ambiguous" then LocationAmbiguous
    else OtherStatus
  }

  /** A pointer or slice that is missing or null stays nil. */
  function ReadPointer<T>(o: Option<Json>, read: Json -> Option<T>): Option<Option<T>> {
    if o.None? || o.value == Scalar(Null) then Some(None)
    else
      var x :- read(o.value);
      Some(Some(x))
  }

  function ReadSpot(o: Option<Json>, n: Notation): Option<Option<Facility>> {
    ReadPointer(o, (x: Json) => ReadFacility(x, n))
  }

  function ReadDistance(o: Option<Json>): Option<Option<real>> {
    ReadPointer(o, (x: Json) => ReadNumber(Some(x)))
  }

  function ReadMatch(j: Json, n: Notation): Option<WireMatch> {
    var row :- ReadRow(MatchTags(), j);
    var spot :- ReadSpot(row[0], n);
    var km :- ReadDistance(row[1]);
    Some(WireMatch(spot, km))
  }

  function ReadMatchList(j: Json, n: Notation): Option<seq<WireMatch>> {
    ReadList(Some(j), (x: Json) => ReadMatch(x, n))
  }

  function ReadMatches(o: Option<Json>, n: Notation): Option<Option<seq<WireMatch>>> {
    ReadPointer(o, (x: Json) => ReadMatchList(x, n))
  }

  function ReadLabel(j: Json): Option<string> {
    var row :- ReadRow(LabelTags(), j);
    ReadText(row[0])
  }

  function ReadLabels(o: Option<Json>): Option<seq<string>> {
    ReadList(o, ReadLabel)
  }

  function ReadWire(j: Json, n: Notation): Option<Wire> {
    var row :- ReadRow(ResponseTags(), j);
    WireOf(row, n)
  }

  function WireOf(row: Row, n: Notation): Option<Wire>
    requires |row| == 8
  {
    var status :- ReadText(row[0]);
    var matches :- ReadMatches(row[1], n);
    var candidates :- ReadLabels(row[2]);
    var distanceKind :- ReadText(row[3]);
    var limit :- ReadInteger(row[4]);
    var radiusKm :- ReadNumber(row[5]);
    var sort :- ReadText(row[6]);
    var note :- ReadText(row[7]);
    Some(Wire(ReadStatus(status), matches, candidates, distanceKind, limit, radiusKm, sort, note))
  }

  // ---------- the whole client ----------

  /** What the client makes of a body, None for an invalid response. */
  ghost function ClientReads(tokens: seq<Token>, input: Input, n: Notation): Option<Response> {
    if j :| IsBody(tokens, ResponseShape(), j) then
      var w := ReadWire(j, n);
      if w.Some? && Trustworthy(w.value, input) then Some(Unwrapped(w.value)) else None
    else None
  }

  lemma OneBody(tokens: seq<Token>, i: Json, j: Json)
    requires IsBody(tokens, ResponseShape(), i) && IsBody(tokens, ResponseShape(), j)
    ensures i == j
  {
    hide Tokens, Conforms, ResponseShape;
    assert Spells(tokens, [], ResponseShape(), 0, i) && Spells(tokens, [], ResponseShape(), 0, j);
    OneReading(tokens, ResponseShape(), 0, i, j, [], []);
  }

  /** typed is what the library's decoder makes of the same body; it only matters once the shape is right. */
  method DecodeBody(tokens: seq<Token>, typed: Option<Wire>, input: Input, n: Notation) returns (r: Option<Response>)
    requires forall j | IsBody(tokens, ResponseShape(), j) :: typed == ReadWire(j, n)
    ensures r == ClientReads(tokens, input, n)
  {
    hide ReadWire, Trustworthy, Unwrapped, ResponseShape, IsBody;
    var shapeOk := ValidBody(tokens, ResponseShape());
    if !shapeOk { return None; }
    ghost var j :| IsBody(tokens, ResponseShape(), j);
    if typed.None? { return None; }
    r := DecodeResponse(typed.value, input);
  }

  // ---------- the typed decoder gives back what was encoded ----------

  lemma StatusReadsBack(s: Status)
    ensures ReadStatus(StatusText(s)) == s
  {
    assert |"ok"| == 2 && |"no_matches"| == 10 && |"data_unavailable"| == 16 && |"other"| == 5;
    assert "location_not_found"[9] == 'n' && "location_ambiguous"[9] == 'a';
  }

  lemma SpotReadsBack(f: Facility, n: Notation)
    requires Legible(f, n)
    ensures ReadSpot(Some(FacilityTree(f, n)), n) == Some(Some(f))
  {
    hide ReadFacility, Legible, FacilityTags, FacilityRow;
    FacilityReadsBack(f, n);
  }

  lemma MatchItems(m: Match, n: Notation)
    ensures var row := MatchRow(m, n);
            && |row| == |MatchTags()| == 2
            && row[0] == Some(FacilityTree(m.facility, n)) && row[1] == Some(NumberTree(m.distanceKm))
  {
    hide FacilityTree, FacilityTags, StructShape;
  }

  lemma MatchReadsBack(m: Match, n: Notation)
    requires Legible(m.facility, n)
    ensures ReadMatch(MatchTree(m, n), n) == Some(WireMatch(Some(m.facility), Some(m.distanceKm)))
  {
    hide ReadSpot, Legible, FacilityTree, ReadRow, StructTree, DistinctTags, MatchTags, MatchRow;
    MatchTagsDistinct();
    MatchItems(m, n);
    SpotReadsBack(m.facility, n);
    RowReadsBack(MatchTags(), MatchRow(m, n));
  }

  lemma MatchesReadBack(ms: seq<Match>, n: Notation)
    requires forall m | m in ms :: Legible(m.facility, n)
    ensures ReadMatches(Some(Array(MatchTrees(ms, n))), n) == Some(Some(WireMatches(ms)))
  {
    hide ReadMatch, MatchTree, Legible;
    forall i | 0 <= i < |ms|
      ensures ReadMatch(MatchTree(ms[i], n), n) == Some(WireMatches(ms)[i])
    {
      assert ms[i] in ms;
      MatchReadsBack(ms[i], n);
    }
    ListReadsBack(MatchTrees(ms, n), WireMatches(ms), (x: Json) => ReadMatch(x, n));
  }

  lemma LabelsReadBack(labels: seq<string>)
    ensures ReadLabels(OptionalList(LabelTrees(labels))) == Some(labels)
  {
    forall i | 0 <= i < |labels|
      ensures ReadLabel(LabelTree(labels[i])) == Some(labels[i])
    {
      RowReadsBack(LabelTags(), [Some(TextTree(labels[i]))]);
    }
    hide ReadLabel, LabelTree;
    ListReadsBack(LabelTrees(labels), labels, ReadLabel);
  }

  lemma ResponseItems(r: Response, n: Notation)
    ensures var row := ResponseRow(r, n);
            && |row| == |ResponseTags()| == 8
            && row[0] == Some(TextTree(StatusText(r.status))) && row[1] == Some(Array(MatchTrees(r.matches, n)))
            && row[2] == OptionalList(LabelTrees(r.candidates)) && row[3] == Some(TextTree(r.distanceKind))
            && row[4] == Some(NumberTree(r.limit as real)) && row[5] == Some(NumberTree(r.radiusKm))
            && row[6] == Some(TextTree(r.sort)) && row[7] == Some(TextTree(r.availabilityNote))
  {
    hide MatchTrees, MatchTags, LabelTrees, LabelTags, StructShape, OptionalList, StatusText, TextTree, NumberTree;
  }

  lemma NumbersReadBack()
    ensures forall x: real :: ReadNumber(Some(NumberTree(x))) == Some(x)
    ensures forall k: int :: ReadInteger(Some(NumberTree(k as real))) == Some(k)
  {
  }

  /** The row reads as the answer, slot by slot. */
  ghost predicate ReadsAs(row: Row, r: Response, n: Notation)
    requires |row| == 8
  {
    && (ReadText(row[0]).Some? && ReadStatus(ReadText(row[0]).value) == r.status)
    && ReadMatches(row[1], n) == Some(Some(WireMatches(r.matches)))
    && ReadLabels(row[2]) == Some(r.candidates)
    && ReadText(row[3]) == Some(r.distanceKind)
    && ReadInteger(row[4]) == Some(r.limit)
    && ReadNumber(row[5]) == Some(r.radiusKm)
    && ReadText(row[6]) == Some(r.sort)
    && ReadText(row[7]) == Some(r.availabilityNote)
  }

  lemma RowReadsAs(r: Response, n: Notation)
    requires forall m | m in r.matches :: Legible(m.facility, n)
    ensures |ResponseRow(r, n)| == 8 && ReadsAs(ResponseRow(r, n), r, n)
  {
    ResponseItems(r, n);
    ScalarsReadBack();
    NumbersReadBack();
    StatusReadsBack(r.status);
    MatchesReadBack(r.matches, n);
    LabelsReadBack(r.candidates);
    hide ResponseRow, ResponseTags, ReadStatus, StatusText, ReadMatches, ReadLabels, MatchTrees, LabelTrees, OptionalList, Legible;
    hide ReadText, ReadNumber, ReadInteger, TextTree, NumberTree, WireMatches;
  }

  lemma RowMakesWire(row: Row, r: Response, n: Notation)
    requires |row| == 8 && ReadsAs(row, r, n)
    ensures WireOf(row, n) == Some(OnTheWire(r))
  {
    hide ReadMatches, ReadLabels, ReadText, ReadNumber, ReadInteger, ReadStatus, WireMatches;
  }

  lemma ResponseReadsBack(r: Response, n: Notation)
    requires forall m | m in r.matches :: Legible(m.facility, n)
    ensures ReadWire(ResponseTree(r, n), n) == Some(OnTheWire(r))
  {
    hide ResponseRow, ResponseTags, ReadRow, StructTree, WireOf, OnTheWire, Legible, DistinctTags, ReadsAs;
    ResponseTagsDistinct();
    ResponseItems(r, n);
    RowReadsAs(r, n);
    RowMakesWire(ResponseRow(r, n), r, n);
    RowReadsBack(ResponseTags(), ResponseRow(r, n));
  }

  // ---------- producer and client agree ----------

  /** Only records of the catalog are listed. */
  lemma ListedInCatalog(catalog: Catalog, places: Option<seq<Place>>, distance: Distance, input: Input, now: int)
    requires ValidCatalog(catalog)
    ensures var found := Found(catalog, places, distance, input, now);
            found.Success? ==> forall m | m in found.value.matches :: m.facility in catalog.Values
  {
    hide ValidPlace, ValidFacility, IsNearbySearchable, GenreWanted, MatchBefore;
    var found := Found(catalog, places, distance, input, now);
    if found.Success? && found.value.matches != [] {
      var center := places.value[0].location;
      var fs := InRadius(catalog, center, distance, input);
      ListedFirst(fs, center, distance, input, now);
      forall m | m in found.value.matches
        ensures m.facility in catalog.Values
      {
        assert m in Elements(found.value.matches);
      }
    }
  }

  lemma ClientReturns(r: Response, input: Input, n: Notation)
    requires IsBody(Tokens(ResponseTree(r, n)), ResponseShape(), ResponseTree(r, n))
    requires ReadWire(ResponseTree(r, n), n) == Some(OnTheWire(r))
    requires Trustworthy(OnTheWire(r), input) && Unwrapped(OnTheWire(r)) == r
    ensures ClientReads(Tokens(ResponseTree(r, n)), input, n) == Some(r)
  {
    hide IsBody, ReadWire, ResponseTree, ResponseShape, Tokens, Trustworthy, Unwrapped, OnTheWire;
    var j := ResponseTree(r, n);
    forall i | IsBody(Tokens(j), ResponseShape(), i) { OneBody(Tokens(j), i, j); }
  }

  /**
   The API and its client agree: for every valid catalog, places, distance, input and clock,
   the tokens of an answer that the search gives without an error pass the shape check in
   full, decode to that answer, satisfy every check the client makes for the same input, and
   are returned unchanged.
   */
  lemma ClientReadsAnswer(catalog: Catalog, places: Option<seq<Place>>, distance: Distance, input: Input, n: Notation, now: int)
    requires ValidCatalog(catalog) && (forall f | f in catalog.Values :: Legible(f, n))
    requires forall a, b :: distance(a, b) >= 0.0
    ensures var found := Found(catalog, places, distance, input, now);
            found.Success? ==>
              var tokens := Tokens(ResponseTree(found.value, n));
              && Check(tokens, ResponseShape(), 0) == Some([])
              && ReadWire(ResponseTree(found.value, n), n) == Some(OnTheWire(found.value))
              && Trustworthy(OnTheWire(found.value), input)
              && ClientReads(tokens, input, n) == Some(found.value)
  {
    hide Found, Trustworthy, Unwrapped, OnTheWire, ReadWire, ResponseTree, ResponseShape, Tokens, Check, IsBody;
    hide ValidFacility, Legible, ClientReads;
    var found := Found(catalog, places, distance, input, now);
    ConsumerAcceptsProducer(catalog, places, distance, input, now);
    ListedInCatalog(catalog, places, distance, input, now);
    if found.Success? {
      AnswerPassesShapeCheck(found.value, n);
      ResponseReadsBack(found.value, n);
      ClientReturns(found.value, input, n);
    }
  }

  /** Every record of the catalog came out of the typed decoder, as when the catalog file is loaded. */
  ghost predicate LoadedFromJson(catalog: Catalog, n: Notation) {
    forall f | f in catalog.Values :: exists j :: ReadFacility(j, n) == Some(f)
  }

  /** A catalog file's records travel to the client and back, given only that what is read and written again reads the same. */
  lemma ClientReadsAnswerOfLoadedCatalog(catalog: Catalog, places: Option<seq<Place>>, distance: Distance, input: Input,
                                         n: Notation, now: int)
    requires ValidCatalog(catalog) && LoadedFromJson(catalog, n) && Faithful(n)
    requires forall a, b :: distance(a, b) >= 0.0
    ensures var found := Found(catalog, places, distance, input, now);
            found.Success? ==> ClientReads(Tokens(ResponseTree(found.value, n)), input, n) == Some(found.value)
  {
    hide Found, ResponseTree, Tokens, ClientReads, Legible, ReadFacility, Faithful, ValidFacility;
    forall f | f in catalog.Values
      ensures Legible(f, n)
    {
      var j :| ReadFacility(j, n) == Some(f);
      ReadRecordIsLegible(j, n);
    }
    ClientReadsAnswer(catalog, places, distance, input, n, now);
  }
}
