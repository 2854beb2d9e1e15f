/**
 What a body that passes the shape check is like (internal/botsearch/response.go:120-200), and
 which value stands under which name in what the API writes (internal/nearby/search.go:31-49,
 internal/facility/model.go:79-114).
 */
module WireLaws {
  import opened Wrappers
  import opened OpeningHours
  import opened Facilities
  import opened NearbySearch
  import opened WireShape
  import opened WireStruct
  import opened RecordWire
  import opened FacilityWire
  import opened WireEncoding
  import opened BotClient

  // ---------- strictness ----------

  /** No null, no member twice in an object, and no more than so many levels below the top. */
  ghost predicate Strict(j: Json, levels: int)
    decreases j
  {
    && levels >= 0
    && match j
       case Object(members) => DistinctNames(members) && forall m | m in members :: Strict(m.value, levels - 1)
       case Array(items) => forall x | x in items :: Strict(x, levels - 1)
       case Scalar(t) => IsScalar(t) && t != Null
  }

  lemma {:induction false} ConformingIsStrict(j: Json, shape: Shape, depth: nat)
    requires Conforms(j, shape, depth)
    ensures Strict(j, 32 - depth)
    decreases j
  {
    match j
    case Object(members) =>
      forall m | m in members { ConformingIsStrict(m.value, shape.fields[m.name].shape, depth + 1); }
    case Array(items) =>
      forall x | x in items { ConformingIsStrict(x, shape.elem, depth + 1); }
    case Scalar(t) =>
  }

  /** A stream that is accepted whole is one tree without null or repeated member, nested at most 32 deep. */
  lemma AcceptedIsStrict(tokens: seq<Token>, shape: Shape)
    requires Check(tokens, shape, 0) == Some([])
    ensures exists j :: tokens == Tokens(j) && Strict(j, 32)
  {
    hide Check, Conforms, Tokens;
    WholeBody(tokens, shape);
    var j :| IsBody(tokens, shape, j);
    ConformingIsStrict(j, shape, 0);
  }

  // ---------- the layout of an accepted answer ----------

  /** A member that an object must have, or may have. */
  datatype Entry = Must(name: string) | May(name: string)

  /** An object with every member it must have, perhaps those it may have, and no others. */
  ghost predicate HasMembers(j: Json, entries: seq<Entry>) {
    && j.Object? && DistinctNames(j.members)
    && (forall m | m in j.members :: Must(m.name) in entries || May(m.name) in entries)
    && (forall e | e in entries && e.Must? :: e.name in NamesOf(j.members))
  }

  function AnswerEntries(): seq<Entry> {
    [Must("status"), Must("matches"), May("locationCandidates"), Must("distanceKind"), Must("limit"), Must("radiusKm"),
     Must("sort"), Must("availabilityNote")]
  }

  function MatchEntries(): seq<Entry> {
    [Must("facility"), Must("distanceKm")]
  }

  function PlaceEntries(): seq<Entry> {
    [Must("facilityId"), May("genre"), May("skatingPermissionSourceUrl"), Must("name"), Must("address"), Must("prefecture"),
     Must("municipality"), Must("location"), Must("activities")]
  }

  function HoursEntries(): seq<Entry> {
    [May("hours"), May("hoursStatus"), May("hoursSourceUrl"), May("generalUseStatus"), May("hoursBasis"),
     May("availabilityNote"), May("scheduleNotes"), May("closurePeriods")]
  }

  function FactsEntries(): seq<Entry> {
    [May("price"), May("reservation"), Must("beginnerFriendly"), May("features"), May("rules"), May("access"),
     Must("englishTranslation"), May("media"), May("socialLinks")]
  }

  function EvidenceEntries(): seq<Entry> {
    [Must("sourceUrl"), Must("sourceType"), Must("status"), May("confidence"), May("updatedAt"), Must("verifiedAt"),
     Must("dynamicVerifiedAt"), Must("stableVerifiedAt")]
  }

  ghost predicate IsText(j: Json) {
    j.Scalar? && j.token.Text?
  }

  ghost predicate IsNumber(j: Json) {
    j.Scalar? && j.token.Number?
  }

  /** A spot's record. */
  ghost predicate RecordLayout(j: Json) {
    && HasMembers(j, PlaceEntries() + HoursEntries() + FactsEntries() + EvidenceEntries())
    && forall m | m in j.members ::
         && (m.name in {"facilityId", "name", "genre", "hoursStatus", "generalUseStatus", "verifiedAt"} ==> IsText(m.value))
         && (m.name == "activities" ==> m.value.Array? && forall x | x in m.value.items :: IsText(x))
  }

  ghost predicate MatchLayout(j: Json) {
    && HasMembers(j, MatchEntries())
    && forall m | m in j.members :: if m.name == "facility" then RecordLayout(m.value) else IsNumber(m.value)
  }

  ghost predicate LabelLayout(j: Json) {
    HasMembers(j, [Must("label")]) && forall m | m in j.members :: IsText(m.value)
  }

  /** The type of a member goes by its name. */
  ghost predicate AnswerMember(m: Member) {
    if m.name == "matches" then m.value.Array? && forall x | x in m.value.items :: MatchLayout(x)
    else if m.name == "locationCandidates" then m.value.Array? && forall x | x in m.value.items :: LabelLayout(x)
    else if m.name == "limit" || m.name == "radiusKm" then IsNumber(m.value)
    else IsText(m.value)
  }

  ghost predicate AnswerLayout(j: Json) {
    && HasMembers(j, AnswerEntries())
    && forall m | m in j.members :: AnswerMember(m)
  }

  /** What the shape of a struct asks of a tree, tag by tag. */
  ghost predicate FollowsTags(j: Json, tags: Tags, depth: nat) {
    && j.Object? && DistinctNames(j.members)
    && (forall m | m in j.members ::
          exists i :: 0 <= i < |tags| && tags[i].name == m.name && Conforms(m.value, tags[i].shape, depth + 1))
    && (forall i | 0 <= i < |tags| && !tags[i].omitempty :: tags[i].name in NamesOf(j.members))
  }

  lemma StructFollows(j: Json, tags: Tags, depth: nat)
    requires DistinctTags(tags) && Conforms(j, StructShape(tags), depth)
    ensures FollowsTags(j, tags, depth)
  {
    FieldsMeaning(tags);
    hide Fields;
    forall m | m in j.members
      ensures exists i :: 0 <= i < |tags| && tags[i].name == m.name && Conforms(m.value, tags[i].shape, depth + 1)
    {
      assert m.name in Fields(tags);
      var i :| 0 <= i < |tags| && tags[i].name == m.name;
    }
  }

  function EntryOf(t: Tag): Entry {
    if t.omitempty then May(t.name) else Must(t.name)
  }

  /** The entries are those of the tags, one by one. */
  ghost predicate EntriesOf(entries: seq<Entry>, tags: Tags) {
    |entries| == |tags| && forall i | 0 <= i < |tags| :: entries[i] == EntryOf(tags[i])
  }

  lemma FollowersHaveMembers(j: Json, tags: Tags, entries: seq<Entry>, depth: nat)
    requires FollowsTags(j, tags, depth) && EntriesOf(entries, tags)
    ensures HasMembers(j, entries)
  {
    hide Conforms;
    forall e | e in entries && e.Must?
      ensures e.name in NamesOf(j.members)
    {
      var i :| 0 <= i < |tags| && entries[i] == e;
      assert EntryOf(tags[i]) == e;
    }
    forall m | m in j.members
      ensures Must(m.name) in entries || May(m.name) in entries
    {
      var i :| 0 <= i < |tags| && tags[i].name == m.name;
      assert entries[i] in entries && entries[i] == EntryOf(tags[i]);
    }
  }

  lemma LabelHasLayout(j: Json, depth: nat)
    requires Conforms(j, StructShape(LabelTags()), depth)
    ensures LabelLayout(j)
  {
    StructFollows(j, LabelTags(), depth);
    FollowersHaveMembers(j, LabelTags(), [Must("label")], depth);
    hide HasMembers, NamesOf, DistinctNames;
  }

  lemma MatchEntryList()
    ensures EntriesOf(MatchEntries(), MatchTags())
  {
    hide FacilityTags, StructShape;
  }

  lemma MatchHasLayout(j: Json, depth: nat)
    requires Conforms(j, StructShape(MatchTags()), depth)
    ensures MatchLayout(j)
  {
    hide FacilityTags, StructShape, HasMembers, RecordLayout, EntriesOf;
    MatchTagsDistinct();
    MatchEntryList();
    StructFollows(j, MatchTags(), depth);
    FollowersHaveMembers(j, MatchTags(), MatchEntries(), depth);
    forall m | m in j.members
      ensures if m.name == "facility" then RecordLayout(m.value) else IsNumber(m.value)
    {
      if m.name == "facility" {
        assert |"facility"| != |"distanceKm"|;
        RecordHasLayout(m.value, depth + 1);
      }
    }
  }

  // ---------- the record ----------

  lemma RecordEntryLists()
    ensures EntriesOf(PlaceEntries(), PlaceTags()) && EntriesOf(HoursEntries(), HoursTags())
    ensures EntriesOf(FactsEntries(), FactsTags()) && EntriesOf(EvidenceEntries(), EvidenceTags())
  {
    hide StructShape, LocationTags, PeriodTags, ClosureTags, AccessTags, TranslationTags, MediaTags, SocialTags;
  }

  lemma EntriesJoin(a: seq<Entry>, s: Tags, b: seq<Entry>, t: Tags)
    requires EntriesOf(a, s) && EntriesOf(b, t)
    ensures EntriesOf(a + b, s + t)
  {
  }

  lemma RecordEntries()
    ensures EntriesOf(PlaceEntries() + HoursEntries() + FactsEntries() + EvidenceEntries(), FacilityTags())
  {
    hide PlaceTags, HoursTags, FactsTags, EvidenceTags, PlaceEntries, HoursEntries, FactsEntries, EvidenceEntries, EntriesOf;
    RecordEntryLists();
    EntriesJoin(PlaceEntries(), PlaceTags(), HoursEntries(), HoursTags());
    EntriesJoin(PlaceEntries() + HoursEntries(), PlaceTags() + HoursTags(), FactsEntries(), FactsTags());
    EntriesJoin(PlaceEntries() + HoursEntries() + FactsEntries(), PlaceTags() + HoursTags() + FactsTags(),
                EvidenceEntries(), EvidenceTags());
  }

  lemma RecordHasLayout(j: Json, depth: nat)
    requires Conforms(j, StructShape(FacilityTags()), depth)
    ensures RecordLayout(j)
  {
    hide FacilityTags, Conforms, StructShape, EntriesOf, HasMembers;
    hide PlaceEntries, HoursEntries, FactsEntries, EvidenceEntries, PlaceTags, HoursTags, FactsTags, EvidenceTags;
    FacilityTagsDistinct();
    RecordEntries();
    StructFollows(j, FacilityTags(), depth);
    FollowersHaveMembers(j, FacilityTags(), PlaceEntries() + HoursEntries() + FactsEntries() + EvidenceEntries(), depth);
    forall m | m in j.members { TypedMember(m, depth); }
  }

  lemma TypedMember(m: Member, depth: nat)
    requires exists i :: 0 <= i < |FacilityTags()| && FacilityTags()[i].name == m.name
                         && Conforms(m.value, FacilityTags()[i].shape, depth + 1)
    ensures m.name in {"facilityId", "name", "genre", "hoursStatus", "generalUseStatus", "verifiedAt"} ==> IsText(m.value)
    ensures m.name == "activities" ==> m.value.Array? && forall x | x in m.value.items :: IsText(x)
  {
    hide FacilityTags;
    var i :| 0 <= i < |FacilityTags()| && FacilityTags()[i].name == m.name && Conforms(m.value, FacilityTags()[i].shape, depth + 1);
    TagShape(i);
    if m.name == "activities" { TextsOnly(m.value, depth + 1); }
  }

  lemma TextsOnly(j: Json, depth: nat)
    requires Conforms(j, Slice(StringShape), depth)
    ensures j.Array? && forall x | x in j.items :: IsText(x)
  {
  }

  lemma TagShape(i: nat)
    requires i < |FacilityTags()|
    ensures var t := FacilityTags()[i];
            && (t.name in {"facilityId", "name", "genre", "hoursStatus", "generalUseStatus"} ==> t.shape == StringShape)
            && (t.name == "verifiedAt" ==> t.shape == TimeShape)
            && (t.name == "activities" ==> t.shape == Slice(StringShape))
  {
    hide StructShape, LocationTags, PeriodTags, ClosureTags, AccessTags, TranslationTags, MediaTags, SocialTags;
  }

  // ---------- the answer ----------

  lemma AnswerEntryList()
    ensures EntriesOf(AnswerEntries(), ResponseTags())
  {
    hide MatchTags, LabelTags, StructShape;
  }

  lemma MatchesHaveLayout(j: Json)
    requires Conforms(j, Slice(StructShape(MatchTags())), 1)
    ensures j.Array? && forall x | x in j.items :: MatchLayout(x)
  {
    hide MatchTags, StructShape, MatchLayout;
    forall x | x in j.items { MatchHasLayout(x, 2); }
  }

  lemma LabelsHaveLayout(j: Json)
    requires Conforms(j, Slice(StructShape(LabelTags())), 1)
    ensures j.Array? && forall x | x in j.items :: LabelLayout(x)
  {
    hide LabelTags, StructShape, LabelLayout;
    forall x | x in j.items { LabelHasLayout(x, 2); }
  }

  lemma TypedAnswerMember(m: Member, i: nat)
    requires i < |ResponseTags()| && ResponseTags()[i].name == m.name && Conforms(m.value, ResponseTags()[i].shape, 1)
    ensures AnswerMember(m)
  {
    hide MatchTags, LabelTags, StructShape, MatchLayout, LabelLayout;
    assert |"matches"| == 7 && |"locationCandidates"| == 18 && |"limit"| == 5 && |"radiusKm"| == 8;
    assert |"status"| == 6 && |"distanceKind"| == 12 && |"sort"| == 4 && |"availabilityNote"| == 16;
    if i == 1 {
      MatchesHaveLayout(m.value);
    } else if i == 2 {
      LabelsHaveLayout(m.value);
    }
  }

  lemma AnswerHasLayout(j: Json)
    requires Conforms(j, ResponseShape(), 0)
    ensures AnswerLayout(j)
  {
    hide ResponseTags, AnswerEntries, StructShape, MatchTags, LabelTags, EntriesOf, HasMembers, AnswerMember, Conforms;
    ResponseTagsDistinct();
    AnswerEntryList();
    StructFollows(j, ResponseTags(), 0);
    FollowersHaveMembers(j, ResponseTags(), AnswerEntries(), 0);
    forall m | m in j.members
      ensures AnswerMember(m)
    {
      var i :| 0 <= i < |ResponseTags()| && ResponseTags()[i].name == m.name && Conforms(m.value, ResponseTags()[i].shape, 1);
      TypedAnswerMember(m, i);
    }
  }

  /** A body that passes the check is laid out like an answer of the API, to the last member name and type. */
  lemma AcceptedHasLayout(tokens: seq<Token>)
    requires Check(tokens, ResponseShape(), 0) == Some([])
    ensures exists j :: tokens == Tokens(j) && AnswerLayout(j)
  {
    hide Check, Tokens, Conforms, ResponseTags, AnswerLayout;
    WholeBody(tokens, ResponseShape());
    var j :| IsBody(tokens, ResponseShape(), j);
    AnswerHasLayout(j);
  }

  // ---------- what stands under a name ----------

  ghost predicate Holds(j: Json, name: string, value: Option<Json>) {
    j.Object? && Get(j.members, name) == value
  }

  lemma StructHolds(tags: Tags, row: Row)
    requires |tags| == |row| && DistinctTags(tags)
    ensures forall i | 0 <= i < |tags| :: Holds(StructTree(tags, row), tags[i].name, row[i])
  {
    hide Get, Members;
    forall i | 0 <= i < |tags| { GetBack(tags, row, i); }
  }

  /** Each member of an answer is the field of its name; the captions of a clear answer are left out. */
  lemma AnswerHolds(r: Response, n: Notation)
    ensures var j := ResponseTree(r, n);
            && Holds(j, "status", Some(TextTree(StatusText(r.status))))
            && Holds(j, "matches", Some(Array(MatchTrees(r.matches, n))))
            && Holds(j, "locationCandidates", if r.candidates == [] then None else Some(Array(LabelTrees(r.candidates))))
            && Holds(j, "distanceKind", Some(TextTree(r.distanceKind)))
            && Holds(j, "limit", Some(NumberTree(r.limit as real)))
            && Holds(j, "radiusKm", Some(NumberTree(r.radiusKm)))
            && Holds(j, "sort", Some(TextTree(r.sort)))
            && Holds(j, "availabilityNote", Some(TextTree(r.availabilityNote)))
  {
    hide MatchTags, LabelTags, StructShape, StructTree, MatchTree, LabelTree, StatusText, Holds, DistinctTags;
    ResponseTagsDistinct();
    ResponseItems(r, n);
    var tags := ResponseTags();
    assert tags[0].name == "status" && tags[1].name == "matches" && tags[2].name == "locationCandidates";
    assert tags[3].name == "distanceKind" && tags[4].name == "limit" && tags[5].name == "radiusKm";
    assert tags[6].name == "sort" && tags[7].name == "availabilityNote";
    hide ResponseTags, ResponseRow;
    StructHolds(tags, ResponseRow(r, n));
    assert |LabelTrees(r.candidates)| == |r.candidates|;
  }

  lemma MatchHolds(m: Match, n: Notation)
    ensures Holds(MatchTree(m, n), "facility", Some(FacilityTree(m.facility, n)))
    ensures Holds(MatchTree(m, n), "distanceKm", Some(NumberTree(m.distanceKm)))
  {
    hide FacilityTags, StructShape, StructTree, FacilityTree, Holds, DistinctTags;
    MatchTagsDistinct();
    StructHolds(MatchTags(), MatchRow(m, n));
    var tags, row := MatchTags(), MatchRow(m, n);
    assert tags[0].name == "facility" && tags[1].name == "distanceKm" && row[0].Some? && row[1].Some?;
  }

  lemma LocationHolds(l: Location)
    ensures Holds(LocationTree(l), "latitude", Some(NumberTree(l.latitude)))
    ensures Holds(LocationTree(l), "longitude", Some(NumberTree(l.longitude)))
  {
    hide StructTree, Holds;
    assert DistinctTags(LocationTags());
    StructHolds(LocationTags(), LocationRow(l));
    var tags, row := LocationTags(), LocationRow(l);
    assert tags[0].name == "latitude" && tags[1].name == "longitude" && row[0].Some? && row[1].Some?;
  }

  lemma PeriodHolds(p: Period, n: Notation)
    ensures var j := PeriodTree(p, n);
            && Holds(j, "day", Some(TextTree(n.dayText(p.day))))
            && Holds(j, "opens", OptionalClock(p.opens, n)) && Holds(j, "closes", OptionalClock(p.closes, n))
            && Holds(j, "closed", if p.closed then Some(FlagTree(true)) else None)
  {
    hide StructTree, Holds;
    assert DistinctTags(PeriodTags());
    StructHolds(PeriodTags(), PeriodRow(p, n));
    var tags, row := PeriodTags(), PeriodRow(p, n);
    assert tags[0].name == "day" && tags[1].name == "opens" && tags[2].name == "closes" && tags[3].name == "closed";
    assert row[0].Some? && row[1] == OptionalClock(p.opens, n) && row[2] == OptionalClock(p.closes, n);
    assert row[3] == OptionalFlag(p.closed);
  }

  /** Part k of the row stands under the names of part k of the tags. */
  lemma PartHolds(f: Facility, n: Notation, tags: Tags, row: Row, from: nat)
    requires |tags| == |row| && from + |tags| <= |FacilityTags()|
    requires forall i | 0 <= i < |tags| :: FacilityTags()[from + i] == tags[i] && FacilityRow(f, n)[from + i] == row[i]
    ensures forall i | 0 <= i < |tags| :: Holds(FacilityTree(f, n), tags[i].name, row[i])
  {
    hide FacilityTags, FacilityRow, StructTree, Holds, DistinctTags;
    FacilityTagsDistinct();
    StructHolds(FacilityTags(), FacilityRow(f, n));
    forall i | 0 <= i < |tags|
      ensures Holds(FacilityTree(f, n), tags[i].name, row[i])
    {
      assert Holds(FacilityTree(f, n), FacilityTags()[from + i].name, FacilityRow(f, n)[from + i]);
    }
  }

  lemma PartsHold(f: Facility, n: Notation)
    ensures |PlaceTags()| == |PlaceRow(f, n)| && |HoursTags()| == |HoursRow(f, n)|
    ensures |FactsTags()| == |FactsRow(f, n)| && |EvidenceTags()| == |EvidenceRow(f, n)|
    ensures var j := FacilityTree(f, n);
            && (forall i | 0 <= i < |PlaceTags()| :: Holds(j, PlaceTags()[i].name, PlaceRow(f, n)[i]))
            && (forall i | 0 <= i < |HoursTags()| :: Holds(j, HoursTags()[i].name, HoursRow(f, n)[i]))
            && (forall i | 0 <= i < |FactsTags()| :: Holds(j, FactsTags()[i].name, FactsRow(f, n)[i]))
            && (forall i | 0 <= i < |EvidenceTags()| :: Holds(j, EvidenceTags()[i].name, EvidenceRow(f, n)[i]))
  {
    RowLengths(f, n);
    hide PlaceTags, HoursTags, FactsTags, EvidenceTags, PlaceRow, HoursRow, FactsRow, EvidenceRow, FacilityTree, Holds;
    PartHolds(f, n, PlaceTags(), PlaceRow(f, n), 0);
    PartHolds(f, n, HoursTags(), HoursRow(f, n), 9);
    PartHolds(f, n, FactsTags(), FactsRow(f, n), 17);
    PartHolds(f, n, EvidenceTags(), EvidenceRow(f, n), 26);
  }

  /** Each member of a record is the field of its name: the place. */
  lemma PlaceHolds(f: Facility, n: Notation)
    ensures var j := FacilityTree(f, n);
            && Holds(j, "facilityId", Some(TextTree(f.id))) && Holds(j, "genre", OptionalText(GenreText(f.genre)))
            && Holds(j, "skatingPermissionSourceUrl", OptionalLink(f.permissionSource))
            && Holds(j, "name", Some(TextTree(f.name))) && Holds(j, "address", Some(TextTree(f.address)))
            && Holds(j, "prefecture", Some(TextTree(f.prefecture))) && Holds(j, "municipality", Some(TextTree(f.municipality)))
            && Holds(j, "location", Some(LocationTree(f.location))) && Holds(j, "activities", Some(SliceTree(f.activities)))
  {
    PartsHold(f, n);
    hide FacilityTree, Holds, HoursTags, FactsTags, EvidenceTags, HoursRow, FactsRow, EvidenceRow, StructShape, LocationTags;
    hide TextTree, OptionalText, OptionalLink, GenreText, LocationTree, SliceTree;
    var tags, row := PlaceTags(), PlaceRow(f, n);
    assert tags[0].name == "facilityId" && tags[1].name == "genre" && tags[2].name == "skatingPermissionSourceUrl";
    assert tags[3].name == "name" && tags[4].name == "address" && tags[5].name == "prefecture";
    assert tags[6].name == "municipality" && tags[7].name == "location" && tags[8].name == "activities";
  }

  /** The hours. */
  lemma HoursHold(f: Facility, n: Notation)
    ensures var j := FacilityTree(f, n);
            && Holds(j, "hours", OptionalList(PeriodTrees(f.hours, n)))
            && Holds(j, "hoursStatus", OptionalText(HoursStatusText(f.hoursStatus)))
            && Holds(j, "hoursSourceUrl", OptionalLink(f.hoursSource))
            && Holds(j, "generalUseStatus", OptionalText(GeneralUseText(f.generalUse)))
            && Holds(j, "hoursBasis", OptionalText(HoursBasisText(f.hoursBasis)))
            && Holds(j, "availabilityNote", OptionalText(f.availabilityNote))
            && Holds(j, "scheduleNotes", OptionalList(Texts(f.scheduleNotes)))
            && Holds(j, "closurePeriods", OptionalList(ClosureTrees(f.closures, n)))
  {
    PartsHold(f, n);
    hide FacilityTree, Holds, PlaceTags, FactsTags, EvidenceTags, PlaceRow, FactsRow, EvidenceRow, StructShape, PeriodTags, ClosureTags;
    hide OptionalText, OptionalLink, OptionalList, PeriodTrees, ClosureTrees, Texts, HoursStatusText, GeneralUseText, HoursBasisText;
    HoursItems(f, n);
    var tags := HoursTags();
    assert tags[0].name == "hours" && tags[1].name == "hoursStatus" && tags[2].name == "hoursSourceUrl";
    assert tags[3].name == "generalUseStatus" && tags[4].name == "hoursBasis" && tags[5].name == "availabilityNote";
    assert tags[6].name == "scheduleNotes" && tags[7].name == "closurePeriods";
  }

  /** The facts. */
  lemma FactsHold(f: Facility, n: Notation)
    ensures var j := FacilityTree(f, n);
            && Holds(j, "price", OptionalText(f.price)) && Holds(j, "reservation", OptionalText(f.reservation))
            && Holds(j, "beginnerFriendly", Some(FlagTree(f.beginnerFriendly)))
            && Holds(j, "features", OptionalList(Texts(f.features))) && Holds(j, "rules", OptionalList(Texts(f.rules)))
            && Holds(j, "access", Some(AccessTree(f.access)))
            && Holds(j, "englishTranslation", Some(TranslationTree(f.english)))
            && Holds(j, "media", OptionalMedia(f.media, n)) && Holds(j, "socialLinks", OptionalList(SocialTrees(f.socialLinks, n)))
  {
    PartsHold(f, n);
    hide FacilityTree, Holds, PlaceTags, HoursTags, EvidenceTags, PlaceRow, HoursRow, EvidenceRow, StructShape;
    hide AccessTags, TranslationTags, MediaTags, SocialTags, AccessTree, TranslationTree, OptionalMedia, SocialTrees;
    hide OptionalText, OptionalList, Texts, FlagTree;
    var tags, row := FactsTags(), FactsRow(f, n);
    assert tags[0].name == "price" && tags[1].name == "reservation" && tags[2].name == "beginnerFriendly";
    assert tags[3].name == "features" && tags[4].name == "rules" && tags[5].name == "access";
    assert tags[6].name == "englishTranslation" && tags[7].name == "media" && tags[8].name == "socialLinks";
  }

  /** The evidence. */
  lemma EvidenceHolds(f: Facility, n: Notation)
    ensures var j := FacilityTree(f, n);
            && Holds(j, "sourceUrl", Some(LinkTree(f.source))) && Holds(j, "sourceType", Some(TextTree(f.sourceType)))
            && Holds(j, "status", Some(TextTree(f.status))) && Holds(j, "confidence", OptionalText(f.confidence))
            && Holds(j, "updatedAt", OptionalTime(f.updatedAt, n)) && Holds(j, "verifiedAt", Some(TimeTree(f.verifiedAt, n)))
            && Holds(j, "dynamicVerifiedAt", Some(TimeTree(f.dynamicVerifiedAt, n)))
            && Holds(j, "stableVerifiedAt", Some(TimeTree(f.stableVerifiedAt, n)))
  {
    PartsHold(f, n);
    hide FacilityTree, Holds, PlaceTags, HoursTags, FactsTags, PlaceRow, HoursRow, FactsRow;
    hide TextTree, LinkTree, TimeTree, OptionalText, OptionalTime;
    var tags, row := EvidenceTags(), EvidenceRow(f, n);
    assert tags[0].name == "sourceUrl" && tags[1].name == "sourceType" && tags[2].name == "status";
    assert tags[3].name == "confidence" && tags[4].name == "updatedAt" && tags[5].name == "verifiedAt";
    assert tags[6].name == "dynamicVerifiedAt" && tags[7].name == "stableVerifiedAt";
  }
}
