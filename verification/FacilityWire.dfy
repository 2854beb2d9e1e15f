/**
 A facility record as JSON (internal/facility/model.go:79-114): what travels is the whole
 record, it comes back unchanged, and it has the shape the client expects unless a list that
 may not be left out is nil.
 */
module FacilityWire {
  import opened Wrappers
  import opened OpeningHours
  import opened Facilities
  import opened WireShape
  import opened WireStruct
  import opened RecordWire
  import Links

  // ---------- enumerations by their texts ----------

  function HoursStatusText(s: HoursStatus): string {
    match s
    case Unspecified => ""
    case Known => "known"
    case NotApplicable => "not_applicable"
    case Unknown => "unknown"
    case OtherHoursStatus => "other"
  }

  function GeneralUseText(u: GeneralUse): string {
    match u
    case UseUnspecified => ""
    case Regular => "regular"
    case Limited => "limited"
    case ScheduleCheckRequired => "schedule_check_required"
    case OtherUse => "other"
  }

  function HoursBasisText(b: HoursBasis): string {
    match b
    case NoBasis => ""
    case Official => "official"
    case Conservative => "conservative"
    case OtherBasis => "other"
  }

  function ReadGenre(o: Option<Json>): Option<Genre> {
    var text := ReadText(o);
    if text.None? then None
    else Some(if text.value == "" then Unclassified
              else if text.value == "skatepark" then Skatepark
              else if text.value == "street" then Street
              else OtherGenre)
  }

  function ReadHoursStatus(o: Option<Json>): Option<HoursStatus> {
    var text := ReadText(o);
    if text.None? then None
    else Some(if text.value == "" then Unspecified
              else if text.value == "known" then Known
              else if text.value == "not_applicable" then NotApplicable
              else if text.value == "unknown" then Unknown
              else OtherHoursStatus)
  }

  function ReadGeneralUse(o: Option<Json>): Option<GeneralUse> {
    var text := ReadText(o);
    if text.None? then None
    else Some(if text.value == "" then UseUnspecified
              else if text.value == "regular" then Regular
              else if text.value == "limited" then Limited
              else if text.value == "schedule_check_required" then ScheduleCheckRequired
              else OtherUse)
  }

  function ReadHoursBasis(o: Option<Json>): Option<HoursBasis> {
    var text := ReadText(o);
    if text.None? then None
    else Some(if text.value == "" then NoBasis
              else if text.value == "official" then Official
              else if text.value == "conservative" then Conservative
              else OtherBasis)
  }

  lemma EnumerationsReadBack(g: Genre, s: HoursStatus, u: GeneralUse, b: HoursBasis)
    ensures ReadGenre(OptionalText(GenreText(g))) == Some(g)
    ensures ReadHoursStatus(OptionalText(HoursStatusText(s))) == Some(s)
    ensures ReadGeneralUse(OptionalText(GeneralUseText(u))) == Some(u)
    ensures ReadHoursBasis(OptionalText(HoursBasisText(b))) == Some(b)
  {
    assert |"skatepark"| == 9 && |"street"| == 6 && |"other"| == 5;
    assert "known"[0] == 'k' && |"not_applicable"| == 14 && |"unknown"| == 7;
    assert "regular"[0] == 'r' && "limited"[0] == 'l' && |"schedule_check_required"| == 23;
    assert |"official"| == 8 && |"conservative"| == 12;
  }

  // ---------- lists of parts ----------

  function PeriodTrees(hours: seq<Period>, n: Notation): seq<Json> {
    seq(|hours|, i requires 0 <= i < |hours| => PeriodTree(hours[i], n))
  }

  function ReadHours(o: Option<Json>, n: Notation): Option<seq<Period>> {
    ReadList(o, (j: Json) => ReadPeriod(j, n))
  }

  function ClosureTrees(closures: seq<Closure>, n: Notation): seq<Json> {
    seq(|closures|, i requires 0 <= i < |closures| => ClosureTree(closures[i], n))
  }

  function ReadClosures(o: Option<Json>, n: Notation): Option<seq<Closure>> {
    ReadList(o, (j: Json) => ReadClosure(j, n))
  }

  function SocialTrees(links: seq<SocialLink>, n: Notation): seq<Json> {
    seq(|links|, i requires 0 <= i < |links| => SocialTree(links[i], n))
  }

  function ReadSocialLinks(o: Option<Json>, n: Notation): Option<seq<SocialLink>> {
    ReadList(o, (j: Json) => ReadSocial(j, n))
  }

  function OptionalTime(t: Option<Time>, n: Notation): Option<Json> {
    if t.None? then None else Some(TimeTree(t.value, n))
  }

  /** A missing pointer stays nil. */
  function ReadOptionalTime(o: Option<Json>, n: Notation): Option<Option<Time>> {
    if o.None? then Some(None)
    else
      var t := ReadTime(o, n);
      if t.None? then None else Some(Some(t.value))
  }

  /** The record was read in this notation: each day, clock, date, time and link is what its text reads as. */
  ghost predicate Legible(f: Facility, n: Notation) {
    && LegibleLink(f.permissionSource, n) && LegibleLink(f.hoursSource, n) && LegibleLink(f.source, n)
    && (forall p | p in f.hours :: LegiblePeriod(p, n))
    && (forall c | c in f.closures :: LegibleClosure(c, n))
    && (f.media.Some? ==> LegibleMedia(f.media.value, n))
    && (forall l | l in f.socialLinks :: LegibleSocialLink(l, n))
    && (f.updatedAt.Some? ==> LegibleTime(f.updatedAt.value, n))
    && LegibleTime(f.verifiedAt, n) && LegibleTime(f.dynamicVerifiedAt, n) && LegibleTime(f.stableVerifiedAt, n)
  }

  lemma ListsReadBack(f: Facility, n: Notation)
    requires Legible(f, n)
    ensures ReadHours(OptionalList(PeriodTrees(f.hours, n)), n) == Some(f.hours)
    ensures ReadClosures(OptionalList(ClosureTrees(f.closures, n)), n) == Some(f.closures)
    ensures ReadSocialLinks(OptionalList(SocialTrees(f.socialLinks, n)), n) == Some(f.socialLinks)
  {
    hide PeriodTree, ReadPeriod, ClosureTree, ReadClosure, SocialTree, ReadSocial;
    hide LegiblePeriod, LegibleClosure, LegibleSocialLink;
    forall i | 0 <= i < |f.hours| { PeriodReadsBack(f.hours[i], n); }
    ListReadsBack(PeriodTrees(f.hours, n), f.hours, (j: Json) => ReadPeriod(j, n));
    forall i | 0 <= i < |f.closures| { ClosureReadsBack(f.closures[i], n); }
    ListReadsBack(ClosureTrees(f.closures, n), f.closures, (j: Json) => ReadClosure(j, n));
    forall i | 0 <= i < |f.socialLinks| { SocialReadsBack(f.socialLinks[i], n); }
    ListReadsBack(SocialTrees(f.socialLinks, n), f.socialLinks, (j: Json) => ReadSocial(j, n));
  }

  lemma ListsConform(f: Facility, n: Notation, depth: nat)
    requires depth < MAX_DEPTH - 1
    ensures FitsOptional(OptionalList(PeriodTrees(f.hours, n)), Slice(StructShape(PeriodTags())), depth)
    ensures FitsOptional(OptionalList(ClosureTrees(f.closures, n)), Slice(StructShape(ClosureTags())), depth)
    ensures FitsOptional(OptionalList(SocialTrees(f.socialLinks, n)), Slice(StructShape(SocialTags())), depth)
  {
    hide PeriodTree, PeriodTags, ClosureTree, ClosureTags, SocialTree, SocialTags, StructShape;
    forall i | 0 <= i < |f.hours| { PeriodConforms(f.hours[i], n, depth + 1); }
    forall i | 0 <= i < |f.closures| { ClosureConforms(f.closures[i], n, depth + 1); }
    forall i | 0 <= i < |f.socialLinks| { SocialConforms(f.socialLinks[i], n, depth + 1); }
  }

  ghost predicate FitsOptional(o: Option<Json>, shape: Shape, depth: nat) {
    o.Some? ==> Conforms(o.value, shape, depth)
  }

  // ---------- the record, in four parts ----------

  function PlaceTags(): Tags {
    [Tag("facilityId", StringShape, false), Tag("genre", StringShape, true),
     Tag("skatingPermissionSourceUrl", StringShape, true), Tag("name", StringShape, false),
     Tag("address", StringShape, false), Tag("prefecture", StringShape, false),
     Tag("municipality", StringShape, false), Tag("location", StructShape(LocationTags()), false),
     Tag("activities", Slice(StringShape), false)]
  }

  function PlaceRow(f: Facility, n: Notation): Row {
    [Some(TextTree(f.id)), OptionalText(GenreText(f.genre)), OptionalLink(f.permissionSource),
     Some(TextTree(f.name)), Some(TextTree(f.address)), Some(TextTree(f.prefecture)), Some(TextTree(f.municipality)),
     Some(LocationTree(f.location)), Some(SliceTree(f.activities))]
  }

  function HoursTags(): Tags {
    [Tag("hours", Slice(StructShape(PeriodTags())), true), Tag("hoursStatus", StringShape, true),
     Tag("hoursSourceUrl", StringShape, true), Tag("generalUseStatus", StringShape, true),
     Tag("hoursBasis", StringShape, true), Tag("availabilityNote", StringShape, true),
     Tag("scheduleNotes", Slice(StringShape), true), Tag("closurePeriods", Slice(StructShape(ClosureTags())), true)]
  }

  function HoursRow(f: Facility, n: Notation): Row {
    [OptionalList(PeriodTrees(f.hours, n)), OptionalText(HoursStatusText(f.hoursStatus)),
     OptionalLink(f.hoursSource), OptionalText(GeneralUseText(f.generalUse)),
     OptionalText(HoursBasisText(f.hoursBasis)), OptionalText(f.availabilityNote),
     OptionalList(Texts(f.scheduleNotes)), OptionalList(ClosureTrees(f.closures, n))]
  }

  function FactsTags(): Tags {
    [Tag("price", StringShape, true), Tag("reservation", StringShape, true),
     Tag("beginnerFriendly", BoolShape, false), Tag("features", Slice(StringShape), true),
     Tag("rules", Slice(StringShape), true), Tag("access", StructShape(AccessTags()), true),
     Tag("englishTranslation", StructShape(TranslationTags()), false), Tag("media", StructShape(MediaTags()), true),
     Tag("socialLinks", Slice(StructShape(SocialTags())), true)]
  }

  function FactsRow(f: Facility, n: Notation): Row {
    [OptionalText(f.price), OptionalText(f.reservation), Some(FlagTree(f.beginnerFriendly)),
     OptionalList(Texts(f.features)), OptionalList(Texts(f.rules)), Some(AccessTree(f.access)),
     Some(TranslationTree(f.english)), OptionalMedia(f.media, n), OptionalList(SocialTrees(f.socialLinks, n))]
  }

  function EvidenceTags(): Tags {
    [Tag("sourceUrl", StringShape, false), Tag("sourceType", StringShape, false), Tag("status", StringShape, false),
     Tag("confidence", StringShape, true), Tag("updatedAt", TimeShape, true), Tag("verifiedAt", TimeShape, false),
     Tag("dynamicVerifiedAt", TimeShape, false), Tag("stableVerifiedAt", TimeShape, false)]
  }

  function EvidenceRow(f: Facility, n: Notation): Row {
    [Some(LinkTree(f.source)), Some(TextTree(f.sourceType)), Some(TextTree(f.status)), OptionalText(f.confidence),
     OptionalTime(f.updatedAt, n), Some(TimeTree(f.verifiedAt, n)), Some(TimeTree(f.dynamicVerifiedAt, n)),
     Some(TimeTree(f.stableVerifiedAt, n))]
  }

  function FacilityTags(): Tags {
    PlaceTags() + HoursTags() + FactsTags() + EvidenceTags()
  }

  function FacilityRow(f: Facility, n: Notation): (row: Row)
    ensures |row| == |FacilityTags()|
  {
    PlaceRow(f, n) + HoursRow(f, n) + FactsRow(f, n) + EvidenceRow(f, n)
  }

  function FacilityTree(f: Facility, n: Notation): Json {
    StructTree(FacilityTags(), FacilityRow(f, n))
  }

  /** A member name is told from the others by its length and its first letter. */
  function Position(name: string): int {
    if name == "" then -1
    else
      match |name|
      case 4 => 3
      case 5 => if name[0] == 'g' then 1 else if name[0] == 'h' then 9 else if name[0] == 'p' then 17
                else if name[0] == 'r' then 21 else 24
      case 6 => if name[0] == 'a' then 22 else 28
      case 7 => 4
      case 8 => if name[0] == 'l' then 7 else 20
      case 9 => if name[0] == 's' then 26 else 30
      case 10 => if name[0] == 'f' then 0 else if name[0] == 'p' then 5 else if name[0] == 'a' then 8
                 else if name[0] == 'h' then 13 else if name[0] == 's' then 27 else if name[0] == 'c' then 29 else 31
      case 11 => if name[0] == 'h' then 10 else if name[0] == 'r' then 18 else 25
      case 12 => 6
      case 13 => 15
      case 14 => if name[0] == 'h' then 11 else 16
      case 16 => if name[0] == 'g' then 12 else if name[0] == 'a' then 14 else if name[0] == 'b' then 19 else 33
      case 17 => 32
      case 18 => 23
      case 26 => 2
      case _ => -1
  }

  ghost predicate NumberedFrom(tags: Tags, first: int) {
    forall i | 0 <= i < |tags| :: Position(tags[i].name) == first + i
  }

  lemma PlaceNumbered()
    ensures NumberedFrom(PlaceTags(), 0)
  {
    hide StructShape, LocationTags;
  }

  lemma HoursNumbered()
    ensures NumberedFrom(HoursTags(), 9)
  {
    hide StructShape, PeriodTags, ClosureTags;
  }

  lemma FactsNumbered()
    ensures NumberedFrom(FactsTags(), 17)
  {
    hide StructShape, AccessTags, TranslationTags, MediaTags, SocialTags;
  }

  lemma EvidenceNumbered()
    ensures NumberedFrom(EvidenceTags(), 26)
  {
    assert |"sourceUrl"| == 9 && |"sourceType"| == 10 && |"status"| == 6 && |"confidence"| == 10;
    assert |"updatedAt"| == 9 && |"verifiedAt"| == 10 && |"dynamicVerifiedAt"| == 17 && |"stableVerifiedAt"| == 16;
  }

  lemma NumberedJoin(a: Tags, b: Tags, first: int)
    requires NumberedFrom(a, first) && NumberedFrom(b, first + |a|)
    ensures NumberedFrom(a + b, first)
  {
    hide Position;
  }

  lemma TagCounts()
    ensures |PlaceTags()| == 9 && |HoursTags()| == 8 && |FactsTags()| == 9 && |EvidenceTags()| == 8
  {
    hide StructShape, LocationTags, PeriodTags, ClosureTags, AccessTags, TranslationTags, MediaTags, SocialTags;
  }

  lemma FacilityTagsDistinct()
    ensures DistinctTags(FacilityTags())
  {
    PlaceNumbered();
    HoursNumbered();
    FactsNumbered();
    EvidenceNumbered();
    TagCounts();
    hide PlaceTags, HoursTags, FactsTags, EvidenceTags, NumberedFrom, Position;
    NumberedJoin(PlaceTags(), HoursTags(), 0);
    NumberedJoin(PlaceTags() + HoursTags(), FactsTags(), 0);
    NumberedJoin(PlaceTags() + HoursTags() + FactsTags(), EvidenceTags(), 0);
    NumberedIsDistinct(FacilityTags());
  }

  lemma NumberedIsDistinct(tags: Tags)
    requires NumberedFrom(tags, 0)
    ensures DistinctTags(tags)
  {
    hide Position;
    NumberedTags(tags, Position);
  }

  // ---------- reading a record ----------

  /** The typed decoder, field by field in the same order. */
  function ReadFacility(j: Json, n: Notation): Option<Facility> {
    var row :- ReadRow(FacilityTags(), j);
    FacilityOf(row[..9], row[9..17], row[17..26], row[26..], n)
  }

  function FacilityOf(place: Row, times: Row, facts: Row, evidence: Row, n: Notation): Option<Facility>
    requires |place| == 9 && |times| == 8 && |facts| == 9 && |evidence| == 8
  {
    var id :- ReadText(place[0]);
    var genre :- ReadGenre(place[1]);
    var permissionSource :- ReadLink(place[2], n);
    var name :- ReadText(place[3]);
    var address :- ReadText(place[4]);
    var prefecture :- ReadText(place[5]);
    var municipality :- ReadText(place[6]);
    var location :- ReadLocation(place[7]);
    var activities :- ReadSlice(place[8]);
    var hours :- ReadHours(times[0], n);
    var hoursStatus :- ReadHoursStatus(times[1]);
    var hoursSource :- ReadLink(times[2], n);
    var generalUse :- ReadGeneralUse(times[3]);
    var hoursBasis :- ReadHoursBasis(times[4]);
    var availabilityNote :- ReadText(times[5]);
    var scheduleNotes :- ReadTexts(times[6]);
    var closures :- ReadClosures(times[7], n);
    var price :- ReadText(facts[0]);
    var reservation :- ReadText(facts[1]);
    var beginnerFriendly :- ReadFlag(facts[2]);
    var features :- ReadTexts(facts[3]);
    var rules :- ReadTexts(facts[4]);
    var access :- ReadAccess(facts[5]);
    var english :- ReadTranslation(facts[6]);
    var media :- ReadMedia(facts[7], n);
    var socialLinks :- ReadSocialLinks(facts[8], n);
    var source :- ReadLink(evidence[0], n);
    var sourceType :- ReadText(evidence[1]);
    var status :- ReadText(evidence[2]);
    var confidence :- ReadText(evidence[3]);
    var updatedAt :- ReadOptionalTime(evidence[4], n);
    var verifiedAt :- ReadTime(evidence[5], n);
    var dynamicVerifiedAt :- ReadTime(evidence[6], n);
    var stableVerifiedAt :- ReadTime(evidence[7], n);
    Some(Facility(
      id, genre, permissionSource, name, address, prefecture, municipality, location, activities, hours, hoursStatus,
      hoursSource, generalUse, hoursBasis, availabilityNote, scheduleNotes, closures, price, reservation,
      beginnerFriendly, features, rules, access, english, media, socialLinks, source, sourceType, status, confidence,
      updatedAt, verifiedAt, dynamicVerifiedAt, stableVerifiedAt))
  }

  lemma RowLengths(f: Facility, n: Notation)
    ensures |PlaceRow(f, n)| == |PlaceTags()| == 9 && |HoursRow(f, n)| == |HoursTags()| == 8
    ensures |FactsRow(f, n)| == |FactsTags()| == 9 && |EvidenceRow(f, n)| == |EvidenceTags()| == 8
  {
  }

  ghost predicate PlaceReads(r: Row, f: Facility, n: Notation)
    requires |r| == 9
  {
    && ReadText(r[0]) == Some(f.id)
    && ReadGenre(r[1]) == Some(f.genre)
    && ReadLink(r[2], n) == Some(f.permissionSource)
    && ReadText(r[3]) == Some(f.name)
    && ReadText(r[4]) == Some(f.address)
    && ReadText(r[5]) == Some(f.prefecture)
    && ReadText(r[6]) == Some(f.municipality)
    && ReadLocation(r[7]) == Some(f.location)
    && ReadSlice(r[8]) == Some(f.activities)
  }

  ghost predicate HoursReads(r: Row, f: Facility, n: Notation)
    requires |r| == 8
  {
    && ReadHours(r[0], n) == Some(f.hours)
    && ReadHoursStatus(r[1]) == Some(f.hoursStatus)
    && ReadLink(r[2], n) == Some(f.hoursSource)
    && ReadGeneralUse(r[3]) == Some(f.generalUse)
    && ReadHoursBasis(r[4]) == Some(f.hoursBasis)
    && ReadText(r[5]) == Some(f.availabilityNote)
    && ReadTexts(r[6]) == Some(f.scheduleNotes)
    && ReadClosures(r[7], n) == Some(f.closures)
  }

  ghost predicate FactsReads(r: Row, f: Facility, n: Notation)
    requires |r| == 9
  {
    && ReadText(r[0]) == Some(f.price)
    && ReadText(r[1]) == Some(f.reservation)
    && ReadFlag(r[2]) == Some(f.beginnerFriendly)
    && ReadTexts(r[3]) == Some(f.features)
    && ReadTexts(r[4]) == Some(f.rules)
    && ReadAccess(r[5]) == Some(f.access)
    && ReadTranslation(r[6]) == Some(f.english)
    && ReadMedia(r[7], n) == Some(f.media)
    && ReadSocialLinks(r[8], n) == Some(f.socialLinks)
  }

  ghost predicate EvidenceReads(r: Row, f: Facility, n: Notation)
    requires |r| == 8
  {
    && ReadLink(r[0], n) == Some(f.source)
    && ReadText(r[1]) == Some(f.sourceType)
    && ReadText(r[2]) == Some(f.status)
    && ReadText(r[3]) == Some(f.confidence)
    && ReadOptionalTime(r[4], n) == Some(f.updatedAt)
    && ReadTime(r[5], n) == Some(f.verifiedAt)
    && ReadTime(r[6], n) == Some(f.dynamicVerifiedAt)
    && ReadTime(r[7], n) == Some(f.stableVerifiedAt)
  }

  lemma PartsMakeRecord(place: Row, times: Row, facts: Row, evidence: Row, f: Facility, n: Notation)
    requires |place| == 9 && |times| == 8 && |facts| == 9 && |evidence| == 8
    requires PlaceReads(place, f, n) && HoursReads(times, f, n) && FactsReads(facts, f, n) && EvidenceReads(evidence, f, n)
    ensures FacilityOf(place, times, facts, evidence, n) == Some(f)
  {
    hide ReadGenre, ReadHoursStatus, ReadGeneralUse, ReadHoursBasis, GenreText, HoursStatusText, GeneralUseText, HoursBasisText;
    hide ReadTexts, ReadSlice, ReadHours, ReadClosures, ReadSocialLinks, ReadLocation, ReadAccess, ReadTranslation, ReadMedia;
    hide ReadText, ReadLink, ReadFlag, ReadTime, ReadOptionalTime;
  }

  lemma ScalarsReadBack()
    ensures forall s: string :: ReadText(OptionalText(s)) == Some(s) && ReadText(Some(TextTree(s))) == Some(s)
    ensures forall b: bool :: ReadFlag(Some(FlagTree(b))) == Some(b)
  {
  }

  lemma PlaceIsRead(f: Facility, n: Notation)
    requires Legible(f, n)
    ensures PlaceReads(PlaceRow(f, n), f, n)
  {
    hide ReadGenre, GenreText, ReadSlice, ReadLocation, SliceTree, LocationTree;
    EnumerationsReadBack(f.genre, f.hoursStatus, f.generalUse, f.hoursBasis);
    LocationReadsBack(f.location);
    SliceReadsBack(f.activities);
  }

  lemma HoursItems(f: Facility, n: Notation)
    ensures var r := HoursRow(f, n);
            && |r| == 8
            && r[0] == OptionalList(PeriodTrees(f.hours, n)) && r[1] == OptionalText(HoursStatusText(f.hoursStatus))
            && r[2] == OptionalLink(f.hoursSource) && r[3] == OptionalText(GeneralUseText(f.generalUse))
            && r[4] == OptionalText(HoursBasisText(f.hoursBasis)) && r[5] == OptionalText(f.availabilityNote)
            && r[6] == OptionalList(Texts(f.scheduleNotes)) && r[7] == OptionalList(ClosureTrees(f.closures, n))
  {
    hide OptionalList, OptionalText, OptionalLink, PeriodTrees, ClosureTrees, Texts;
    hide HoursStatusText, GeneralUseText, HoursBasisText;
  }

  lemma LinkReadsBack(l: Links.Link, n: Notation)
    requires LegibleLink(l, n)
    ensures ReadLink(OptionalLink(l), n) == Some(l) && ReadLink(Some(LinkTree(l)), n) == Some(l)
  {
  }

  lemma HoursAreRead(f: Facility, n: Notation)
    requires Legible(f, n)
    ensures HoursReads(HoursRow(f, n), f, n)
  {
    hide ReadHoursStatus, ReadGeneralUse, ReadHoursBasis, HoursStatusText, GeneralUseText, HoursBasisText;
    hide ReadTexts, ReadHours, ReadClosures, OptionalList, PeriodTrees, ClosureTrees, Texts, ReadText, OptionalText;
    hide ReadLink, OptionalLink, HoursRow, LegibleLink, LegiblePeriod, LegibleClosure, LegibleSocialLink;
    HoursItems(f, n);
    LinkReadsBack(f.hoursSource, n);
    ScalarsReadBack();
    EnumerationsReadBack(f.genre, f.hoursStatus, f.generalUse, f.hoursBasis);
    ListsReadBack(f, n);
    TextsReadBack(f.scheduleNotes);
  }

  lemma FactsItems(f: Facility, n: Notation)
    ensures var r := FactsRow(f, n);
            && |r| == 9
            && r[0] == OptionalText(f.price) && r[1] == OptionalText(f.reservation)
            && r[2] == Some(FlagTree(f.beginnerFriendly))
            && r[3] == OptionalList(Texts(f.features)) && r[4] == OptionalList(Texts(f.rules))
            && r[5] == Some(AccessTree(f.access)) && r[6] == Some(TranslationTree(f.english))
            && r[7] == OptionalMedia(f.media, n) && r[8] == OptionalList(SocialTrees(f.socialLinks, n))
  {
    hide OptionalList, OptionalText, FlagTree, AccessTree, TranslationTree, OptionalMedia, SocialTrees, Texts;
  }

  lemma FactsAreRead(f: Facility, n: Notation)
    requires Legible(f, n)
    ensures FactsReads(FactsRow(f, n), f, n)
  {
    hide ReadTexts, ReadSocialLinks, ReadAccess, ReadTranslation, ReadMedia, ReadText, ReadFlag;
    hide OptionalList, OptionalText, FlagTree, AccessTree, TranslationTree, OptionalMedia, SocialTrees, Texts, FactsRow;
    FactsItems(f, n);
    ScalarsReadBack();
    ListsReadBack(f, n);
    AccessReadsBack(f.access);
    TranslationReadsBack(f.english);
    MediaReadsBack(f.media, n);
    TextsReadBack(f.features);
    TextsReadBack(f.rules);
  }

  lemma EvidenceIsRead(f: Facility, n: Notation)
    requires Legible(f, n)
    ensures EvidenceReads(EvidenceRow(f, n), f, n)
  {
  }

  lemma JoinedSlices(a: Row, b: Row, c: Row, d: Row)
    requires |a| == 9 && |b| == 8 && |c| == 9 && |d| == 8
    ensures var r := a + b + c + d; r[..9] == a && r[9..17] == b && r[17..26] == c && r[26..] == d
  {
  }

  lemma RowSlices(f: Facility, n: Notation)
    ensures var r := FacilityRow(f, n);
            && |r| == |FacilityTags()| == 34
            && r[..9] == PlaceRow(f, n) && r[9..17] == HoursRow(f, n)
            && r[17..26] == FactsRow(f, n) && r[26..] == EvidenceRow(f, n)
  {
    RowLengths(f, n);
    hide PlaceRow, HoursRow, FactsRow, EvidenceRow, PlaceTags, HoursTags, FactsTags, EvidenceTags;
    JoinedSlices(PlaceRow(f, n), HoursRow(f, n), FactsRow(f, n), EvidenceRow(f, n));
  }

  lemma RowIsRead(f: Facility, n: Notation)
    requires Legible(f, n)
    ensures |PlaceRow(f, n)| == 9 && |HoursRow(f, n)| == 8 && |FactsRow(f, n)| == 9 && |EvidenceRow(f, n)| == 8
    ensures FacilityOf(PlaceRow(f, n), HoursRow(f, n), FactsRow(f, n), EvidenceRow(f, n), n) == Some(f)
  {
    hide PlaceReads, HoursReads, FactsReads, EvidenceReads, FacilityOf, Legible;
    RowLengths(f, n);
    PlaceIsRead(f, n);
    HoursAreRead(f, n);
    FactsAreRead(f, n);
    EvidenceIsRead(f, n);
    hide PlaceRow, HoursRow, FactsRow, EvidenceRow, PlaceTags, HoursTags, FactsTags, EvidenceTags;
    PartsMakeRecord(PlaceRow(f, n), HoursRow(f, n), FactsRow(f, n), EvidenceRow(f, n), f, n);
  }

  /** The whole record survives the journey. */
  lemma FacilityReadsBack(f: Facility, n: Notation)
    requires Legible(f, n)
    ensures ReadFacility(FacilityTree(f, n), n) == Some(f)
  {
    hide FacilityOf, FacilityRow, FacilityTags, ReadRow, StructTree, Legible, DistinctTags;
    hide PlaceRow, HoursRow, FactsRow, EvidenceRow;
    FacilityTagsDistinct();
    RowSlices(f, n);
    RowIsRead(f, n);
    RowReadsBack(FacilityTags(), FacilityRow(f, n));
  }

  // ---------- what the decoder reads is legible ----------

  lemma PartsOfRecord(place: Row, times: Row, facts: Row, evidence: Row, f: Facility, n: Notation)
    requires |place| == 9 && |times| == 8 && |facts| == 9 && |evidence| == 8
    requires FacilityOf(place, times, facts, evidence, n) == Some(f)
    ensures PlaceReads(place, f, n) && HoursReads(times, f, n) && FactsReads(facts, f, n) && EvidenceReads(evidence, f, n)
  {
    hide ReadGenre, ReadHoursStatus, ReadGeneralUse, ReadHoursBasis;
    hide ReadTexts, ReadSlice, ReadHours, ReadClosures, ReadSocialLinks, ReadLocation, ReadAccess, ReadTranslation, ReadMedia;
    hide ReadText, ReadLink, ReadFlag, ReadTime, ReadOptionalTime;
  }

  lemma ReadListsAreLegible(hours: Option<Json>, closures: Option<Json>, links: Option<Json>, n: Notation)
    requires Faithful(n)
    ensures ReadHours(hours, n).Some? ==> forall p | p in ReadHours(hours, n).value :: LegiblePeriod(p, n)
    ensures ReadClosures(closures, n).Some? ==> forall c | c in ReadClosures(closures, n).value :: LegibleClosure(c, n)
    ensures ReadSocialLinks(links, n).Some? ==> forall l | l in ReadSocialLinks(links, n).value :: LegibleSocialLink(l, n)
  {
    hide ReadPeriod, ReadClosure, ReadSocial, LegiblePeriod, LegibleClosure, LegibleSocialLink, Faithful;
    if ReadHours(hours, n).Some? {
      ListElementsWereRead(hours, (j: Json) => ReadPeriod(j, n));
      forall j | ReadPeriod(j, n).Some? { ReadPeriodIsLegible(j, n); }
    }
    if ReadClosures(closures, n).Some? {
      ListElementsWereRead(closures, (j: Json) => ReadClosure(j, n));
      forall j | ReadClosure(j, n).Some? { ReadClosureIsLegible(j, n); }
    }
    if ReadSocialLinks(links, n).Some? {
      ListElementsWereRead(links, (j: Json) => ReadSocial(j, n));
      forall j | ReadSocial(j, n).Some? { ReadSocialIsLegible(j, n); }
    }
  }

  /** So every record of a catalog that was loaded from JSON is legible. */
  lemma ReadRecordIsLegible(j: Json, n: Notation)
    requires Faithful(n) && ReadFacility(j, n).Some?
    ensures Legible(ReadFacility(j, n).value, n)
  {
    hide FacilityOf, Faithful, PlaceReads, HoursReads, FactsReads, EvidenceReads, Legible;
    TagCounts();
    hide PlaceTags, HoursTags, FactsTags, EvidenceTags;
    var row, f := ReadRow(FacilityTags(), j).value, ReadFacility(j, n).value;
    PartsOfRecord(row[..9], row[9..17], row[17..26], row[26..], f, n);
    PartsAreLegible(row[..9], row[9..17], row[17..26], row[26..], f, n);
  }

  lemma PartsAreLegible(place: Row, times: Row, facts: Row, evidence: Row, f: Facility, n: Notation)
    requires |place| == 9 && |times| == 8 && |facts| == 9 && |evidence| == 8 && Faithful(n)
    requires PlaceReads(place, f, n) && HoursReads(times, f, n) && FactsReads(facts, f, n) && EvidenceReads(evidence, f, n)
    ensures Legible(f, n)
  {
    hide ReadText, ReadLink, ReadTime, ReadHours, ReadClosures, ReadSocialLinks, ReadMedia, Faithful;
    hide ReadGenre, ReadHoursStatus, ReadGeneralUse, ReadHoursBasis, ReadTexts, ReadLocation, ReadAccess, ReadTranslation, ReadFlag;
    hide LegibleLink, LegibleTime, LegiblePeriod, LegibleClosure, LegibleSocialLink, LegibleMedia;
    ReadLinkIsLegible(place[2], n);
    ReadLinkIsLegible(times[2], n);
    ReadLinkIsLegible(evidence[0], n);
    ReadListsAreLegible(times[0], times[7], facts[8], n);
    if f.media.Some? { ReadMediaIsLegible(facts[7], n); }
    if f.updatedAt.Some? { ReadTimeIsLegible(evidence[4], n); }
    ReadTimeIsLegible(evidence[5], n);
    ReadTimeIsLegible(evidence[6], n);
    ReadTimeIsLegible(evidence[7], n);
  }

  // ---------- the shape of a record ----------

  lemma PartsJoin(tags: Tags, row: Row, moreTags: Tags, more: Row, depth: nat)
    requires |tags| == |row| && |moreTags| == |more|
    ensures RowFits(tags + moreTags, row + more, depth) <==> RowFits(tags, row, depth) && RowFits(moreTags, more, depth)
    ensures Encodes(tags, row) && Encodes(moreTags, more) ==> Encodes(tags + moreTags, row + more)
  {
    hide Conforms;
    var allTags, all := tags + moreTags, row + more;
    if RowFits(allTags, all, depth) {
      forall i | 0 <= i < |tags| && row[i].Some?
        ensures Conforms(row[i].value, tags[i].shape, depth)
      {
        assert all[i] == row[i] && allTags[i] == tags[i];
      }
      forall i | 0 <= i < |moreTags| && more[i].Some?
        ensures Conforms(more[i].value, moreTags[i].shape, depth)
      {
        assert all[|row| + i] == more[i] && allTags[|tags| + i] == moreTags[i];
      }
    }
  }

  lemma ScalarsConform(depth: nat)
    requires depth < MAX_DEPTH
    ensures forall s: string :: Conforms(TextTree(s), StringShape, depth) && Conforms(TextTree(s), TimeShape, depth)
    ensures forall s: string :: FitsOptional(OptionalText(s), StringShape, depth)
    ensures forall b: bool :: Conforms(FlagTree(b), BoolShape, depth)
  {
  }

  lemma PlaceFits(f: Facility, n: Notation, depth: nat)
    requires depth < MAX_DEPTH - 1
    ensures Encodes(PlaceTags(), PlaceRow(f, n))
    ensures RowFits(PlaceTags(), PlaceRow(f, n), depth) <==> f.activities != NilSlice
  {
    hide LocationTree, LocationTags, StructShape, SliceTree, Texts, GenreText, Conforms, TextTree;
    ScalarsConform(depth);
    LocationConforms(f.location, depth);
    SliceConformsIff(f.activities, depth);
    var tags, row := PlaceTags(), PlaceRow(f, n);
    assert row[8] == Some(SliceTree(f.activities));
  }

  lemma HoursFit(f: Facility, n: Notation, depth: nat)
    requires depth < MAX_DEPTH - 1
    ensures Encodes(HoursTags(), HoursRow(f, n)) && RowFits(HoursTags(), HoursRow(f, n), depth)
  {
    hide PeriodTrees, PeriodTags, ClosureTrees, ClosureTags, StructShape, Texts, HoursStatusText, GeneralUseText, HoursBasisText;
    hide OptionalList, Conforms, TextTree;
    ScalarsConform(depth);
    ListsConform(f, n, depth);
    TextsConform(f.scheduleNotes, depth);
  }

  /** The parts that always have their shape. */
  lemma FactsParts(f: Facility, n: Notation, depth: nat)
    requires depth < MAX_DEPTH - 2
    ensures Conforms(AccessTree(f.access), StructShape(AccessTags()), depth)
    ensures FitsOptional(OptionalMedia(f.media, n), StructShape(MediaTags()), depth)
    ensures FitsOptional(OptionalList(Texts(f.features)), Slice(StringShape), depth)
    ensures FitsOptional(OptionalList(Texts(f.rules)), Slice(StringShape), depth)
    ensures FitsOptional(OptionalList(SocialTrees(f.socialLinks, n)), Slice(StructShape(SocialTags())), depth)
  {
    hide Conforms, AccessTree, AccessTags, MediaTree, MediaTags, SocialTrees, SocialTags, StructShape, Texts, OptionalList;
    ListsConform(f, n, depth);
    AccessConforms(f.access, depth);
    if f.media.Some? { MediaConforms(f.media.value, n, depth); }
    TextsConform(f.features, depth);
    TextsConform(f.rules, depth);
  }

  lemma FactsShapes()
    ensures var tags := FactsTags();
            && |tags| == 9
            && tags[0].shape == StringShape && tags[1].shape == StringShape && tags[2].shape == BoolShape
            && tags[3].shape == Slice(StringShape) && tags[4].shape == Slice(StringShape)
            && tags[5].shape == StructShape(AccessTags()) && tags[6].shape == StructShape(TranslationTags())
            && tags[7].shape == StructShape(MediaTags()) && tags[8].shape == Slice(StructShape(SocialTags()))
  {
    hide AccessTags, TranslationTags, MediaTags, SocialTags, StructShape;
  }

  lemma FactsEncode(f: Facility, n: Notation)
    ensures Encodes(FactsTags(), FactsRow(f, n))
  {
    hide AccessTree, AccessTags, TranslationTree, TranslationTags, OptionalMedia, MediaTags, SocialTrees, SocialTags, StructShape;
    hide Texts, OptionalList, OptionalText, FlagTree;
  }

  lemma AllButOne(tags: Tags, row: Row, k: nat, depth: nat)
    requires |tags| == |row| && k < |tags| && row[k].Some?
    requires forall i | 0 <= i < |tags| && i != k :: FitsOptional(row[i], tags[i].shape, depth)
    ensures RowFits(tags, row, depth) <==> Conforms(row[k].value, tags[k].shape, depth)
  {
    hide Conforms;
  }

  lemma FactsFit(f: Facility, n: Notation, depth: nat)
    requires depth < MAX_DEPTH - 2
    ensures Encodes(FactsTags(), FactsRow(f, n))
    ensures RowFits(FactsTags(), FactsRow(f, n), depth) <==> f.english.scheduleNotes != NilSlice && f.english.rules != NilSlice
  {
    hide AccessTree, AccessTags, TranslationTree, TranslationTags, OptionalMedia, MediaTags, SocialTrees, SocialTags, StructShape;
    hide Texts, OptionalList, OptionalText, Conforms, FlagTree, FactsRow, FactsTags, Encodes;
    FactsEncode(f, n);
    ScalarsConform(depth);
    FactsParts(f, n, depth);
    TranslationConforms(f.english, depth);
    FactsItems(f, n);
    FactsShapes();
    var tags, row := FactsTags(), FactsRow(f, n);
    assert forall i | 0 <= i < 9 && i != 6 :: FitsOptional(row[i], tags[i].shape, depth);
    hide RowFits, FitsOptional;
    AllButOne(tags, row, 6, depth);
  }

  lemma EvidenceFits(f: Facility, n: Notation, depth: nat)
    requires depth < MAX_DEPTH
    ensures Encodes(EvidenceTags(), EvidenceRow(f, n)) && RowFits(EvidenceTags(), EvidenceRow(f, n), depth)
  {
    ScalarsConform(depth);
    hide Conforms, TextTree;
  }

  lemma FacilityRowFits(f: Facility, n: Notation, depth: nat)
    requires depth < MAX_DEPTH - 2
    ensures Encodes(FacilityTags(), FacilityRow(f, n))
    ensures RowFits(FacilityTags(), FacilityRow(f, n), depth)
       <==> f.activities != NilSlice && f.english.scheduleNotes != NilSlice && f.english.rules != NilSlice
  {
    hide PlaceTags, PlaceRow, HoursTags, HoursRow, FactsTags, FactsRow, EvidenceTags, EvidenceRow, RowFits, Encodes;
    PlaceFits(f, n, depth);
    HoursFit(f, n, depth);
    FactsFit(f, n, depth);
    EvidenceFits(f, n, depth);
    RowLengths(f, n);
    var tags, row := PlaceTags() + HoursTags(), PlaceRow(f, n) + HoursRow(f, n);
    PartsJoin(PlaceTags(), PlaceRow(f, n), HoursTags(), HoursRow(f, n), depth);
    PartsJoin(tags, row, FactsTags(), FactsRow(f, n), depth);
    PartsJoin(tags + FactsTags(), row + FactsRow(f, n), EvidenceTags(), EvidenceRow(f, n), depth);
  }

  /**
   A record, valid or not, has the client's shape exactly when none of the three lists that
   are never left out is nil: a nil slice travels as null, an empty one as [], which is accepted.
   */
  lemma FacilityConformsIff(f: Facility, n: Notation, depth: nat)
    requires depth < MAX_DEPTH - 3
    ensures Conforms(FacilityTree(f, n), StructShape(FacilityTags()), depth)
       <==> f.activities != NilSlice && f.english.scheduleNotes != NilSlice && f.english.rules != NilSlice
  {
    hide FacilityTags, FacilityRow, RowFits, Encodes, Conforms, DistinctTags, StructTree, StructShape;
    FacilityRowFits(f, n, depth + 1);
    FacilityTagsDistinct();
    StructConforms(FacilityTags(), FacilityRow(f, n), depth);
  }

  /** Validation asks for entries in all three, so it rules nil out. */
  lemma ValidRecordConforms(f: Facility, n: Notation, depth: nat)
    requires ValidFacility(f) && depth < MAX_DEPTH - 3
    ensures Conforms(FacilityTree(f, n), StructShape(FacilityTags()), depth)
  {
    hide FacilityTree, FacilityTags, Conforms, ValidHoursStatus, ValidAvailability, ValidPlaceTexts;
    FacilityConformsIff(f, n, depth);
  }
}
