/** The facility catalog (internal/facility): records, validation, freshness, listing. */
module Facilities {
  import opened Wrappers
  import opened Calendar
  import opened OpeningHours
  import opened Ordering
  import Links
  import Text

  datatype Location = Location(latitude: real, longitude: real)

  datatype Genre = Unclassified | Skatepark | Street | OtherGenre

  function GenreText(g: Genre): string {
    match g
    case Unclassified => ""
    case Skatepark => "skatepark"
    case Street => "street"
    case OtherGenre => "other"
  }

  datatype HoursStatus = Unspecified | Known | NotApplicable | Unknown | OtherHoursStatus

  datatype GeneralUse = UseUnspecified | Regular | Limited | ScheduleCheckRequired | OtherUse

  datatype HoursBasis = NoBasis | Official | Conservative | OtherBasis

  /** A list that is never left out of a record's JSON: nil, which is written as null, is not the empty list. */
  datatype TextSlice = NilSlice | TextSlice(items: seq<string>) {
    function Values(): seq<string> {
      if NilSlice? then [] else items
    }
  }

  /** A time in seconds; None is the zero time. */
  type Time = Option<int>

  datatype Access = Access(stations: seq<string>, parking: string, notes: string)

  datatype Video = Video(provider: string, videoId: string, title: string, source: Links.Link,
                         selectedAt: Time, verifiedAt: Time, selectionReason: string)

  datatype Media = Media(youTube: Option<Video>)

  datatype SocialLink = SocialLink(platform: string, url: Links.Link, verifiedAt: Time)

  datatype Translation = Translation(name: string, address: string, scheduleNotes: TextSlice, availabilityNote: string,
                                     price: string, reservation: string, rules: TextSlice, accessNotes: string)

  /**
   A record, field by field in the order of the source. Activities and features are
   lower-case texts; media and updatedAt are None when absent.
   */
  datatype Facility = Facility(
    id: string,
    genre: Genre,
    permissionSource: Links.Link,
    name: string,
    address: string,
    prefecture: string,
    municipality: string,
    location: Location,
    activities: TextSlice,
    hours: seq<Period>,
    hoursStatus: HoursStatus,
    hoursSource: Links.Link,
    generalUse: GeneralUse,
    hoursBasis: HoursBasis,
    availabilityNote: string,
    scheduleNotes: seq<string>,
    closures: seq<Closure>,
    price: string,
    reservation: string,
    beginnerFriendly: bool,
    features: seq<string>,
    rules: seq<string>,
    access: Access,
    english: Translation,
    media: Option<Media>,
    socialLinks: seq<SocialLink>,
    source: Links.Link,
    sourceType: string,
    status: string,
    confidence: string,
    updatedAt: Option<Time>,
    verifiedAt: Time,
    dynamicVerifiedAt: Time,
    stableVerifiedAt: Time)

  type Catalog = map<string, Facility>

  // ---------- freshness ----------

  const DAY_SECONDS := 24 * 60 * 60
  const DYNAMIC_WINDOW := 30 * DAY_SECONDS
  const STABLE_WINDOW := 180 * DAY_SECONDS

  predicate IsInformationFresh(verifiedAt: Option<int>, asOf: int, window: int) {
    verifiedAt.Some? && verifiedAt.value <= asOf && asOf - verifiedAt.value <= window
  }

  predicate IsFresh(f: Facility, asOf: int) {
    IsInformationFresh(f.dynamicVerifiedAt, asOf, DYNAMIC_WINDOW) && IsInformationFresh(f.stableVerifiedAt, asOf, STABLE_WINDOW)
  }

  predicate HasKnownOperatingHours(f: Facility) {
    f.hoursStatus == Unspecified || f.hoursStatus == Known
  }

  /** The one test of eligibility shared by search, readiness and release checks. */
  predicate IsNearbySearchable(f: Facility, asOf: int) {
    && "skateboard" in f.activities.Values()
    && (f.genre == Skatepark || f.genre == Street)
    && f.permissionSource.text != "" && f.status == "verified"
    && f.hoursStatus != Unknown
    && f.generalUse != ScheduleCheckRequired
    && IsFresh(f, asOf)
  }

  // ---------- validation ----------

  predicate IsClock(clock: Option<Clock>, allowEndOfDay: bool) {
    clock.Some? && (clock.value.minute == MINUTES_PER_DAY ==> allowEndOfDay)
  }

  predicate ValidDay(rule: DayRule) {
    match rule
    case Named(dow, _) => 0 <= dow <= 6
    case OtherDay => false
    case _ => true
  }

  predicate ValidWindow(p: Period) {
    IsClock(p.opens, false) && IsClock(p.closes, true) && p.opens != p.closes
  }

  predicate ValidOperatingHours(hours: seq<Period>) {
    && (forall p | p in hours :: ValidDay(p.day) && (p.closed || ValidWindow(p)))
    && (exists p :: p in hours && !p.closed)
  }

  method ValidateOperatingHours(hours: seq<Period>) returns (ok: bool)
    ensures ok == ValidOperatingHours(hours)
  {
    var hasOpenWindow := false;
    for i := 0 to |hours|
      invariant forall p | p in hours[..i] :: ValidDay(p.day) && (p.closed || ValidWindow(p))
      invariant hasOpenWindow <==> exists p :: p in hours[..i] && !p.closed
    {
      assert hours[..i + 1] == hours[..i] + [hours[i]];
      var period := hours[i];
      if !ValidDay(period.day) { return false; }
      if period.closed { continue; }
      if !IsClock(period.opens, false) || !IsClock(period.closes, true) || period.opens == period.closes {
        return false;
      }
      hasOpenWindow := true;
    }
    assert hours[..|hours|] == hours;
    return hasOpenWindow;
  }

  /** A validated rule applies to some day unless it is a weekday name with surrounding blanks. */
  lemma ValidatedRuleAppliesIff(rule: DayRule)
    requires ValidDay(rule)
    ensures (exists day :: DayMatches(rule, day)) <==> rule.Named? ==> rule.bare
  {
    if rule.Named? ==> rule.bare {
      var day := match rule case Named(dow, _) => dow + 3 case Weekend => 2 case _ => 4;
      assert DayMatches(rule, day);
    }
  }

  /**
   The validator wants an open rule, not an opening: a validated timetable opens at some
   instant exactly when, on some day of one week, a rule in force has two different minutes.
   */
  lemma ValidatedTimetableOpensIff(hours: seq<Period>)
    requires ValidOperatingHours(hours)
    ensures (exists at :: LatestClose(hours, at).Some?)
       <==> exists day, p :: 0 <= day < 7 && InForce(hours, day, p) && p.opens.value.minute != p.closes.value.minute
  {
    OpensSometimeIff(hours);
    hide LatestClose;
    forall day, p | InForce(hours, day, p)
      ensures p.opens.Some? && p.closes.Some?
      ensures HasTime(p) <==> p.opens.value.minute != p.closes.value.minute
    {
      assert p in hours;
    }
  }

  ghost predicate NeverOpens(hours: seq<Period>) {
    forall at :: LatestClose(hours, at).None?
  }

  const AT_NINE := Some(Clock(540, true))
  const AT_FIVE := Some(Clock(1020, true))

  /**
   Three validated timetables that never open: "9:00" to "09:00"; a daily rule that closed
   rules for the weekdays and the weekend hide; and a weekday name with surrounding blanks.
   */
  lemma ValidatedTimetableMayNeverOpen()
    ensures var sameMinute := [Period(Daily, Some(Clock(540, false)), AT_NINE, false)];
            ValidOperatingHours(sameMinute) && NeverOpens(sameMinute)
    ensures var hidden := [Period(Daily, AT_NINE, AT_FIVE, false), Period(Weekday, None, None, true),
                           Period(Weekend, None, None, true)];
            ValidOperatingHours(hidden) && NeverOpens(hidden)
    ensures var blank := [Period(Named(1, false), AT_NINE, AT_FIVE, false)];
            ValidOperatingHours(blank) && NeverOpens(blank)
  {
    hide LatestClose;
    var sameMinute := [Period(Daily, Some(Clock(540, false)), AT_NINE, false)];
    assert sameMinute[0] in sameMinute;
    ValidatedTimetableOpensIff(sameMinute);
    var closed, hidden := Period(Weekday, None, None, true),
        [Period(Daily, AT_NINE, AT_FIVE, false), Period(Weekday, None, None, true), Period(Weekend, None, None, true)];
    assert hidden[0] in hidden && hidden[1] in hidden && hidden[2] in hidden;
    forall day, p
      ensures !InForce(hidden, day, p)
    {
      assert DayMatches(Weekday, day) || DayMatches(Weekend, day);
    }
    ValidatedTimetableOpensIff(hidden);
    var blank := [Period(Named(1, false), AT_NINE, AT_FIVE, false)];
    assert blank[0] in blank;
    ValidatedTimetableOpensIff(blank);
  }

  predicate ValidClosure(c: Closure) {
    Text.TrimSpace(c.reason) != "" &&
    match c
    case OneTime(start, end, _) => ValidDate(start) && ValidDate(end) && !DateBefore(end, start)
    case Annual(first, last, _) => IsMonthDay(first) && IsMonthDay(last)
    case OtherClosure(_) => false
  }

  /** Every closure the validator accepts closes the place on some date: none is skipped. */
  lemma ValidClosureCloses(c: Closure)
    requires ValidClosure(c)
    ensures exists date :: ValidDate(date) && ClosedOn(c, date)
  {
    match c
    case OneTime(start, end, _) =>
      assert ClosedOn(c, start);
    case Annual(first, last, _) =>
      ValidatedMonthDaysParse(first);
      ValidatedMonthDaysParse(last);
      var date := Date(2000, first.month, first.day);
      assert InYear(first, last, 2000, date);
      assert ClosedOn(c, date);
  }

  predicate ValidHoursStatus(f: Facility) {
    && (f.hoursSource.text != "" ==> Links.IsCanonicalHttps(f.hoursSource))
    && if HasKnownOperatingHours(f) then ValidOperatingHours(f.hours)
       else
         && (f.hoursStatus == NotApplicable || f.hoursStatus == Unknown)
         && f.hours == [] && f.hoursBasis == NoBasis
         && f.genre != Unclassified
         && Text.TrimSpace(f.availabilityNote) != "" && Text.TrimSpace(f.english.availabilityNote) != ""
         && if f.hoursStatus == Unknown then f.generalUse == ScheduleCheckRequired
            else f.genre == Street && f.hoursSource.text != "" && (f.generalUse == Regular || f.generalUse == Limited)
  }

  predicate ValidAvailability(f: Facility) {
    && f.generalUse != OtherUse && f.hoursBasis != OtherBasis
    && (f.generalUse == ScheduleCheckRequired ==> Text.TrimSpace(f.availabilityNote) != "")
  }

  const JAPANESE_PREFECTURES := {
    "北海道", "青森県", "岩手県", "宮城県", "秋田県", "山形県", "福島県", "茨城県", "栃木県", "群馬県", "埼玉県", "千葉県",
    "東京都", "神奈川県", "新潟県", "富山県", "石川県", "福井県", "山梨県", "長野県", "岐阜県", "静岡県", "愛知県", "三重県",
    "滋賀県", "京都府", "大阪府", "兵庫県", "奈良県", "和歌山県", "鳥取県", "島根県", "岡山県", "広島県", "山口県", "徳島県",
    "香川県", "愛媛県", "高知県", "福岡県", "佐賀県", "長崎県", "熊本県", "大分県", "宮崎県", "鹿児島県", "沖縄県" }

  predicate IsBlank(s: string) {
    Text.TrimSpace(s) == ""
  }

  predicate ContainsBlank(values: seq<string>) {
    exists s | s in values :: IsBlank(s)
  }

  predicate ValidPlaceTexts(f: Facility) {
    && !IsBlank(f.name) && !IsBlank(f.address) && !IsBlank(f.prefecture) && !IsBlank(f.municipality)
    && f.prefecture in JAPANESE_PREFECTURES
    && !IsBlank(f.price) && !IsBlank(f.reservation) && !IsBlank(f.sourceType) && !IsBlank(f.confidence)
    && Links.IsHttp(f.source)
  }

  predicate ValidTranslation(f: Facility) {
    var t := f.english;
    && !IsBlank(t.name) && !IsBlank(t.address) && !IsBlank(t.price) && !IsBlank(t.reservation) && !IsBlank(t.accessNotes)
    && |f.scheduleNotes| != 0 && |t.scheduleNotes.Values()| == |f.scheduleNotes| && !ContainsBlank(t.scheduleNotes.Values())
    && |t.rules.Values()| == |f.rules| && !ContainsBlank(t.rules.Values())
  }

  predicate After(a: Time, b: Time) {
    a.Some? && (b.None? || b.value < a.value)
  }

  predicate ValidMedia(media: Media) {
    && media.youTube.Some?
    && var video := media.youTube.value;
       && video.provider == "youtube" && Links.IsYouTubeVideoId(video.videoId)
       && !IsBlank(video.title) && !IsBlank(video.selectionReason)
       && Links.IsWatchUrl(video.source, video.videoId)
       && video.selectedAt.Some? && video.verifiedAt.Some? && !After(video.selectedAt, video.verifiedAt)
  }

  predicate ValidSocialLink(link: SocialLink) {
    link.platform in {"instagram", "x"} && Links.IsProfileUrl(link.platform, link.url) && link.verifiedAt.Some?
  }

  predicate ValidSocialLinks(links: seq<SocialLink>) {
    && (forall l | l in links :: ValidSocialLink(l))
    && (forall i, j | 0 <= i < j < |links| :: links[i].platform != links[j].platform)
  }

  /** The early length test loses nothing: there are only two platforms. */
  method ValidateSocialLinks(links: seq<SocialLink>) returns (ok: bool)
    ensures ok == ValidSocialLinks(links)
  {
    if |links| > 2 {
      TwoPlatforms(links);
      return false;
    }
    var seenPlatforms: set<string> := {};
    for i := 0 to |links|
      invariant forall l | l in links[..i] :: ValidSocialLink(l)
      invariant forall j, k | 0 <= j < k < i :: links[j].platform != links[k].platform
      invariant forall p :: p in seenPlatforms <==> exists j :: 0 <= j < i && links[j].platform == p
    {
      hide Links.IsProfileUrl;
      assert links[..i + 1] == links[..i] + [links[i]];
      var link := links[i];
      assert link in links;
      if link.platform !in {"instagram", "x"} { return false; }
      if link.platform in seenPlatforms { return false; }
      seenPlatforms := seenPlatforms + {link.platform};
      if !Links.IsProfileUrl(link.platform, link.url) || link.verifiedAt.None? { return false; }
    }
    assert links[..|links|] == links;
    return true;
  }

  lemma TwoPlatforms(links: seq<SocialLink>)
    requires |links| > 2
    ensures !ValidSocialLinks(links)
  {
    hide Links.IsProfileUrl;
    if forall l | l in links :: ValidSocialLink(l) {
      forall i | 0 <= i < 3
        ensures links[i].platform == "instagram" || links[i].platform == "x"
      {
        assert links[i] in links;
      }
      assert links[0].platform in {links[1].platform, links[2].platform} || links[1].platform == links[2].platform;
    }
  }

  predicate ValidFacility(f: Facility) {
    && f.genre != OtherGenre
    && (f.permissionSource.text != "" ==> Links.IsCanonicalHttps(f.permissionSource))
    && (f.genre != Unclassified ==> f.permissionSource.text != "")
    && !IsBlank(f.id) && ValidPlaceTexts(f)
    && -90.0 <= f.location.latitude <= 90.0 && -180.0 <= f.location.longitude <= 180.0
    && f.activities.Values() != []
    && ValidHoursStatus(f) && ValidAvailability(f)
    && (forall c | c in f.closures :: ValidClosure(c))
    && f.features != [] && f.rules != [] && !ContainsBlank(f.features) && !ContainsBlank(f.rules)
    && ValidTranslation(f)
    && f.status == "verified"
    && (f.media.Some? ==> ValidMedia(f.media.value)) && ValidSocialLinks(f.socialLinks)
    && f.verifiedAt.Some? && f.dynamicVerifiedAt.Some? && f.stableVerifiedAt.Some?
  }

  /** The extra rule of the dated catalog: no time in the record lies after the reference time. */
  predicate VerifiedBy(f: Facility, asOf: int) {
    var reference := Some(asOf);
    && !After(f.verifiedAt, reference) && !After(f.dynamicVerifiedAt, reference) && !After(f.stableVerifiedAt, reference)
    && (f.updatedAt.Some? ==> !After(f.updatedAt.value, reference))
    && (f.media.Some? && f.media.value.youTube.Some? ==>
          var video := f.media.value.youTube.value;
          !After(video.selectedAt, reference) && !After(video.verifiedAt, reference))
    && (forall l | l in f.socialLinks :: !After(l.verifiedAt, reference))
  }

  predicate Acceptable(f: Facility, asOf: Option<int>) {
    ValidFacility(f) && (asOf.Some? ==> VerifiedBy(f, asOf.value))
  }

  // ---------- the catalog ----------

  datatype CatalogError = InvalidData | DuplicateId

  ghost predicate DistinctIds(fs: seq<Facility>) {
    forall i, j | 0 <= i < j < |fs| :: fs[i].id != fs[j].id
  }

  /** Records are filed under their own ID. */
  ghost predicate Keyed(c: Catalog) {
    forall id | id in c :: c[id].id == id
  }

  /** What every loaded catalog satisfies. */
  ghost predicate ValidCatalog(c: Catalog) {
    Keyed(c) && forall id | id in c :: ValidFacility(c[id])
  }

  /** c files exactly the records fs, each under its ID. */
  ghost predicate FiledAs(c: Catalog, fs: seq<Facility>) {
    && |c| == |fs|
    && (forall id | id in c :: c[id].id == id && c[id] in fs)
    && (forall f | f in fs :: f.id in c && c[f.id] == f)
  }

  ghost predicate AllAcceptable(fs: seq<Facility>, asOf: Option<int>) {
    forall f | f in fs :: Acceptable(f, asOf)
  }

  lemma FileOne(c: Catalog, fs: seq<Facility>, f: Facility)
    requires FiledAs(c, fs) && DistinctIds(fs)
    ensures f.id !in c ==> FiledAs(c[f.id := f], fs + [f]) && DistinctIds(fs + [f])
    ensures f.id in c ==> !DistinctIds(fs + [f])
  {
    if f.id in c {
      var i :| 0 <= i < |fs| && fs[i] == c[f.id];
      assert (fs + [f])[i].id == (fs + [f])[|fs|].id;
    } else {
      forall i | 0 <= i < |fs|
        ensures fs[i].id != f.id
      {
        assert fs[i] in fs;
      }
    }
  }

  lemma PrefixOfDistinct(fs: seq<Facility>, k: nat)
    requires k <= |fs|
    ensures DistinctIds(fs) ==> DistinctIds(fs[..k])
  {
  }

  method NewCatalog(facilities: seq<Facility>, asOf: Option<int>) returns (r: Result<Catalog, CatalogError>)
    ensures r.Success? <==> AllAcceptable(facilities, asOf) && DistinctIds(facilities)
    ensures r.Success? ==> FiledAs(r.value, facilities)
  {
    hide Acceptable;
    var byId: Catalog := map[];
    for i := 0 to |facilities|
      invariant AllAcceptable(facilities[..i], asOf)
      invariant DistinctIds(facilities[..i]) && FiledAs(byId, facilities[..i])
    {
      assert facilities[..i + 1] == facilities[..i] + [facilities[i]];
      var item := facilities[i];
      if !Acceptable(item, asOf) {
        return Failure(InvalidData);
      }
      FileOne(byId, facilities[..i], item);
      if item.id in byId {
        PrefixOfDistinct(facilities, i + 1);
        return Failure(DuplicateId);
      }
      byId := byId[item.id := item];
    }
    assert facilities[..|facilities|] == facilities;
    return Success(byId);
  }

  /** The catalog a successful load returns is valid, and it is determined by the records. */
  lemma LoadedCatalog(fs: seq<Facility>, asOf: Option<int>, c: Catalog)
    requires AllAcceptable(fs, asOf) && FiledAs(c, fs)
    ensures ValidCatalog(c) && c.Values == Elements(fs)
  {
    hide ValidFacility, VerifiedBy;
    assert forall f | f in fs :: c[f.id] == f;
  }

  predicate IdBefore(a: Facility, b: Facility) {
    StringLess(a.id, b.id)
  }

  ghost predicate KeyedById(fs: set<Facility>) {
    forall a, b | a in fs && b in fs && a.id == b.id :: a == b
  }

  lemma IdOrder(fs: set<Facility>)
    requires KeyedById(fs)
    ensures StrictTotalOn(IdBefore, fs)
  {
    StringOrder();
  }

  predicate Selected(f: Facility, activity: string) {
    activity == "" || activity in f.activities.Values()
  }

  ghost function WithActivity(c: Catalog, activity: string): set<Facility> {
    set f | f in c.Values && Selected(f, activity)
  }

  lemma DistinctWhenSorted(fs: seq<Facility>)
    requires StrictlySorted(IdBefore, fs)
    ensures NoDuplicates(fs)
  {
    StringOrder();
  }

  ghost function Listing(c: Catalog, activity: string): (r: seq<Facility>)
    requires Keyed(c)
    ensures Elements(r) == WithActivity(c, activity) && StrictlySorted(IdBefore, r)
  {
    IdOrder(WithActivity(c, activity));
    Ranking(IdBefore, WithActivity(c, activity))
  }

  /** The selected records among those filed under the IDs in ids. */
  ghost predicate Collected(c: Catalog, ids: set<string>, activity: string, items: seq<Facility>) {
    && NoDuplicates(items)
    && (forall f | f in items :: f.id in ids && f.id in c && c[f.id] == f && Selected(f, activity))
    && (forall id | id in ids && id in c && Selected(c[id], activity) :: c[id] in items)
  }

  lemma CollectOne(c: Catalog, ids: set<string>, activity: string, items: seq<Facility>, id: string)
    requires Keyed(c) && Collected(c, ids, activity, items) && id in c && id !in ids
    ensures Collected(c, ids + {id}, activity, if Selected(c[id], activity) then items + [c[id]] else items)
  {
    assert c[id].id == id;
    assert c[id] !in items;
  }

  method Collect(c: Catalog, activity: string) returns (items: seq<Facility>)
    requires Keyed(c)
    ensures Collected(c, c.Keys, activity, items)
  {
    items := [];
    var done: set<string> := {};
    while c.Keys - done != {}
      invariant done <= c.Keys
      invariant Collected(c, done, activity, items)
      decreases c.Keys - done
    {
      var id :| id in c.Keys - done;
      CollectOne(c, done, activity, items, id);
      done := done + {id};
      if Selected(c[id], activity) {
        items := items + [c[id]];
      }
    }
    assert done == c.Keys;
  }

  /** The map is visited in no particular order; the list comes out in ID order. */
  method List(c: Catalog, activity: string) returns (items: seq<Facility>)
    requires Keyed(c)
    ensures items == Listing(c, activity)
  {
    items := Collect(c, activity);
    CollectedAll(c, activity, items);
    items := SortSlice(IdBefore, items);
  }

  lemma CollectedAll(c: Catalog, activity: string, items: seq<Facility>)
    requires Keyed(c) && Collected(c, c.Keys, activity, items)
    ensures Elements(items) == WithActivity(c, activity) && NoDuplicates(items)
    ensures StrictTotalOn(IdBefore, Elements(items))
  {
    forall f
      ensures f in items <==> f in WithActivity(c, activity)
    {
      if f in WithActivity(c, activity) {
        var id :| id in c && c[id] == f;
        assert Selected(c[id], activity);
      }
    }
    IdOrder(WithActivity(c, activity));
  }

  /** The listing does not depend on the order of the records the catalog was built from. */
  lemma ListingIgnoresFileOrder(a: seq<Facility>, b: seq<Facility>, c: Catalog, d: Catalog, activity: string)
    requires multiset(a) == multiset(b) && Keyed(c) && Keyed(d)
    requires c.Values == Elements(a) && d.Values == Elements(b)
    ensures c == d && Listing(c, activity) == Listing(d, activity)
  {
    PermutedElements(a, b);
    forall id
      ensures id in c <==> id in d
      ensures id in c ==> c[id] == d[id]
    {
      if id in c { assert c[id] in d.Values; }
      if id in d { assert d[id] in c.Values; }
    }
  }
}
