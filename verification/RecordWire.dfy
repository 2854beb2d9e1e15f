/**
 The parts of a facility record as JSON (internal/facility/model.go:5-77): their tags, their
 encoding, the typed decoder, and that the one undoes the other.
 */
module RecordWire {
  import opened Wrappers
  import opened Calendar
  import opened OpeningHours
  import opened Facilities
  import opened WireShape
  import opened WireStruct
  import Links

  /** How the texts of days, clocks, dates, times and links are written and read by the libraries. */
  datatype Notation = Notation(
    dayText: DayRule -> string,
    readDay: string -> DayRule,
    clockText: Clock -> string,
    readClock: string -> Option<Clock>,
    dateText: Date -> string,
    readDate: string -> Date,
    monthDayText: MonthDayText -> string,
    readMonthDay: string -> MonthDayText,
    timeText: Time -> string,
    readTime: string -> Option<Time>,
    parseUrl: string -> Option<Links.Url>)

  // ---------- values that are what their texts read as ----------

  ghost predicate LegibleClock(clock: Option<Clock>, n: Notation) {
    n.readClock("") == None && (clock.Some? ==> n.readClock(n.clockText(clock.value)) == clock)
  }

  ghost predicate LegiblePeriod(p: Period, n: Notation) {
    n.readDay(n.dayText(p.day)) == p.day && LegibleClock(p.opens, n) && LegibleClock(p.closes, n)
  }

  ghost predicate LegibleClosure(c: Closure, n: Notation) {
    match c
    case OneTime(start, end, _) => n.readDate(n.dateText(start)) == start && n.readDate(n.dateText(end)) == end
    case Annual(first, last, _) =>
      n.readMonthDay(n.monthDayText(first)) == first && n.readMonthDay(n.monthDayText(last)) == last
    case OtherClosure(_) => true
  }

  ghost predicate LegibleLink(l: Links.Link, n: Notation) {
    n.parseUrl(l.text) == l.parsed
  }

  ghost predicate LegibleTime(t: Time, n: Notation) {
    n.readTime(n.timeText(t)) == Some(t)
  }

  ghost predicate LegibleMedia(media: Media, n: Notation) {
    media.youTube.Some? ==>
      var video := media.youTube.value;
      LegibleLink(video.source, n) && LegibleTime(video.selectedAt, n) && LegibleTime(video.verifiedAt, n)
  }

  ghost predicate LegibleSocialLink(l: SocialLink, n: Notation) {
    LegibleLink(l.url, n) && LegibleTime(l.verifiedAt, n)
  }

  /** Writing a value that was read from some text gives a text that reads as the same value. */
  ghost predicate Faithful(n: Notation) {
    && (forall t :: n.readDay(n.dayText(n.readDay(t))) == n.readDay(t))
    && n.readClock("") == None
    && (forall t | n.readClock(t).Some? :: n.readClock(n.clockText(n.readClock(t).value)) == n.readClock(t))
    && (forall t :: n.readDate(n.dateText(n.readDate(t))) == n.readDate(t))
    && (forall t :: n.readMonthDay(n.monthDayText(n.readMonthDay(t))) == n.readMonthDay(t))
    && (forall t | n.readTime(t).Some? :: n.readTime(n.timeText(n.readTime(t).value)) == n.readTime(t))
    && n.readTime(n.timeText(None)) == Some(None)
  }

  function LinkTree(l: Links.Link): Json {
    TextTree(l.text)
  }

  function OptionalLink(l: Links.Link): Option<Json> {
    OptionalText(l.text)
  }

  function ReadLink(o: Option<Json>, n: Notation): Option<Links.Link> {
    var text := ReadText(o);
    if text.None? then None else Some(Links.Link(text.value, n.parseUrl(text.value)))
  }

  function TimeTree(t: Time, n: Notation): Json {
    TextTree(n.timeText(t))
  }

  function ReadTime(o: Option<Json>, n: Notation): Option<Time> {
    if o.None? then Some(None)
    else
      var text := ReadText(o);
      if text.None? then None else n.readTime(text.value)
  }

  // ---------- lists that are never left out ----------

  function SliceTree(l: TextSlice): Json {
    if l.NilSlice? then Scalar(Null) else Array(Texts(l.items))
  }

  function ReadSlice(o: Option<Json>): Option<TextSlice> {
    if o.None? || o.value == Scalar(Null) then Some(NilSlice)
    else
      var items :- ReadTexts(o);
      Some(TextSlice(items))
  }

  lemma SliceReadsBack(l: TextSlice)
    ensures ReadSlice(Some(SliceTree(l))) == Some(l)
  {
    TextsReadBack(l.Values());
    hide ReadTexts;
  }

  /** Null is what the check refuses; an empty list is fine. */
  lemma SliceConformsIff(l: TextSlice, depth: nat)
    requires depth < MAX_DEPTH
    ensures Conforms(SliceTree(l), Slice(StringShape), depth) <==> l != NilSlice
  {
    TextsConform(l.Values(), depth);
  }

  // ---------- hours ----------

  function PeriodTags(): Tags {
    [Tag("day", StringShape, false), Tag("opens", StringShape, true), Tag("closes", StringShape, true),
     Tag("closed", BoolShape, true)]
  }

  function OptionalClock(clock: Option<Clock>, n: Notation): Option<Json> {
    if clock.None? then None else OptionalText(n.clockText(clock.value))
  }

  function PeriodRow(p: Period, n: Notation): Row {
    [Some(TextTree(n.dayText(p.day))), OptionalClock(p.opens, n), OptionalClock(p.closes, n), OptionalFlag(p.closed)]
  }

  function PeriodTree(p: Period, n: Notation): Json {
    StructTree(PeriodTags(), PeriodRow(p, n))
  }

  function ReadPeriod(j: Json, n: Notation): Option<Period> {
    var r := ReadRow(PeriodTags(), j);
    if r.None? then None
    else
      var day, opens, closes, closed := ReadText(r.value[0]), ReadText(r.value[1]), ReadText(r.value[2]), ReadFlag(r.value[3]);
      if day.None? || opens.None? || closes.None? || closed.None? then None
      else Some(Period(n.readDay(day.value), n.readClock(opens.value), n.readClock(closes.value), closed.value))
  }

  lemma PeriodReadsBack(p: Period, n: Notation)
    requires LegiblePeriod(p, n)
    ensures ReadPeriod(PeriodTree(p, n), n) == Some(p)
  {
    assert DistinctTags(PeriodTags());
    RowReadsBack(PeriodTags(), PeriodRow(p, n));
  }

  lemma PeriodConforms(p: Period, n: Notation, depth: nat)
    requires depth < MAX_DEPTH
    ensures Conforms(PeriodTree(p, n), StructShape(PeriodTags()), depth)
  {
    assert DistinctTags(PeriodTags());
    StructConforms(PeriodTags(), PeriodRow(p, n), depth);
  }

  // ---------- closures ----------

  function ClosureTags(): Tags {
    [Tag("type", StringShape, false), Tag("start", StringShape, false), Tag("end", StringShape, false),
     Tag("reason", StringShape, false)]
  }

  function ClosureRow(c: Closure, n: Notation): Row {
    match c
    case OneTime(start, end, reason) =>
      [Some(TextTree("one_time")), Some(TextTree(n.dateText(start))), Some(TextTree(n.dateText(end))), Some(TextTree(reason))]
    case Annual(first, last, reason) =>
      [Some(TextTree("annual")), Some(TextTree(n.monthDayText(first))), Some(TextTree(n.monthDayText(last))),
       Some(TextTree(reason))]
    case OtherClosure(reason) =>
      [Some(TextTree("other")), Some(TextTree("")), Some(TextTree("")), Some(TextTree(reason))]
  }

  function ClosureTree(c: Closure, n: Notation): Json {
    StructTree(ClosureTags(), ClosureRow(c, n))
  }

  function ReadClosure(j: Json, n: Notation): Option<Closure> {
    var r := ReadRow(ClosureTags(), j);
    if r.None? then None
    else
      var kind, start, end, reason := ReadText(r.value[0]), ReadText(r.value[1]), ReadText(r.value[2]), ReadText(r.value[3]);
      if kind.None? || start.None? || end.None? || reason.None? then None
      else if kind.value == "one_time" then Some(OneTime(n.readDate(start.value), n.readDate(end.value), reason.value))
      else if kind.value == "annual" then Some(Annual(n.readMonthDay(start.value), n.readMonthDay(end.value), reason.value))
      else Some(OtherClosure(reason.value))
  }

  lemma ClosureReadsBack(c: Closure, n: Notation)
    requires LegibleClosure(c, n)
    ensures ReadClosure(ClosureTree(c, n), n) == Some(c)
  {
    assert DistinctTags(ClosureTags());
    RowReadsBack(ClosureTags(), ClosureRow(c, n));
    assert |"one_time"| == 8 && |"annual"| == 6 && |"other"| == 5;
  }

  lemma ClosureConforms(c: Closure, n: Notation, depth: nat)
    requires depth < MAX_DEPTH
    ensures Conforms(ClosureTree(c, n), StructShape(ClosureTags()), depth)
  {
    assert DistinctTags(ClosureTags());
    StructConforms(ClosureTags(), ClosureRow(c, n), depth);
  }

  // ---------- location and access ----------

  function LocationTags(): Tags {
    [Tag("latitude", NumberShape, false), Tag("longitude", NumberShape, false)]
  }

  function LocationRow(l: Location): Row {
    [Some(NumberTree(l.latitude)), Some(NumberTree(l.longitude))]
  }

  function LocationTree(l: Location): Json {
    StructTree(LocationTags(), LocationRow(l))
  }

  /** A struct field that is missing stays all zero. */
  function ReadLocation(o: Option<Json>): Option<Location> {
    if o.None? then Some(Location(0.0, 0.0))
    else
      var r := ReadRow(LocationTags(), o.value);
      if r.None? then None
      else
        var latitude, longitude := ReadNumber(r.value[0]), ReadNumber(r.value[1]);
        if latitude.None? || longitude.None? then None else Some(Location(latitude.value, longitude.value))
  }

  lemma LocationReadsBack(l: Location)
    ensures ReadLocation(Some(LocationTree(l))) == Some(l)
  {
    assert DistinctTags(LocationTags());
    RowReadsBack(LocationTags(), LocationRow(l));
  }

  lemma LocationConforms(l: Location, depth: nat)
    requires depth < MAX_DEPTH
    ensures Conforms(LocationTree(l), StructShape(LocationTags()), depth)
  {
    assert DistinctTags(LocationTags());
    StructConforms(LocationTags(), LocationRow(l), depth);
  }

  function AccessTags(): Tags {
    [Tag("stations", Slice(StringShape), true), Tag("parking", StringShape, true), Tag("notes", StringShape, true)]
  }

  function AccessRow(a: Access): Row {
    [OptionalList(Texts(a.stations)), OptionalText(a.parking), OptionalText(a.notes)]
  }

  function AccessTree(a: Access): Json {
    StructTree(AccessTags(), AccessRow(a))
  }

  function ReadAccess(o: Option<Json>): Option<Access> {
    if o.None? then Some(Access([], "", ""))
    else
      var r := ReadRow(AccessTags(), o.value);
      if r.None? then None
      else
        var stations, parking, notes := ReadTexts(r.value[0]), ReadText(r.value[1]), ReadText(r.value[2]);
        if stations.None? || parking.None? || notes.None? then None
        else Some(Access(stations.value, parking.value, notes.value))
  }

  lemma AccessReadsBack(a: Access)
    ensures ReadAccess(Some(AccessTree(a))) == Some(a)
  {
    assert DistinctTags(AccessTags());
    RowReadsBack(AccessTags(), AccessRow(a));
    TextsReadBack(a.stations);
    hide ReadTexts, OptionalList;
  }

  lemma AccessConforms(a: Access, depth: nat)
    requires depth < MAX_DEPTH - 1
    ensures Conforms(AccessTree(a), StructShape(AccessTags()), depth)
  {
    assert DistinctTags(AccessTags());
    StructConforms(AccessTags(), AccessRow(a), depth);
    TextsConform(a.stations, depth + 1);
  }

  // ---------- the translation ----------

  function TranslationTags(): Tags {
    [Tag("name", StringShape, false), Tag("address", StringShape, false), Tag("scheduleNotes", Slice(StringShape), false),
     Tag("availabilityNote", StringShape, true), Tag("price", StringShape, false), Tag("reservation", StringShape, false),
     Tag("rules", Slice(StringShape), false), Tag("accessNotes", StringShape, false)]
  }

  function TranslationRow(t: Translation): Row {
    [Some(TextTree(t.name)), Some(TextTree(t.address)), Some(SliceTree(t.scheduleNotes)),
     OptionalText(t.availabilityNote), Some(TextTree(t.price)), Some(TextTree(t.reservation)),
     Some(SliceTree(t.rules)), Some(TextTree(t.accessNotes))]
  }

  function TranslationTree(t: Translation): Json {
    StructTree(TranslationTags(), TranslationRow(t))
  }

  function ReadTranslation(o: Option<Json>): Option<Translation> {
    if o.None? then Some(Translation("", "", NilSlice, "", "", "", NilSlice, ""))
    else
      var r := ReadRow(TranslationTags(), o.value);
      if r.None? then None
      else
        var name, address, scheduleNotes := ReadText(r.value[0]), ReadText(r.value[1]), ReadSlice(r.value[2]);
        var note, price, reservation := ReadText(r.value[3]), ReadText(r.value[4]), ReadText(r.value[5]);
        var rules, accessNotes := ReadSlice(r.value[6]), ReadText(r.value[7]);
        if name.None? || address.None? || scheduleNotes.None? || note.None? || price.None? || reservation.None?
           || rules.None? || accessNotes.None? then None
        else
          Some(Translation(name.value, address.value, scheduleNotes.value, note.value, price.value, reservation.value,
                           rules.value, accessNotes.value))
  }

  lemma TranslationReadsBack(t: Translation)
    ensures ReadTranslation(Some(TranslationTree(t))) == Some(t)
  {
    TranslationDistinct();
    RowReadsBack(TranslationTags(), TranslationRow(t));
    SliceReadsBack(t.scheduleNotes);
    SliceReadsBack(t.rules);
    hide ReadSlice, SliceTree;
  }

  lemma TranslationDistinct()
    ensures DistinctTags(TranslationTags())
  {
  }

  /** Two of its lists are never left out, so a nil one would travel as null. */
  lemma TranslationConforms(t: Translation, depth: nat)
    requires depth < MAX_DEPTH - 1
    ensures Conforms(TranslationTree(t), StructShape(TranslationTags()), depth) <==> t.scheduleNotes != NilSlice && t.rules != NilSlice
  {
    TranslationDistinct();
    var tags, row := TranslationTags(), TranslationRow(t);
    StructConforms(tags, row, depth);
    SliceConformsIff(t.scheduleNotes, depth + 1);
    SliceConformsIff(t.rules, depth + 1);
    hide SliceTree;
    assert row[2] == Some(SliceTree(t.scheduleNotes)) && row[6] == Some(SliceTree(t.rules));
  }

  // ---------- media and profiles ----------

  function VideoTags(): Tags {
    [Tag("provider", StringShape, false), Tag("videoId", StringShape, false), Tag("title", StringShape, false),
     Tag("sourceUrl", StringShape, false), Tag("selectedAt", TimeShape, false), Tag("verifiedAt", TimeShape, false),
     Tag("selectionReason", StringShape, false)]
  }

  function VideoRow(v: Video, n: Notation): Row {
    [Some(TextTree(v.provider)), Some(TextTree(v.videoId)), Some(TextTree(v.title)), Some(LinkTree(v.source)),
     Some(TimeTree(v.selectedAt, n)), Some(TimeTree(v.verifiedAt, n)), Some(TextTree(v.selectionReason))]
  }

  function VideoTree(v: Video, n: Notation): Json {
    StructTree(VideoTags(), VideoRow(v, n))
  }

  function ReadVideo(j: Json, n: Notation): Option<Video> {
    var r := ReadRow(VideoTags(), j);
    if r.None? then None
    else
      var provider, videoId, title := ReadText(r.value[0]), ReadText(r.value[1]), ReadText(r.value[2]);
      var source, selectedAt, verifiedAt := ReadLink(r.value[3], n), ReadTime(r.value[4], n), ReadTime(r.value[5], n);
      var reason := ReadText(r.value[6]);
      if provider.None? || videoId.None? || title.None? || source.None? || selectedAt.None? || verifiedAt.None?
         || reason.None? then None
      else
        Some(Video(provider.value, videoId.value, title.value, source.value, selectedAt.value, verifiedAt.value, reason.value))
  }

  lemma VideoReadsBack(v: Video, n: Notation)
    requires LegibleLink(v.source, n) && LegibleTime(v.selectedAt, n) && LegibleTime(v.verifiedAt, n)
    ensures ReadVideo(VideoTree(v, n), n) == Some(v)
  {
    VideoItems(v, n);
    assert DistinctTags(VideoTags());
    assert ReadLink(Some(LinkTree(v.source)), n) == Some(v.source);
    hide ReadRow, StructTree, VideoTags, VideoRow, ReadLink, LinkTree;
    RowReadsBack(VideoTags(), VideoRow(v, n));
  }

  lemma VideoItems(v: Video, n: Notation)
    ensures var row := VideoRow(v, n);
            && |row| == |VideoTags()| == 7
            && row[0] == Some(TextTree(v.provider)) && row[1] == Some(TextTree(v.videoId)) && row[2] == Some(TextTree(v.title))
            && row[3] == Some(LinkTree(v.source)) && row[4] == Some(TimeTree(v.selectedAt, n))
            && row[5] == Some(TimeTree(v.verifiedAt, n)) && row[6] == Some(TextTree(v.selectionReason))
  {
    hide TextTree, LinkTree, TimeTree;
  }

  lemma VideoConforms(v: Video, n: Notation, depth: nat)
    requires depth < MAX_DEPTH
    ensures Conforms(VideoTree(v, n), StructShape(VideoTags()), depth)
  {
    assert DistinctTags(VideoTags());
    StructConforms(VideoTags(), VideoRow(v, n), depth);
  }

  function MediaTags(): Tags {
    [Tag("youtube", StructShape(VideoTags()), true)]
  }

  function MediaRow(m: Media, n: Notation): Row {
    [if m.youTube.None? then None else Some(VideoTree(m.youTube.value, n))]
  }

  function MediaTree(m: Media, n: Notation): Json {
    StructTree(MediaTags(), MediaRow(m, n))
  }

  function OptionalMedia(m: Option<Media>, n: Notation): Option<Json> {
    if m.None? then None else Some(MediaTree(m.value, n))
  }

  /** A missing pointer stays nil. */
  function ReadMedia(o: Option<Json>, n: Notation): Option<Option<Media>> {
    if o.None? then Some(None)
    else
      var r := ReadRow(MediaTags(), o.value);
      if r.None? then None
      else if r.value[0].None? then Some(Some(Media(None)))
      else
        var video := ReadVideo(r.value[0].value, n);
        if video.None? then None else Some(Some(Media(video)))
  }

  lemma MediaReadsBack(m: Option<Media>, n: Notation)
    requires m.Some? ==> LegibleMedia(m.value, n)
    ensures ReadMedia(OptionalMedia(m, n), n) == Some(m)
  {
    if m.Some? {
      RowReadsBack(MediaTags(), MediaRow(m.value, n));
      if m.value.youTube.Some? { VideoReadsBack(m.value.youTube.value, n); }
    }
  }

  lemma MediaConforms(m: Media, n: Notation, depth: nat)
    requires depth < MAX_DEPTH - 1
    ensures Conforms(MediaTree(m, n), StructShape(MediaTags()), depth)
  {
    StructConforms(MediaTags(), MediaRow(m, n), depth);
    if m.youTube.Some? { VideoConforms(m.youTube.value, n, depth + 1); }
  }

  function SocialTags(): Tags {
    [Tag("platform", StringShape, false), Tag("url", StringShape, false), Tag("verifiedAt", TimeShape, false)]
  }

  function SocialRow(l: SocialLink, n: Notation): Row {
    [Some(TextTree(l.platform)), Some(LinkTree(l.url)), Some(TimeTree(l.verifiedAt, n))]
  }

  function SocialTree(l: SocialLink, n: Notation): Json {
    StructTree(SocialTags(), SocialRow(l, n))
  }

  function ReadSocial(j: Json, n: Notation): Option<SocialLink> {
    var r := ReadRow(SocialTags(), j);
    if r.None? then None
    else
      var platform, url, verifiedAt := ReadText(r.value[0]), ReadLink(r.value[1], n), ReadTime(r.value[2], n);
      if platform.None? || url.None? || verifiedAt.None? then None
      else Some(SocialLink(platform.value, url.value, verifiedAt.value))
  }

  lemma SocialReadsBack(l: SocialLink, n: Notation)
    requires LegibleSocialLink(l, n)
    ensures ReadSocial(SocialTree(l, n), n) == Some(l)
  {
    assert DistinctTags(SocialTags());
    RowReadsBack(SocialTags(), SocialRow(l, n));
  }

  lemma SocialConforms(l: SocialLink, n: Notation, depth: nat)
    requires depth < MAX_DEPTH
    ensures Conforms(SocialTree(l, n), StructShape(SocialTags()), depth)
  {
    assert DistinctTags(SocialTags());
    StructConforms(SocialTags(), SocialRow(l, n), depth);
  }

  // ---------- what the decoder reads is legible ----------

  lemma ReadLinkIsLegible(o: Option<Json>, n: Notation)
    requires ReadLink(o, n).Some?
    ensures LegibleLink(ReadLink(o, n).value, n)
  {
  }

  lemma ReadTimeIsLegible(o: Option<Json>, n: Notation)
    requires Faithful(n) && ReadTime(o, n).Some?
    ensures LegibleTime(ReadTime(o, n).value, n)
  {
  }

  lemma ReadPeriodIsLegible(j: Json, n: Notation)
    requires Faithful(n) && ReadPeriod(j, n).Some?
    ensures LegiblePeriod(ReadPeriod(j, n).value, n)
  {
    hide ReadRow, ReadFlag;
  }

  lemma ReadClosureIsLegible(j: Json, n: Notation)
    requires Faithful(n) && ReadClosure(j, n).Some?
    ensures LegibleClosure(ReadClosure(j, n).value, n)
  {
    hide ReadRow;
  }

  lemma ReadMediaIsLegible(o: Option<Json>, n: Notation)
    requires Faithful(n) && ReadMedia(o, n).Some? && ReadMedia(o, n).value.Some?
    ensures LegibleMedia(ReadMedia(o, n).value.value, n)
  {
    hide ReadRow;
    var r := ReadRow(MediaTags(), o.value);
    if r.value[0].Some? { ReadVideoIsLegible(r.value[0].value, n); }
  }

  lemma ReadVideoIsLegible(j: Json, n: Notation)
    requires Faithful(n) && ReadVideo(j, n).Some?
    ensures var v := ReadVideo(j, n).value; LegibleLink(v.source, n) && LegibleTime(v.selectedAt, n) && LegibleTime(v.verifiedAt, n)
  {
    hide ReadRow, ReadText, ReadLink, ReadTime, LegibleLink, LegibleTime, Faithful;
    var r := ReadRow(VideoTags(), j).value;
    ReadLinkIsLegible(r[3], n);
    ReadTimeIsLegible(r[4], n);
    ReadTimeIsLegible(r[5], n);
  }

  lemma ReadSocialIsLegible(j: Json, n: Notation)
    requires Faithful(n) && ReadSocial(j, n).Some?
    ensures LegibleSocialLink(ReadSocial(j, n).value, n)
  {
    hide ReadRow, ReadText, ReadLink, ReadTime, LegibleLink, LegibleTime, Faithful;
    var r := ReadRow(SocialTags(), j).value;
    ReadLinkIsLegible(r[1], n);
    ReadTimeIsLegible(r[2], n);
  }
}
