# Spot-Diggz: a verified model of its server-side logic

This project models, in Dafny, the parts of the Spot-Diggz server that decide something: the
opening-hours rules and the recommendation engine, the travel-time providers, the nearby
search and the bot client that re-checks its answers, the request decoder, the rate limiter,
the Slack request store and its delivery protocol, the correction file, and the metrics
registry with its Prometheus printer. `dafny verify dfyconfig.toml` checks everything.

Code that computes a value is a function here; code that changes something step by step is a
method or a class, proved against a specification function, and the laws are lemmas about
those functions. Every sort is `Ordering.SortSlice`: the elements sorted always have different
keys, so the outcome is the one `Ranking` of their set, whatever sorting algorithm is used.

| file | what it models |
|---|---|
| `Calendar.dfy`, `OpeningHours.dfy`, `TimetableLaws.dfy` | dates, weekday rules, overnight windows, closures; what they say in plain terms |
| `Facilities.dfy`, `Links.dfy` | records, validation, freshness, the catalog and its listing; link fields |
| `Travel.dfy` | Google matrix mapping, straight-line estimates, the fallback provider |
| `Recommendation.dfy`, `RecommendationLaws.dfy`, `RecommendationChoice.dfy` | the engine, what it promises of each item, and which places it chooses |
| `TokenBucket.dfy` | the rate limiter and its runs |
| `NearbyInput.dfy`, `NearbySearch.dfy`, `NearbyLaws.dfy` | request decoding, the search, readiness; what a caller can rely on |
| `WireShape.dfy`, `WireStruct.dfy` | the token-stream shape check; Go structs as JSON objects, by their tags |
| `RecordWire.dfy`, `FacilityWire.dfy`, `WireEncoding.dfy` | a record and an answer as JSON trees: shape, encoding, typed decoding |
| `BotResponse.dfy`, `BotClient.dfy` | the client's checks of an answer, and the client as a whole |
| `WireLaws.dfy`, `ClientLaws.dfy` | what an accepted body and a passed-on answer are like, said without the checks; what stands under a name |
| `SlackStore.dfy`, `SlackStoreLaws.dfy` | the memory store and the SQL table it must agree with; rows and purges over whole runs |
| `SlackDelivery.dfy`, `SlackOutcome.dfy` | the submission and worker protocol, and what the user gets |
| `ReportEncoding.dfy`, `CorrectionStore.dfy` | report lengths, submissions, the correction file |
| `Metrics.dfy`, `MetricsLaws.dfy` | counters, histograms, snapshots |
| `Exposition.dfy`, `Page.dfy`, `MetricsPage.dfy`, `PageMeaning.dfy` | the text exposition format 0.0.4: sample lines, pages with their comments, the registry's page and what it says |
| `Ordering.dfy`, `Text.dfy`, `Wrappers.dfy` | strict orders and rankings, trimming and control characters, Option and Result |

## What came out

Some promises hold only under a condition the code does not state, or fail for an input that can be named:

- The catalog validator wants some rule that is not closed, which does not make a timetable open: "9:00" to "09:00" differ
  as texts only, a daily rule can be hidden by more specific closed ones, and a weekday name with surrounding blanks
  never matches a day (`Facilities.ValidatedTimetableMayNeverOpen`). A validated timetable opens at some instant exactly
  when, on some day of one week, a rule in force has two different minutes (`Facilities.ValidatedTimetableOpensIff`), and
  a validated rule applies to some day exactly when it is not such a padded name (`Facilities.ValidatedRuleAppliesIff`).
- A record has the shape the bot client expects exactly when none of the three lists that are never left out of its JSON
  is nil, because only a nil slice travels as null (`FacilityWire.FacilityConformsIff`). Catalog validation asks for
  entries in all three, so every answer over a valid catalog is read back unchanged (`BotClient.ClientReadsAnswer`).
- A correction file that was not written by the store can be valid before a purge and not after it, because rewriting
  escapes characters again: one line may outgrow its limit (`CorrectionStore.PurgeCanSpoilForeignFile`), or the file
  its capacity (`CorrectionStore.PurgeCanOverflowForeignFile`). A purge of a valid file leaves a valid one exactly when
  each report it keeps encodes within the line limit and all of them within the capacity (`CorrectionStore.PurgeStaysValidIff`).
- The memory store and the SQL table agree on a `Begin` exactly when the request ID is not already
  stored, or nothing would be inserted anyway (`SlackStore.BeginAgreesIff`); a stored ID that begins again under another
  key is overwritten in memory and refused by the table (`SlackStore.RepeatedIdDisagrees`).
- Over Google with the straight line behind it, recommending fails exactly when more than 100
  places are eligible (`RecommendationLaws.EngineOverFallback`), and valid catalogs of that size exist (`RecommendationLaws.TooManyPlaces`).

## Model

| member | source | states |
|---|---|---|
| Calendar.NextDateIsNext | internal/recommendation/engine.go:349 | no date lies between a date and its successor, and stepping back by a day (AddDate with -1) undoes stepping forth |
| Calendar.DatesFollowDays | internal/recommendation/engine.go:400-406 | comparing (year, month, day) is comparing day numbers, so one-time closures are intervals of days |
| OpeningHours.MatchingOperatingHours | internal/recommendation/engine.go:364-386 | the loop that restarts its list on a more specific rule returns, in order, the rules of the top specificity, or none if one of them is closed |
| OpeningHours.MatchingHoursMeaning | internal/recommendation/engine.go:364-397 | a rule is in force iff it matches the day, no matching rule is more specific, and no equally specific one is closed |
| OpeningHours.TwoDaysSuffice | internal/recommendation/engine.go:328-359 | a window that holds an instant belongs to its day, or overnight to the day before, and ends within 1440 minutes |
| OpeningHours.LatestToday | internal/recommendation/engine.go:325-348 | the first loop finds the latest end among the day's windows that hold the instant |
| OpeningHours.LatestFromYesterday | internal/recommendation/engine.go:349-361 | the second loop adds the overnight windows of the day before |
| OpeningHours.OpenUntilAt | internal/recommendation/engine.go:324-362 | the method reports open iff some window of some day holds the instant, with the latest end of those, 0 to 1440 minutes ahead |
| OpeningHours.LatestCloseMeaning | internal/recommendation/engine.go:324-362 | the two-day computation answers the all-days question for every timetable and instant |
| OpeningHours.LatestCloseIsUnique | internal/recommendation/engine.go:361 | the all-days question has one answer |
| OpeningHours.OpenThroughClose | internal/recommendation/engine.go:324-362 | once open, the timetable stays open up to the reported close and never reports an earlier one |
| OpeningHours.ValidatedMonthDaysParse | internal/facility/catalog.go:442-445 | the validator's month-day test (year 2000) accepts exactly what the engine parses (year 0), 29 February included |
| OpeningHours.AnnualTestMeaning | internal/recommendation/engine.go:409-421 | the month*100+day test, wrap-around included, holds on a date iff some year's expansion of the period contains it |
| OpeningHours.IsClosedByPeriod | internal/recommendation/engine.go:399-425 | the loop reports closed iff some period of either kind contains the date |
| TimetableLaws.SpecificRulesOverride | internal/recommendation/engine.go:364-397 | the rules in force are those that name the day, else those of its weekday or weekend group, else the daily ones; none is in force if one of these is closed |
| TimetableLaws.NamedClosureWins | internal/recommendation/engine.go:371-385 | a closed rule naming the day leaves no rule in force, whatever the others say |
| TimetableLaws.WeekIsCovered | internal/recommendation/engine.go:451-464 | the names follow the calendar from Thursday, 1970-01-01; weekday is Monday to Friday, weekend the rest; a padded or unknown name matches no day |
| TimetableLaws.DailyRule | internal/recommendation/engine.go:324-362 | one daily rule, in closed form: open from its start to its end, past midnight when the end is not later in the day |
| TimetableLaws.EveryWeekAlike | internal/recommendation/engine.go:324-362 | any timetable answers alike, seven days on, a week later |
| TimetableLaws.OneTimeIsInterval | internal/recommendation/engine.go:400-406 | a one-time closure covers exactly the days from its first to its last |
| TimetableLaws.AnnualClosesBetween | internal/recommendation/engine.go:407-421 | an annual closure covers what lies between its ends going forward, over New Year when the end comes first in the calendar |
| Facilities.ValidateOperatingHours | internal/facility/catalog.go:456-479 | accepts iff every rule has a known day and, unless closed, a proper window, and some rule is not closed |
| OpeningHours.OpensSometimeIff | internal/recommendation/engine.go:324-386 | any timetable opens at some instant iff, on some day of one week, a rule in force gives some time |
| Facilities.ValidatedTimetableOpensIff | internal/facility/catalog.go:456-479 | a validated timetable opens at some instant iff, on some day of one week, a most specific rule, none as specific being closed, has two different minutes |
| Facilities.ValidatedRuleAppliesIff | internal/facility/catalog.go:457-466 | a validated rule matches some day iff it is not a weekday name with surrounding blanks |
| Facilities.ValidatedTimetableMayNeverOpen | internal/facility/catalog.go:456-479 | three timetables, one for each reason, that are accepted and open at no instant |
| Facilities.ValidateSocialLinks | internal/facility/catalog.go:247-270 | the loop with its set of seen platforms accepts iff every link is a dated profile URL of its platform and no platform repeats; the early length test loses nothing |
| Facilities.ValidClosureCloses | internal/facility/catalog.go:410-435 | every closure the validator accepts closes the place on some date: none is skipped when recommending |
| Facilities.NewCatalog | internal/facility/catalog.go:93-111 | succeeds iff all records are acceptable and all IDs differ, and then files exactly those records, each under its ID |
| Facilities.LoadedCatalog | internal/facility/catalog.go:93-111 | a loaded catalog satisfies the catalog invariant and holds exactly the given records |
| Facilities.List | internal/facility/catalog.go:113-123 | visiting the map in any order yields the unique ID-ordered list of the records with the activity |
| Facilities.ListingIgnoresFileOrder | internal/facility/catalog.go:113-123 | reordering the records of the file changes neither the catalog nor a listing |
| Ordering.SortSlice | internal/recommendation/engine.go:176-184 | sorting elements that the less function tells apart gives the ranking of their set |
| Ordering.RankingIsUnique | internal/recommendation/engine.go:176-184 | a strictly sorted listing of a set is the only one |
| Ordering.TopIsBest | internal/recommendation/engine.go:186-190 | the first k of a ranking come before all others |
| Ordering.StringOrder | internal/recommendation/engine.go:183 | the order on IDs is a strict total order on all strings |
| Ordering.StringLessByFirstDifference | internal/recommendation/engine.go:183 | the smaller ID is a proper prefix of the other, or has the smaller character where they first differ |
| Travel.ValidateRequest | internal/travel/provider.go:69-94 | accepts iff origin, count, transport, departure and destinations are valid and the IDs differ |
| Travel.MinutesCoverDuration | internal/travel/google_routes.go:132-137 | the estimate is its destination's: the minutes are the fewest that cover the duration, the kilometres the metres |
| Travel.EverySlotNamed | internal/travel/google_routes.go:110-140 | pigeonhole: as many distinct in-range indexes as slots leave no slot out |
| Travel.MapGoogleElements | internal/travel/google_routes.go:110-140 | the array-filling loop succeeds iff the matrix is complete (count, usable elements, distinct indexes), and each slot comes from the element naming it |
| Travel.EverySlotFilled | internal/travel/google_routes.go:130-139 | on success every slot holds its own destination's estimate, non-negative, of kind Google |
| Travel.ElementOrderIrrelevant | internal/travel/google_routes.go:116-138 | permuting the elements changes neither acceptance nor the estimates |
| Travel.StraightLineProvider | internal/travel/straight_line.go:27-49 | one straight-line estimate per destination, in order, for a valid request |
| Travel.StraightMinutesCoverDistance | internal/travel/straight_line.go:35-68 | without the overhead (12, 8, 3, 0) the minutes are the fewest that cover the distance at 22, 30, 13 or 4.5 km/h |
| Travel.FallbackIsUniform | internal/travel/provider.go:56-67 | Google with the straight line behind it answers every valid request, completely, without mixing kinds and without negative values |
| Travel.FallbackPrefersGoogle | internal/travel/provider.go:56-67 | for a valid request a complete matrix of the service is the answer, slot by slot; only without one is it the straight-line estimates |
| Recommendation.MatchingFeatures | internal/recommendation/engine.go:299-310 | the nested loops return the targets that the features contain, each once, in target order |
| Recommendation.MatchingMembers | internal/recommendation/engine.go:299-310 | exactly the targets among the features are matched |
| Recommendation.ScoreFacility | internal/recommendation/engine.go:216-247 | the accumulators end at the documented sum, and each reason is given iff its fact holds |
| Recommendation.ApplyMoodScore | internal/recommendation/engine.go:249-271 | each mood adds its own bonus, and the mood reason iff a mood feature is offered |
| Recommendation.ScoreIsMonotone | internal/recommendation/engine.go:216-271 | a place that offers at least as much, no farther, with no less time, never scores lower |
| Recommendation.RoundTenthIsNearest | internal/recommendation/engine.go:165 | the shown distance is a whole number of tenths within half a tenth, symmetric around zero |
| Recommendation.OpenUntilAtFacility | internal/recommendation/engine.go:317-322 | a closure on the arrival date wins over the timetable |
| Recommendation.Evaluate | internal/recommendation/engine.go:135-173 | one facility gives a candidate iff it has an estimate, is near enough, is open on arrival and leaves time |
| Recommendation.SkateFilterNeverFires | internal/recommendation/engine.go:153-156 | for a valid input the non-positive filter never drops a place that is open on arrival |
| Recommendation.CandidateFits | internal/recommendation/engine.go:140-156 | arrival < session end <= close, 2*travel + skate <= available, the session ending at the close or using all the time there is, skate >= 1, no closure on arrival, some window reaches the close |
| Recommendation.OpenThroughSession | internal/recommendation/engine.go:145-153 | at every minute of the session the timetable is open with a close no earlier than the promised one |
| Recommendation.SelectEligible | internal/recommendation/engine.go:92-111 | the filter loop keeps exactly the eligible facilities and their destinations, in order |
| Recommendation.Gather | internal/recommendation/engine.go:133-174 | the candidate loop collects each facility's candidate once and notes whether one is Google's |
| Recommendation.RecommendContext | internal/recommendation/engine.go:85-201 | the whole method returns the specified answer or error for every catalog, provider, input and clock |
| RecommendationLaws.AnswerIsTop | internal/recommendation/engine.go:176-190 | the answer lists the best min(3, n) candidates by (score descending, distance, ID), best first |
| RecommendationLaws.TopIsUnique | internal/recommendation/engine.go:176-190 | no other list meets that description |
| RecommendationLaws.TableIgnoresOrder | internal/recommendation/engine.go:128-131 | the estimate table of distinct IDs does not depend on the order of estimates |
| RecommendationLaws.EstimateOrderIrrelevant | internal/recommendation/engine.go:116-131 | reordering a provider's estimates never changes the answer |
| RecommendationLaws.RecommendedItemsFit | internal/recommendation/engine.go:85-201 | every listed item is a fresh, eligible catalog record whose session is the longest that fits, and the timetable is open at every minute of the session until at least the returned close; at most three are listed |
| RecommendationLaws.NoticeVersusList | internal/recommendation/engine.go:134-199 | for any provider: a listed Google item brings the Google notice, and the notice without one means more candidates were found than listed |
| RecommendationLaws.UniformNotice | internal/recommendation/engine.go:134-159 | with complete estimates of one kind no lookup misses and the notice is true of every item |
| RecommendationLaws.EngineOverFallback | internal/recommendation/engine.go:116-200 | over the fallback provider: fails iff more than 100 places are eligible; otherwise every lookup hits and the notice is true of every item |
| RecommendationLaws.TooManyPlaces | internal/travel/provider.go:69-94 | an input on which it does fail: any number over 100 of plain valid places, a beginner on foot |
| RecommendationChoice.ScoreAddsUp | internal/recommendation/engine.go:210-271 | the score is a third of the time less the travel, plus skating by tens, 25 a purpose feature, 30 or 10 for a beginner's place, and 10, 8 or 10 by mood |
| RecommendationChoice.ReasonsMean | internal/recommendation/engine.go:216-271 | each reason is given iff its fact holds of the place, by feature name; the two estimates come last |
| RecommendationChoice.AnswerRunsDown | internal/recommendation/engine.go:176-190 | from item to item the score falls, or stays and the distance or ID grows; a candidate is left out only when three are listed that are all no worse |
| RecommendationChoice.EngineAsks | internal/recommendation/engine.go:92-127 | the provider is asked from the input's coordinates, now, for every eligible place of the catalog and no other, in ID order |
| RecommendationChoice.NothingBetterLeftOut | internal/recommendation/engine.go:85-201 | for any catalog, provider, input and clock: a place that may be recommended and is within reach is listed, or three places are that all score at least as much |
| TokenBucket.Limiter.constructor | internal/ratelimit/limiter.go:17-35 | non-positive settings become one; the bucket starts full |
| TokenBucket.Limiter.Allow | internal/ratelimit/limiter.go:37-52 | one call takes the specified step, for any clock reading, and keeps 0 <= tokens <= burst |
| TokenBucket.RunIsValid | internal/ratelimit/limiter.go:41-51 | in every run tokens stay within the burst and `last` is the running maximum of the clock |
| TokenBucket.AllowedIsBounded | internal/ratelimit/limiter.go:37-52 | between any two points of any run at most burst + rate * (advance of the running maximum) requests are allowed |
| TokenBucket.WaitingIsEnough | internal/ratelimit/limiter.go:41-51 | a call 1/rate or more past the running maximum succeeds |
| TokenBucket.BurstReturns | internal/ratelimit/limiter.go:41-51 | after any run, once the clock is k/rate past the running maximum, the next k calls (k at most the burst) are all allowed, whatever the clock then does |
| TokenBucket.AllowedIff | internal/ratelimit/limiter.go:37-52 | in any run a call is allowed iff one more token breaks no bound: not that of the start, and not burst + rate * advance for the window since any earlier call |
| TokenBucket.RefillComposes | internal/ratelimit/limiter.go:44 | two capped refills compose into one |
| TokenBucket.KeepCall | internal/ratelimit/limiter.go:37-52 | the simulation step: full and thinned run decide alike and stay related, forward and backward clocks |
| TokenBucket.DeniedLeaveNoTrace | internal/ratelimit/limiter.go:37-52 | deleting any set of denied calls from any run leaves every other decision unchanged |
| NearbyInput.DecodeInput | internal/nearby/input.go:38-96 | the member loop accepts iff names are distinct and every member is usable alone, then trims and validates |
| NearbyInput.MemberOrderIrrelevant | internal/nearby/input.go:48-83 | every permutation of the members is accepted or rejected alike, with the same input |
| NearbyInput.Reencoding | internal/botsearch/client.go:114-124 | re-encoding any input and decoding it trims the query and rejects exactly what is then invalid |
| NearbyInput.AcceptedRoundTrip | internal/botsearch/client.go:118-124 | an accepted input survives encoding and decoding unchanged |
| NearbySearch.Search | internal/nearby/search.go:64-135 | the whole method returns the specified answer or error |
| NearbySearch.Scan | internal/nearby/search.go:98-116 | the scan collects exactly the wanted spots in the radius and the two facts about the rest |
| NearbySearch.ListedFirst | internal/nearby/search.go:117-126 | the list is the first `limit` of the wanted spots in (distance, ID) order; the others come after |
| NearbySearch.LimitIsPrefix | internal/nearby/search.go:124-126 | a smaller limit gives a prefix of a larger one |
| NearbySearch.NoMatchesMeaning | internal/nearby/search.go:127-133 | no_matches iff the radius holds records, all searchable, none of the wanted genre; ok iff some spot is listed |
| NearbySearch.Ready | internal/nearby/search.go:137-147 | ready iff some record is searchable |
| NearbySearch.ReadyMeansFindable | internal/facility/nearby-eligibility.go:8-16 | a record that makes the service ready is found by a search from where it lies |
| NearbyLaws.DecodedIff | internal/nearby/input.go:38-106 | exactly which bodies ask which question: no other or repeated member, each field from its own member with the defaults 5, 10 km and distance, the query trimmed, all limits written out |
| NearbyLaws.SearchOutcome | internal/nearby/search.go:64-135 | which error or status each outcome of the geocoder gives, both ways; the candidates are the first five captions in order, and only when ambiguous; spots only when ok |
| NearbyLaws.ListsTheNearest | internal/nearby/search.go:98-126 | the answer lists the nearest `limit` spots that may be shown, nearest first, each with its own distance; every other one is farther, or as far with the larger ID |
| WireShape.ValidWireValue | internal/botsearch/response.go:123-200 | the recursive method over the decoder agrees with the stream function and consumes what that consumes |
| WireShape.ValidMembers | internal/botsearch/response.go:157-176 | the object loop with its set of seen names agrees with the stream function |
| WireShape.ValidItems | internal/botsearch/response.go:177-187 | the array loop agrees with the stream function |
| WireShape.CheckMeaning | internal/botsearch/response.go:120-200 | the check accepts iff the stream begins with a tree of the shape (exact names, no unknown or repeated member, all required ones, no null, depth at most 32) and leaves exactly the rest |
| WireShape.OneReading | internal/botsearch/response.go:120-200 | a stream begins with at most one conforming tree, so what is consumed is that tree's tokens |
| WireShape.ValidBody | internal/botsearch/response.go:42-48 | the body passes iff it is exactly one conforming tree |
| WireLaws.AcceptedIsStrict | internal/botsearch/response.go:120-200 | a body that passes is one tree with no null and no repeated member anywhere, nested at most 32 deep |
| WireLaws.AcceptedHasLayout | internal/botsearch/response.go:120-200 | a body that passes has exactly the members of an answer, a match and a record by name, all that are required, each of its type |
| WireStruct.StructConforms | internal/botsearch/response.go:142-176 | an encoded struct has the shape the check derives from the same tags iff each of its values has its own |
| WireStruct.RowReadsBack | internal/botsearch/response.go:49-51 | the typed decoder, unknown members disallowed, gives back every field of an encoded struct |
| FacilityWire.FacilityReadsBack | internal/facility/model.go:79-114 | a whole record, all 34 members, survives encoding and typed decoding unchanged |
| FacilityWire.FacilityConformsIff | internal/facility/model.go:79-114 | any record, valid or not, has the client's shape iff neither its activities nor its translated schedule notes or rules are nil (nil travels as null, an empty list as []) |
| FacilityWire.ValidRecordConforms | internal/facility/catalog.go:133-201 | every validated record has the client's shape |
| FacilityWire.ReadRecordIsLegible | internal/facility/catalog.go:65-82 | a record that the typed decoder produced is legible, if writing what was read gives a text that reads the same |
| WireEncoding.AnswerPassesShapeCheck | internal/nearby/search.go:31-49 | every answer with valid records, encoded with all its members, passes the client's shape check in full |
| WireLaws.AnswerHolds | internal/nearby/search.go:31-49 | under each name of an encoded answer stands the field of that name |
| WireLaws.PlaceHolds | internal/facility/model.go:80-88 | the same for a record's place |
| WireLaws.HoursHold | internal/facility/model.go:89-96 | the same for its hours |
| WireLaws.FactsHold | internal/facility/model.go:97-105 | the same for its facts |
| WireLaws.EvidenceHolds | internal/facility/model.go:106-113 | the same for its evidence |
| BotResponse.DecodeResponse | internal/botsearch/response.go:36-113 | the decoder accepts iff every checkable promise holds and returns the answer unchanged |
| BotResponse.CheckMatches | internal/botsearch/response.go:84-108 | comparing neighbours decides strict (distance, ID) order of the whole list |
| BotResponse.ConsumerAcceptsProducer | internal/botsearch/response.go:52-113 | every answer of the search for a valid catalog, once decoded, passes the client's checks for the same input and is returned unchanged |
| BotClient.DecodeBody | internal/botsearch/response.go:36-113 | shape check, typed decoder and promise checks together compute what the specified client makes of any token stream |
| BotClient.ResponseReadsBack | internal/botsearch/response.go:49-51 | the typed decoder turns the tree of any answer with legible records back into that answer |
| BotClient.ClientReadsAnswer | internal/botsearch/response.go:36-113 | for every valid catalog, the tokens of every answer the search gives pass the shape check in full, decode to that answer, satisfy every check for the same input, and come back unchanged |
| BotClient.ClientReadsAnswerOfLoadedCatalog | internal/botsearch/response.go:36-113 | the same for every catalog whose records came out of the typed decoder, with no assumption on single records |
| ClientLaws.PromisedIff | internal/botsearch/response.go:52-113 | the client's checks hold of an answer as it travels iff it keeps every promise, spelled out: constants, echo, captions, and each spot's radius, genre, hours, order and ID |
| ClientLaws.ClientAcceptsIff | internal/botsearch/response.go:36-113 | for every stream of tokens the client passes an answer on iff the stream is a body of that answer and the answer keeps every promise |
| BotResponse.NoteIsPresentable | internal/nearby/search.go:80 | the note the API sends passes the client's text check |
| SlackStore.MemorySlackRequestStore.Begin | internal/chatbot/slack_store.go:56-72 | the method takes the specified step on both maps; a cancelled call changes nothing |
| SlackStore.MemorySlackRequestStore.MarkDelivered | internal/chatbot/slack_store.go:74-91 | only a generating request becomes delivered; everything else is unchanged |
| SlackStore.MemorySlackRequestStore.MarkFailed | internal/chatbot/slack_store.go:93-110 | only a generating request becomes failed; everything else is unchanged |
| SlackStore.MemorySlackRequestStore.PurgeExpired | internal/chatbot/slack_store.go:112-128 | visiting the requests in any order removes exactly the expired ones from both maps |
| SlackStore.TableStepKeeps | internal/chatbot/slack_store_postgres.go:42-83 | every statement, repeated IDs included, keeps both keys unique, never re-files a stored request or reopens a final one, and removes a row only by a purge at its expiry or later |
| SlackStore.TableKeysUnique | internal/chatbot/slack_store_postgres.go:42-83 | after every run of statements each row lies under its ID and no two rows share a source key |
| SlackStore.BeginAgreesIff | internal/chatbot/slack_store.go:65-71 | memory store and table agree on a Begin iff the ID is fresh or nothing is inserted anyway |
| SlackStore.RepeatedIdDisagrees | internal/chatbot/slack_store.go:65-71 | a run after which they disagree: a stored ID begins again under another key, and the memory store's maps are no longer inverse |
| SlackStore.StepSimulates | internal/chatbot/slack_store.go:56-146 | one operation keeps the maps inverse and matches the table's step and reply |
| SlackStore.MemoryRefinesTable | internal/chatbot/slack_store.go:56-146 | with fresh IDs, after every run the maps are mutually inverse, the rows equal the table's, replies equal up to error kind |
| SlackStoreLaws.EveryRowBegan | internal/chatbot/slack_store.go:56-110 | after every run each row was begun in it under its ID and key, with its times; only a mark of the run has changed its status, together with the update time |
| SlackStoreLaws.PurgeRemovesExpired | internal/chatbot/slack_store.go:112-128 | after any run a purge of an open store leaves no expired row and every other row as it was; in memory an expired row's key is free and the index holds exactly the stored keys |
| SlackDelivery.StepKeeps | internal/chatbot/slack_interactive.go:142-214 | every step of every interleaving keeps the protocol invariant |
| SlackDelivery.AlwaysInv | internal/chatbot/slack_interactive.go:142-214 | every reachable state satisfies the invariant |
| SlackDelivery.OneAnswerPerView | internal/chatbot/slack_interactive.go:158-173 | one candidate message and one final status per request; two searches of one view are separated by a purge of the first, an hour or more after it began |
| SlackDelivery.NoSecondSearchWithinLifetime | internal/chatbot/slack_interactive.go:158-173 | a view submitted again within the lifetime begins no second search, unless a purge before it read a clock that is ahead |
| SlackDelivery.OneWorkerPerView | internal/chatbot/slack_interactive.go:171-173 | two live workers of one view: the older one's request was purged after its lifetime and before the newer one began |
| SlackDelivery.DeliveredWasPosted | internal/chatbot/slack_interactive.go:208-213 | a delivered row had its message accepted; a status has left generating iff it was marked |
| SlackDelivery.StatusIsFinal | internal/chatbot/slack_store.go:84-107 | a status that has left generating never changes while the row is stored |
| SlackOutcome.StepKeepsOutcomes | internal/chatbot/slack_interactive.go:176-214 | every step keeps what the log says of each request consistent with its worker's phase and its row |
| SlackOutcome.AlwaysInOrder | internal/chatbot/slack_interactive.go:176-214 | in every run the search follows its begin, the candidates a successful search, the apology a failed one, the delivered mark an accepted post |
| SlackOutcome.EndedWithOneAnswer | internal/chatbot/slack_interactive.go:176-214 | in every run a worker that ended without being lost sent exactly one of candidates and apology, the candidates iff its search succeeded |
| SlackOutcome.DeliveredIffPosted | internal/chatbot/slack_interactive.go:180-213 | such a worker's row, if stored in an open store, is delivered iff the search succeeded and the post was accepted, else failed |
| SlackOutcome.UndisturbedSearch | internal/chatbot/slack_interactive.go:158-214 | a new view on an open store, undisturbed, ends delivered or failed as the search and the post say, with exactly that log |
| ReportEncoding.SixBytesARune | internal/correction/store.go:84-90 | a JSON string needs at most six bytes a rune |
| ReportEncoding.AcceptedIsNormal | internal/correction/service.go:125-162 | an accepted submission is trimmed and bounded, with consent exactly where there is a contact |
| ReportEncoding.NormalizationIsIdempotent | internal/correction/service.go:125-162 | submitting what was accepted is accepted again, unchanged |
| ReportEncoding.AcceptedIff | internal/correction/service.go:125-162 | exactly which submissions are accepted, field by field, with the limits written out |
| ReportEncoding.AcceptedFits | internal/correction/store.go:84-90 | every accepted submission encodes below 11000 bytes, hence below the 16384-byte line limit |
| CorrectionStore.FileStore.Save | internal/correction/store.go:77-117 | appends the encoded report, or reports the first failing check and leaves the file alone |
| CorrectionStore.FileStore.PurgeExpired | internal/correction/store.go:120-180 | scan and rewrite leave exactly the live reports in order, or fail and leave the file alone |
| CorrectionStore.FileStore.Open | internal/correction/store.go:26-44 | opening purges, creates a missing file and refuses one over capacity |
| CorrectionStore.ValidateFile | internal/correction/validate.go:20-59 | the read-only scan returns the specified counts or error |
| CorrectionStore.ValidatorPredictsPurge | internal/correction/validate.go:36-58 | it succeeds iff size and purge are fine, and ReportCount - ExpiredCount is the line count after the purge |
| CorrectionStore.TwoPurgesAreOne | internal/correction/store.go:126-180 | two purges are one at the later time |
| CorrectionStore.ReachableFile | internal/correction/store.go:77-180 | every reachable file is store-written, within 32 MiB, and holds exactly the saved, unpurged reports in save order |
| CorrectionStore.ReachableIsValid | internal/correction/validate.go:20-59 | every reachable file is accepted by the validator at any time |
| CorrectionStore.Submit | internal/correction/service.go:94-123 | an accepted submission adds one last line that records it field by field: the drawn ID, the clock, a deadline 90 days later, each text trimmed, consent iff there is a contact; else nothing changes |
| CorrectionStore.OnlyFullRefuses | internal/correction/service.go:115-117 | an accepted submission can only be refused for lack of space |
| CorrectionStore.PurgeStaysValidIff | internal/correction/store.go:166-172 | a purge of a valid file leaves one the validator accepts, at any time, iff each kept report encodes within the line limit and all of them within the capacity |
| CorrectionStore.PurgeCanSpoilForeignFile | internal/correction/store.go:138-172 | a valid file that a purge makes invalid by one overlong line |
| CorrectionStore.PurgeCanOverflowForeignFile | internal/correction/validate.go:28-30 | a valid file that a purge makes larger than the capacity, with every line within its limit |
| Metrics.Series.Observe | internal/observability/registry.go:124-137 | the loop bumps exactly the buckets whose bound holds the clamped latency |
| Metrics.Touch | internal/observability/registry.go:222-231 | finding or creating a label's series changes that label's reading only, and shares no series |
| Metrics.LabelsAreNonEmpty | internal/observability/registry.go:300-316 | labels are never empty, and a pattern with and without its method prefix share one series |
| Metrics.LabelsMeaning | internal/observability/registry.go:300-316 | the method label is the method without surrounding blanks, in capitals; the route label is the pattern without such a method and a blank before it; "unknown" for nothing |
| Metrics.Registry.ObserveHTTP | internal/observability/registry.go:211-232 | one more observation under the normalized labels, nothing else changes |
| Metrics.Registry.ObserveRecommendation | internal/observability/registry.go:235-254 | rejects unknown results without effect, otherwise records one observation |
| Metrics.Registry.ObserveExternalCall | internal/observability/registry.go:180-203 | rejects unknown labels without effect, otherwise records one observation |
| Metrics.Registry.SetCatalog | internal/observability/registry.go:283-298 | replaces the gauges iff fresh and stale are non-negative and add up |
| Metrics.Registry.ObserveProductEvent | internal/observability/registry.go:257-270 | counts a known event once, rejects others without effect |
| Metrics.Registry.ObserveClientProductEvent | internal/observability/registry.go:274-279 | the same, and rejects the event only the server may count |
| Metrics.Registry.TakeSnapshot | internal/observability/registry.go:380-418 | the copy equals the state when taken, with fixed labels and events completed, and holds no series object |
| MetricsLaws.BucketsCount | internal/observability/registry.go:124-137 | after any observations each bucket is the number of clamped latencies at or below its bound |
| MetricsLaws.BucketsAreCumulative | internal/observability/registry.go:132-136 | buckets are non-decreasing and at most the count |
| MetricsLaws.CountsAddUp | internal/observability/registry.go:211-232 | the counts of all labels add up to the number of observations |
| Exposition.EscapeIsSimultaneous | internal/observability/prometheus.go:286-290 | the three successive replacements are one simultaneous substitution |
| Exposition.ValueReadsBack | internal/observability/prometheus.go:286-290 | a line-oriented decoder, which refuses a newline inside a value, inverts the escape, whatever follows the quote |
| Exposition.SampleIsOneLine | internal/observability/prometheus.go:266-284 | whatever the label values hold, a printed sample has one newline, at its end |
| Exposition.WriteSample | internal/observability/prometheus.go:266-284 | appends exactly the specified line, which is one line |
| Exposition.SampleReadsBack | internal/observability/prometheus.go:266-284 | every printed line reads back to its name, labels and value |
| Exposition.PrintingIsInjective | internal/observability/prometheus.go:266-284 | different samples never print as the same line |
| Exposition.TextReadsBack | internal/observability/prometheus.go:42-59 | a printed text, read to its end, gives back exactly its samples, in order |
| Exposition.DecimalReadsBack | internal/observability/prometheus.go:57 | a printed count reads back to the count |
| Exposition.StatusClassText | internal/observability/registry.go:318-323 | the class is the hundreds digit and "xx" for 100 to 599, else "unknown" |
| Exposition.SortedHTTPSamples | internal/observability/prometheus.go:194-211 | the samples come out in label order, whatever the map's own order |
| Exposition.WriteHistogram | internal/observability/prometheus.go:241-258 | writes the bucket lines, +Inf, the sum and the count |
| Exposition.HistogramReadsBack | internal/observability/prometheus.go:241-264 | the lines read back and name different series |
| Exposition.PrintedBucketsAreCumulative | internal/observability/prometheus.go:241-258 | after any observations the counts read off a label's bucket lines never decrease, none exceeds the +Inf line's, and that is the number of observations made, like the _count line's |
| Exposition.WriteCounts | internal/observability/prometheus.go:52-59 | writes one counter line per sample |
| Exposition.CountersReadBack | internal/observability/prometheus.go:51-59 | the counter section reads back to the snapshot, one line per label triple |
| Exposition.TriplesPrintApart | internal/observability/prometheus.go:213-219 | distinct label triples never print as the same series |
| Page.PageReadsBack | internal/observability/prometheus.go:42-191 | a page of HELP, TYPE and sample lines reads back to exactly its sections, in order, each TYPE line after the HELP line of the same metric and before its samples |
| MetricsPage.RenderPrometheus | internal/observability/prometheus.go:42-191 | the whole printer writes the page of the specified nine sections for every snapshot |
| MetricsPage.HistogramsNoRepeat | internal/observability/prometheus.go:67-74 | histograms under different labels never share a series |
| MetricsPage.EventListIsComplete | internal/observability/registry.go:37-49 | the page lists exactly the events the registry counts |
| MetricsPage.RenderedPageReadsBack | internal/observability/prometheus.go:42-191 | for every snapshot the page reads back to its nine sections; no metric has two sections, each section holds samples of its own metric only, and no two samples of the page name the same series |
| PageMeaning.PageShowsSnapshot | internal/observability/prometheus.go:42-191 | the page of any snapshot, read back, shows every field of it under its own name and labels, histograms with all their buckets, nothing else and no series twice |
| PageMeaning.BoundTextsRead | internal/observability/prometheus.go:241-249 | the `le` text of each bucket reads as its bound |
| PageMeaning.PrintedBucketsCount | internal/observability/prometheus.go:241-258 | after any observations a label's bucket line reads the number of its latencies, negative ones as zero, at or below the number of its `le` text |

## Left out

- HTTP routing, handlers, cookies, TLS, environment settings, the wire calls to Google and Slack, SQL driver behaviour: I/O. Their outcomes are parameters (an answer, a clock reading, a random ID, a cancelled flag).
- Signatures, OAuth and bearer checks (`internal/owneraccess`, `internal/apiauth`): cryptography without arithmetic of its own.
- Great-circle trigonometry and floating-point rounding: a distance is any non-negative real function, and rates, tokens, durations and sums are real numbers.
- JSON byte syntax and UTF-8 validity: bodies are member lists or token streams. How single days, clocks, dates, times and URLs are written and parsed is a parameter (`RecordWire.Notation`); a record is legible when each of them is what its text reads as, which holds of every record that was read (`FacilityWire.ReadRecordIsLegible`).
- Text case folding and Unicode: activities and features are lower-case texts, methods are folded in ASCII.
- The zero time: it is `None`. Clock readings are assumed to lie after it.
- Message texts in Japanese, except the availability note of the nearby search, which the client checks.
- Closures after arrival: the engine tests the arrival date only, so `Recommendation.OpenThroughSession` speaks of the timetable. Adjacent windows are not joined.
- Mutexes: each method is one step. The Slack protocol interleaves whole store calls.
- File system failures, temporary files, permissions and the scanner's handling of carriage returns and of a missing last newline.
- Times in a report are whole seconds UTC in years 0 to 9999, as the service writes them.
- 64-bit wrap-around of counters: counts are unbounded.
- FacilityWire.ReadRecordIsLegible: the modelled typed decoder refuses null values and takes member names exactly, while the library decoder of the catalog file also accepts null and other letter case; a record read that way is one that a body without them gives as well.
- The PostgreSQL correction store, the Discord adapter, the web page, scripts and the catalog data.
