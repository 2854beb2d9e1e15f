/**
 The correction file (internal/correction/store.go, validate.go, service.go:94-123): JSON
 lines, appended by saves, rewritten by purges, checked by a read-only validator.
 */
module CorrectionStore {
  import opened Wrappers
  import opened ReportEncoding

  const MAX_STORED_REPORT_BYTES := 16 * 1024
  const MAX_STORE_BYTES := 32 * 1024 * 1024

  /** A line: what it decodes to (None if it does not) and its length without the newline. */
  datatype Line = Line(content: Option<Report>, length: nat)

  type Lines = seq<Line>

  /** The line the store writes for a report. */
  function Written(r: Report): Line {
    Line(Some(r), EncodedLength(r))
  }

  function Size(lines: Lines): nat {
    if lines == [] then 0 else Size(lines[..|lines| - 1]) + lines[|lines| - 1].length + 1
  }

  /** A line the scanner delivers whole, that decodes, and has a deadline. */
  predicate Readable(l: Line) {
    l.length <= MAX_STORED_REPORT_BYTES && l.content.Some? && l.content.value.deleteAfter.Some?
  }

  ghost predicate AllReadable(lines: Lines) {
    forall l | l in lines :: Readable(l)
  }

  predicate Live(l: Line, now: int)
    requires Readable(l)
  {
    now < l.content.value.deleteAfter.value
  }

  datatype Fault = ContextDone | NoDeadline | TooLong | Full | Missing | Undecodable | OverCapacity | Rejected

  // ---------- purging ----------

  /** The rewritten lines: live reports in order, each encoded afresh. */
  function Kept(lines: Lines, now: int): Lines
    requires AllReadable(lines)
  {
    if lines == [] then []
    else
      var last := lines[|lines| - 1];
      Kept(lines[..|lines| - 1], now) + if Live(last, now) then [Written(last.content.value)] else []
  }

  /** A purge of a file: None leaves the file as it was, with an error. A missing file stays missing. */
  ghost function Purged(file: Option<Lines>, now: int): Option<Option<Lines>> {
    if file.None? then Some(None)
    else if AllReadable(file.value) then Some(Some(Kept(file.value, now)))
    else None
  }

  // ---------- saving ----------

  function SaveFault(file: Option<Lines>, r: Report): Option<Fault> {
    var size := if file.None? then 0 else Size(file.value);
    if r.deleteAfter.None? then Some(NoDeadline)
    else if EncodedLength(r) > MAX_STORED_REPORT_BYTES then Some(TooLong)
    else if size + EncodedLength(r) + 1 > MAX_STORE_BYTES then Some(Full)
    else None
  }

  function Appended(file: Option<Lines>, r: Report): Lines {
    (if file.None? then [] else file.value) + [Written(r)]
  }

  class FileStore {
    /** The file at the store's path; None when it does not exist. */
    var file: Option<Lines>

    constructor (file: Option<Lines>)
      ensures this.file == file
    {
      this.file := file;
    }

    method Save(cancelled: bool, report: Report) returns (fault: Option<Fault>)
      modifies this
      ensures fault == if cancelled then Some(ContextDone) else old(SaveFault(file, report))
      ensures file == if fault.None? then Some(old(Appended(file, report))) else old(file)
    {
      if cancelled { return Some(ContextDone); }
      if report.deleteAfter.None? { return Some(NoDeadline); }
      var length := EncodedLength(report);
      if length > MAX_STORED_REPORT_BYTES { return Some(TooLong); }
      var currentSize := 0;
      if file.Some? { currentSize := Size(file.value); }
      if currentSize + length + 1 > MAX_STORE_BYTES { return Some(Full); }
      file := Some((if file.None? then [] else file.value) + [Line(Some(report), length)]);
      return None;
    }

    method PurgeExpired(now: int) returns (fault: Option<Fault>)
      modifies this
      ensures fault.None? <==> old(Purged(file, now)).Some?
      ensures fault.None? ==> Some(file) == old(Purged(file, now))
      ensures fault.Some? ==> fault == Some(Undecodable) && file == old(file)
    {
      if file.None? { return None; }
      var lines := file.value;
      var kept: seq<Report> := [];
      for i := 0 to |lines|
        invariant AllReadable(lines[..i]) && file == old(file)
        invariant |kept| == |Kept(lines[..i], now)|
        invariant forall k | 0 <= k < |kept| :: Kept(lines[..i], now)[k] == Written(kept[k])
      {
        assert lines[..i + 1] == lines[..i] + [lines[i]];
        assert lines[..i + 1][..i] == lines[..i];
        hide EncodedLength;
        var l := lines[i];
        assert l in lines;
        if l.length > MAX_STORED_REPORT_BYTES { return Some(Undecodable); }
        if l.content.None? || l.content.value.deleteAfter.None? { return Some(Undecodable); }
        if now < l.content.value.deleteAfter.value {
          kept := kept + [l.content.value];
        }
      }
      assert lines[..|lines|] == lines;
      var rewritten: Lines := [];
      for i := 0 to |kept|
        invariant file == old(file)
        invariant rewritten == Kept(lines, now)[..i]
      {
        hide EncodedLength;
        rewritten := rewritten + [Written(kept[i])];
      }
      assert Kept(lines, now)[..|kept|] == Kept(lines, now);
      file := Some(rewritten);
      return None;
    }

    /** Opening: purge, create the file if it is missing, refuse one that is over capacity. */
    method Open(now: int) returns (fault: Option<Fault>)
      modifies this
      ensures fault.None? ==> file.Some? && Size(file.value) <= MAX_STORE_BYTES
      ensures fault.None? <==> var p := old(Purged(file, now)); p.Some? && (p.value.Some? ==> Size(p.value.value) <= MAX_STORE_BYTES)
      ensures var p := old(Purged(file, now)); p.Some? ==> file == Some(if p.value.None? then [] else p.value.value)
    {
      fault := PurgeExpired(now);
      if fault.Some? { return; }
      if file.None? { file := Some([]); }
      if Size(file.value) > MAX_STORE_BYTES { return Some(OverCapacity); }
      return None;
    }
  }

  // ---------- the read-only validator ----------

  datatype Validation = Validation(reportCount: nat, expiredCount: nat)

  function ExpiredCount(lines: Lines, now: int): nat
    requires AllReadable(lines)
  {
    if lines == [] then 0
    else ExpiredCount(lines[..|lines| - 1], now) + if Live(lines[|lines| - 1], now) then 0 else 1
  }

  ghost function Validated(file: Option<Lines>, now: int): Result<Validation, Fault> {
    if file.None? then Failure(Missing)
    else if Size(file.value) > MAX_STORE_BYTES then Failure(OverCapacity)
    else if !AllReadable(file.value) then Failure(Undecodable)
    else Success(Validation(|file.value|, ExpiredCount(file.value, now)))
  }

  method ValidateFile(file: Option<Lines>, now: int) returns (r: Result<Validation, Fault>)
    ensures r == Validated(file, now)
  {
    if file.None? { return Failure(Missing); }
    if Size(file.value) > MAX_STORE_BYTES { return Failure(OverCapacity); }
    var lines := file.value;
    var reportCount, expiredCount := 0, 0;
    for i := 0 to |lines|
      invariant AllReadable(lines[..i])
      invariant reportCount == i && expiredCount == ExpiredCount(lines[..i], now)
    {
      assert lines[..i + 1] == lines[..i] + [lines[i]];
      assert lines[..i + 1][..i] == lines[..i];
      var l := lines[i];
      assert l in lines;
      if l.length > MAX_STORED_REPORT_BYTES { return Failure(Undecodable); }
      if l.content.None? || l.content.value.deleteAfter.None? { return Failure(Undecodable); }
      reportCount := reportCount + 1;
      if !(now < l.content.value.deleteAfter.value) {
        expiredCount := expiredCount + 1;
      }
    }
    assert lines[..|lines|] == lines;
    return Success(Validation(reportCount, expiredCount));
  }

  lemma PrefixReadable(lines: Lines)
    requires AllReadable(lines) && lines != []
    ensures AllReadable(lines[..|lines| - 1]) && Readable(lines[|lines| - 1])
  {
    assert lines[|lines| - 1] in lines;
  }

  lemma {:induction false} CountsSplit(lines: Lines, now: int)
    requires AllReadable(lines)
    ensures |Kept(lines, now)| + ExpiredCount(lines, now) == |lines|
  {
    if lines != [] {
      PrefixReadable(lines);
      CountsSplit(lines[..|lines| - 1], now);
    }
  }

  /**
   The validator predicts the purge: on an existing file within capacity it succeeds exactly
   when a purge does, and reportCount - expiredCount is the number of lines the purge leaves.
   */
  lemma ValidatorPredictsPurge(lines: Lines, now: int)
    ensures Validated(Some(lines), now).Success? <==> Size(lines) <= MAX_STORE_BYTES && Purged(Some(lines), now).Some?
    ensures var v := Validated(Some(lines), now);
            v.Success? ==> v.value.reportCount - v.value.expiredCount == |Purged(Some(lines), now).value.value|
  {
    if AllReadable(lines) { CountsSplit(lines, now); }
  }

  // ---------- files the store wrote ----------

  /** Every line is the store's own encoding of a report with a deadline, within the line limit. */
  ghost predicate StoreWritten(lines: Lines) {
    forall l | l in lines :: Readable(l) && l == Written(l.content.value)
  }

  ghost predicate GoodFile(file: Option<Lines>) {
    file.Some? ==> StoreWritten(file.value) && Size(file.value) <= MAX_STORE_BYTES
  }

  function Contents(lines: Lines): seq<Report>
    requires AllReadable(lines)
  {
    if lines == [] then []
    else
      assert lines[|lines| - 1] in lines;
      Contents(lines[..|lines| - 1]) + [lines[|lines| - 1].content.value]
  }

  lemma {:induction false} KeptIsStoreWritten(lines: Lines, now: int)
    requires StoreWritten(lines)
    ensures StoreWritten(Kept(lines, now)) && Size(Kept(lines, now)) <= Size(lines)
  {
    if lines != [] {
      var n := |lines| - 1;
      PrefixReadable(lines);
      KeptIsStoreWritten(lines[..n], now);
      var rest := Kept(lines[..n], now);
      if Live(lines[n], now) {
        assert Kept(lines, now) == rest + [Written(lines[n].content.value)];
        assert (rest + [Written(lines[n].content.value)])[..|rest|] == rest;
      } else {
        assert Kept(lines, now) == rest;
      }
    }
  }

  lemma OneMoreLine(lines: Lines, l: Line)
    ensures Size(lines + [l]) == Size(lines) + l.length + 1
    ensures forall x :: x in lines + [l] <==> x in lines || x == l
  {
    assert (lines + [l])[..|lines|] == lines;
  }

  lemma SaveKeepsGood(file: Option<Lines>, r: Report)
    requires GoodFile(file) && SaveFault(file, r).None?
    ensures GoodFile(Some(Appended(file, r)))
  {
    hide EncodedLength, Size;
    EmptyFile();
    OneMoreLine(if file.None? then [] else file.value, Written(r));
  }

  lemma EmptyFile()
    ensures Size([]) == 0
  {
  }

  lemma PurgeKeepsGood(file: Option<Lines>, now: int)
    requires GoodFile(file)
    ensures Purged(file, now).Some? && GoodFile(Purged(file, now).value)
  {
    if file.Some? {
      KeptIsStoreWritten(file.value, now);
    }
  }

  lemma {:induction false} KeptTwice(lines: Lines, first: int, second: int)
    requires StoreWritten(lines)
    ensures StoreWritten(Kept(lines, first))
    ensures Kept(Kept(lines, first), second) == Kept(lines, if first < second then second else first)
  {
    KeptIsStoreWritten(lines, first);
    if lines != [] {
      var n := |lines| - 1;
      PrefixReadable(lines);
      KeptTwice(lines[..n], first, second);
      var rest := Kept(lines[..n], first);
      assert lines[n] in lines;
      hide EncodedLength;
      if Live(lines[n], first) {
        assert Kept(lines, first) == rest + [lines[n]];
        KeptSnoc(rest, lines[n], second);
      } else {
        assert Kept(lines, first) == rest;
      }
    }
  }

  lemma KeptSnoc(lines: Lines, l: Line, now: int)
    requires AllReadable(lines) && Readable(l)
    ensures AllReadable(lines + [l])
    ensures Kept(lines + [l], now) == Kept(lines, now) + if Live(l, now) then [Written(l.content.value)] else []
  {
    assert (lines + [l])[..|lines|] == lines;
  }

  /** Two purges are one purge at the later time, in either order. */
  lemma TwoPurgesAreOne(file: Option<Lines>, first: int, second: int)
    requires GoodFile(file)
    ensures Purged(Purged(file, first).value, second) == Purged(file, if first < second then second else first)
  {
    PurgeKeepsGood(file, first);
    if file.Some? {
      KeptTwice(file.value, first, second);
      hide Kept;
    }
  }

  // ---------- runs ----------

  /** What succeeded, in order: a report stored, or a purge. */
  datatype Entry = Stored(report: Report) | PurgedAt(time: int)

  datatype Op = Save(report: Report) | Purge(time: int)

  ghost function Step(file: Option<Lines>, op: Op): Option<Lines> {
    match op
    case Save(r) => if SaveFault(file, r).None? then Some(Appended(file, r)) else file
    case Purge(t) => if Purged(file, t).Some? then Purged(file, t).value else file
  }

  ghost function Run(ops: seq<Op>): Option<Lines> {
    if ops == [] then None else Step(Run(ops[..|ops| - 1]), ops[|ops| - 1])
  }

  /** The entries of the operations that succeeded. */
  ghost function Journal(ops: seq<Op>): seq<Entry> {
    if ops == [] then []
    else
      var n := |ops| - 1;
      Journal(ops[..n]) + match ops[n]
                          case Save(r) => if SaveFault(Run(ops[..n]), r).None? then [Stored(r)] else []
                          case Purge(t) => [PurgedAt(t)]
  }

  ghost predicate OutlivesAll(r: Report, journal: seq<Entry>) {
    forall e | e in journal && e.PurgedAt? :: r.deleteAfter.Some? && e.time < r.deleteAfter.value
  }

  /** The reports stored before no purge at or after their deadline, in the order they were stored. */
  ghost function Survivors(journal: seq<Entry>): seq<Report> {
    if journal == [] then []
    else
      (if journal[0].Stored? && OutlivesAll(journal[0].report, journal[1..]) then [journal[0].report] else [])
      + Survivors(journal[1..])
  }

  lemma SavesChangeNothing(journal: seq<Entry>, r: Report, saved: Report)
    ensures OutlivesAll(r, journal + [Stored(saved)]) <==> OutlivesAll(r, journal)
  {
    assert forall e :: e in journal + [Stored(saved)] <==> e in journal || e == Stored(saved);
  }

  lemma FirstSurvivor(first: Entry, rest: seq<Entry>)
    ensures Survivors([first] + rest)
         == (if first.Stored? && OutlivesAll(first.report, rest) then [first.report] else []) + Survivors(rest)
  {
    assert ([first] + rest)[1..] == rest;
    hide OutlivesAll;
  }

  lemma {:induction false} SurvivorsAfterSave(journal: seq<Entry>, r: Report)
    ensures Survivors(journal + [Stored(r)]) == Survivors(journal) + [r]
  {
    if journal == [] {
      OnlySave(r);
      assert journal + [Stored(r)] == [Stored(r)];
    } else {
      var first, rest := journal[0], journal[1..];
      SurvivorsAfterSave(rest, r);
      hide Survivors, OutlivesAll;
      assert journal == [first] + rest && journal + [Stored(r)] == [first] + (rest + [Stored(r)]);
      FirstSurvivor(first, rest);
      FirstSurvivor(first, rest + [Stored(r)]);
      if first.Stored? { SavesChangeNothing(rest, first.report, r); }
    }
  }

  lemma OnlySave(r: Report)
    ensures Survivors([Stored(r)]) == [r] && Survivors([]) == []
  {
    assert [Stored(r)][1..] == [];
  }

  ghost function LiveReports(rs: seq<Report>, now: int): seq<Report> {
    if rs == [] then []
    else
      (if rs[0].deleteAfter.Some? && now < rs[0].deleteAfter.value then [rs[0]] else []) + LiveReports(rs[1..], now)
  }

  lemma PurgeDecides(journal: seq<Entry>, r: Report, t: int)
    ensures OutlivesAll(r, journal + [PurgedAt(t)])
       <==> OutlivesAll(r, journal) && r.deleteAfter.Some? && t < r.deleteAfter.value
  {
    assert forall e :: e in journal + [PurgedAt(t)] <==> e in journal || e == PurgedAt(t);
  }

  lemma OnlyPurge(t: int)
    ensures Survivors([PurgedAt(t)]) == [] && Survivors([]) == [] && LiveReports([], t) == []
  {
    assert [PurgedAt(t)][1..] == [];
  }

  lemma FirstLive(r: Report, rs: seq<Report>, t: int)
    ensures LiveReports([r] + rs, t)
         == (if r.deleteAfter.Some? && t < r.deleteAfter.value then [r] else []) + LiveReports(rs, t)
  {
    assert ([r] + rs)[1..] == rs;
  }

  lemma {:induction false} SurvivorsAfterPurge(journal: seq<Entry>, t: int)
    ensures Survivors(journal + [PurgedAt(t)]) == LiveReports(Survivors(journal), t)
  {
    if journal == [] {
      OnlyPurge(t);
      assert journal + [PurgedAt(t)] == [PurgedAt(t)];
    } else {
      var first, rest := journal[0], journal[1..];
      SurvivorsAfterPurge(rest, t);
      hide Survivors, OutlivesAll, LiveReports;
      assert journal == [first] + rest && journal + [PurgedAt(t)] == [first] + (rest + [PurgedAt(t)]);
      FirstSurvivor(first, rest);
      FirstSurvivor(first, rest + [PurgedAt(t)]);
      if first.Stored? {
        PurgeDecides(rest, first.report, t);
        FirstLive(first.report, Survivors(rest), t);
      }
      assert [] + Survivors(rest) == Survivors(rest);
    }
  }

  lemma {:induction false} LiveReportsSnoc(rs: seq<Report>, r: Report, now: int)
    ensures LiveReports(rs + [r], now) == LiveReports(rs, now) + LiveReports([r], now)
  {
    if rs == [] {
      assert rs + [r] == [r];
    } else {
      LiveReportsSnoc(rs[1..], r, now);
      FirstLive(rs[0], rs[1..], now);
      FirstLive(rs[0], rs[1..] + [r], now);
      hide LiveReports;
      assert rs == [rs[0]] + rs[1..] && rs + [r] == [rs[0]] + (rs[1..] + [r]);
    }
  }

  lemma ContentsSnoc(lines: Lines, l: Line)
    requires AllReadable(lines) && Readable(l)
    ensures AllReadable(lines + [l]) && Contents(lines + [l]) == Contents(lines) + [l.content.value]
  {
    assert (lines + [l])[..|lines|] == lines;
  }

  lemma LiveReport(r: Report, now: int)
    ensures LiveReports([r], now) == if r.deleteAfter.Some? && now < r.deleteAfter.value then [r] else []
  {
    assert [r][1..] == [];
  }

  lemma StoreWrittenPrefix(lines: Lines)
    requires StoreWritten(lines) && lines != []
    ensures StoreWritten(lines[..|lines| - 1]) && AllReadable(lines) && AllReadable(lines[..|lines| - 1])
    ensures var l := lines[|lines| - 1]; Readable(l) && Readable(Written(l.content.value))
  {
    hide EncodedLength;
    assert lines[|lines| - 1] in lines;
  }

  lemma NothingKept(now: int)
    ensures Kept([], now) == [] && Contents([]) == [] && LiveReports([], now) == []
  {
  }

  lemma StoreWrittenIsReadable(lines: Lines)
    requires StoreWritten(lines)
    ensures AllReadable(lines)
  {
    hide Readable, Written;
  }

  lemma {:induction false} ContentsOfKept(lines: Lines, now: int)
    requires StoreWritten(lines)
    ensures StoreWritten(Kept(lines, now)) && Contents(Kept(lines, now)) == LiveReports(Contents(lines), now)
  {
    hide EncodedLength, Kept, Contents, LiveReports, Written, Size, StoreWritten, AllReadable, Readable;
    KeptIsStoreWritten(lines, now);
    if lines == [] {
      NothingKept(now);
    } else {
      var n := |lines| - 1;
      StoreWrittenPrefix(lines);
      ContentsOfKept(lines[..n], now);
      StoreWrittenIsReadable(Kept(lines[..n], now));
      assert lines == lines[..n] + [lines[n]];
      KeptContentsSnoc(lines[..n], lines[n], now);
    }
  }

  lemma KeptContentsSnoc(lines: Lines, l: Line, now: int)
    requires AllReadable(lines) && Readable(l) && AllReadable(Kept(lines, now)) && Readable(Written(l.content.value))
    requires Contents(Kept(lines, now)) == LiveReports(Contents(lines), now)
    ensures AllReadable(lines + [l]) && AllReadable(Kept(lines + [l], now))
    ensures Contents(Kept(lines + [l], now)) == LiveReports(Contents(lines + [l]), now)
  {
    hide EncodedLength, Kept, Contents, LiveReports;
    var r := l.content.value;
    KeptSnoc(lines, l, now);
    ContentsSnoc(lines, l);
    LiveReportsSnoc(Contents(lines), r, now);
    LiveReport(r, now);
    if Live(l, now) {
      ContentsSnoc(Kept(lines, now), Written(r));
    } else {
      assert Kept(lines, now) + [] == Kept(lines, now);
      assert LiveReports(Contents(lines), now) + [] == LiveReports(Contents(lines), now);
    }
  }

  ghost function FileContents(file: Option<Lines>): seq<Report>
    requires file.Some? ==> AllReadable(file.value)
  {
    if file.None? then [] else Contents(file.value)
  }

  /** Every reachable file is good and holds exactly the surviving reports, in save order. */
  lemma {:induction false} ReachableFile(ops: seq<Op>)
    ensures GoodFile(Run(ops))
    ensures FileContents(Run(ops)) == Survivors(Journal(ops))
  {
    if ops != [] {
      var n := |ops| - 1;
      ReachableFile(ops[..n]);
      StepContents(Run(ops[..n]), ops[n], Journal(ops[..n]));
      hide GoodFile, Step, FileContents, Survivors;
    }
  }

  lemma StepContents(file: Option<Lines>, op: Op, journal: seq<Entry>)
    requires GoodFile(file) && FileContents(file) == Survivors(journal)
    ensures GoodFile(Step(file, op))
    ensures FileContents(Step(file, op))
         == Survivors(journal + match op
                                case Save(r) => if SaveFault(file, r).None? then [Stored(r)] else []
                                case Purge(t) => [PurgedAt(t)])
  {
    match op
    case Save(r) =>
      if SaveFault(file, r).None? {
        SaveKeepsGood(file, r);
        SurvivorsAfterSave(journal, r);
        AppendedContents(file, r);
      } else {
        assert journal + [] == journal;
      }
    case Purge(t) =>
      PurgeKeepsGood(file, t);
      SurvivorsAfterPurge(journal, t);
      if file.Some? { ContentsOfKept(file.value, t); }
  }

  lemma AppendedContents(file: Option<Lines>, r: Report)
    requires GoodFile(file) && GoodFile(Some(Appended(file, r)))
    ensures FileContents(Some(Appended(file, r))) == FileContents(file) + [r]
  {
    var before: Lines := if file.None? then [] else file.value;
    assert AllReadable(before) && FileContents(file) == Contents(before);
    assert (before + [Written(r)])[..|before|] == before;
    hide EncodedLength;
  }

  /** Such a file always passes the validator, whatever the time. */
  lemma ReachableIsValid(ops: seq<Op>, now: int)
    requires Run(ops).Some?
    ensures Validated(Run(ops), now).Success?
    ensures Validated(Run(ops), now).value.reportCount == |Survivors(Journal(ops))|
  {
    ReachableFile(ops);
    ContentsLength(Run(ops).value);
  }

  lemma {:induction false} ContentsLength(lines: Lines)
    requires AllReadable(lines)
    ensures |Contents(lines)| == |lines|
  {
    if lines != [] {
      PrefixReadable(lines);
      ContentsLength(lines[..|lines| - 1]);
    }
  }

  // ---------- submissions ----------

  /** Submit: the outcome for one submission, with the ID and the clock reading it draws. */
  ghost function SubmitFault(file: Option<Lines>, raw: Submission, parsers: Parsers, reportId: string, clock: int): Option<Fault> {
    var normalized := NormalizeSubmission(raw, parsers);
    if normalized.Failure? then Some(Rejected)
    else SaveFault(file, ReportOf(normalized.value, reportId, clock))
  }

  /** An accepted submission can only be refused for lack of space in the file. */
  lemma OnlyFullRefuses(file: Option<Lines>, raw: Submission, parsers: Parsers, reportId: string, clock: int)
    requires IsReportId(reportId) && NormalizeSubmission(raw, parsers).Success?
    ensures SubmitFault(file, raw, parsers, reportId, clock) in {None, Some(Full)}
    ensures (if file.None? then 0 else Size(file.value)) + 11000 <= MAX_STORE_BYTES
            ==> SubmitFault(file, raw, parsers, reportId, clock).None?
  {
    AcceptedIsNormal(raw, parsers);
    AcceptedFits(NormalizeSubmission(raw, parsers).value, reportId, clock);
    hide NormalizeSubmission, EncodedLength;
  }

  datatype Receipt = Receipt(reportId: string, receivedAt: int)

  /** An accepted submission ends the file with one more line, which records it. */
  method Submit(store: FileStore, cancelled: bool, raw: Submission, parsers: Parsers, reportId: string, clock: int)
    returns (receipt: Option<Receipt>, fault: Option<Fault>)
    modifies store
    ensures receipt == if fault.None? then Some(Receipt(reportId, clock)) else None
    ensures fault.None? ==>
              && store.file.Some? && |store.file.value| >= 1
              && store.file.value[..|store.file.value| - 1] == old(if store.file.None? then [] else store.file.value)
              && store.file.value[|store.file.value| - 1].content.Some?
              && Records(store.file.value[|store.file.value| - 1].content.value, raw, reportId, clock)
    ensures !cancelled ==> fault == old(SubmitFault(store.file, raw, parsers, reportId, clock))
    ensures fault.None? ==> NormalizeSubmission(raw, parsers).Success?
    ensures fault.None? ==>
              store.file == Some(old(Appended(store.file, ReportOf(NormalizeSubmission(raw, parsers).value, reportId, clock))))
    ensures fault.Some? ==> store.file == old(store.file)
  {
    var normalized := NormalizeSubmission(raw, parsers);
    if normalized.Failure? { return None, Some(Rejected); }
    hide NormalizeSubmission, Records, EncodedLength;
    ReportRecords(raw, parsers, reportId, clock);
    fault := store.Save(cancelled, ReportOf(normalized.value, reportId, clock));
    receipt := if fault.None? then Some(Receipt(reportId, clock)) else None;
  }

  // ---------- files the store did not write ----------

  /** The bytes a purge writes: each live report afresh, with its newline. */
  function LiveSize(lines: Lines, now: int): nat
    requires AllReadable(lines)
  {
    if lines == [] then 0
    else
      var last := lines[|lines| - 1];
      LiveSize(lines[..|lines| - 1], now) + if Live(last, now) then EncodedLength(last.content.value) + 1 else 0
  }

  lemma {:induction false} KeptSize(lines: Lines, now: int)
    requires AllReadable(lines)
    ensures Size(Kept(lines, now)) == LiveSize(lines, now)
  {
    hide EncodedLength;
    if lines != [] {
      var n := |lines| - 1;
      PrefixReadable(lines);
      KeptSize(lines[..n], now);
      var rest := Kept(lines[..n], now);
      if Live(lines[n], now) {
        assert Kept(lines, now) == rest + [Written(lines[n].content.value)];
        assert (rest + [Written(lines[n].content.value)])[..|rest|] == rest;
      } else {
        assert Kept(lines, now) == rest;
      }
    }
  }

  /** The lines a purge leaves are readable exactly when each report it keeps encodes within the line limit. */
  lemma {:induction false} PurgeStaysReadableIff(lines: Lines, now: int)
    requires AllReadable(lines)
    ensures AllReadable(Kept(lines, now))
       <==> forall l | l in lines && Live(l, now) :: EncodedLength(l.content.value) <= MAX_STORED_REPORT_BYTES
  {
    hide EncodedLength;
    if lines != [] {
      var n := |lines| - 1;
      PrefixReadable(lines);
      PurgeStaysReadableIff(lines[..n], now);
      assert forall l :: l in lines <==> l in lines[..n] || l == lines[n];
      var rest := Kept(lines[..n], now);
      assert Readable(Written(lines[n].content.value)) <==> EncodedLength(lines[n].content.value) <= MAX_STORED_REPORT_BYTES;
      var next := if Live(lines[n], now) then [Written(lines[n].content.value)] else [];
      assert Kept(lines, now) == rest + next;
      assert forall l :: l in rest + next <==> l in rest || l in next;
    }
  }

  /**
   A purge of a valid file leaves a valid one, at any time, exactly when each report it keeps
   encodes within the line limit and all of them together within the capacity.
   */
  lemma PurgeStaysValidIff(lines: Lines, now: int, later: int)
    requires Validated(Some(lines), now).Success?
    ensures Purged(Some(lines), now).Some?
    ensures Validated(Purged(Some(lines), now).value, later).Success?
       <==> && (forall l | l in lines && Live(l, now) :: EncodedLength(l.content.value) <= MAX_STORED_REPORT_BYTES)
            && LiveSize(lines, now) <= MAX_STORE_BYTES
  {
    PurgeStaysReadableIff(lines, now);
    KeptSize(lines, now);
    hide EncodedLength, Kept, Size;
  }

  /** A report with n raw '<' as another writer may store it: six times as long once rewritten. */
  function Foreign(n: nat): Report {
    Report("COR-1", "a", "other", seq(n, _ => '<'), "", "", false, 0, Some(10))
  }

  lemma ForeignLength(n: nat)
    ensures 6 * n <= EncodedLength(Foreign(n)) <= 6 * n + 300
  {
    hide EscapedBytes;
    RepeatedEscape('<', n);
    PlainTextIsUnescaped("COR-1");
    PlainTextIsUnescaped("a");
    PlainTextIsUnescaped("other");
  }

  lemma {:induction false} RepeatedSize(l: Line, n: nat, now: int)
    requires Readable(l)
    ensures var lines := seq(n, _ => l);
            && Size(lines) == n * (l.length + 1)
            && LiveSize(lines, now) == n * if Live(l, now) then EncodedLength(l.content.value) + 1 else 0
  {
    hide EncodedLength;
    var one := if Live(l, now) then EncodedLength(l.content.value) + 1 else 0;
    if n > 0 {
      var lines := seq(n, _ => l);
      RepeatedSize(l, n - 1, now);
      assert lines[..n - 1] == seq(n - 1, _ => l);
      assert n * (l.length + 1) == (n - 1) * (l.length + 1) + (l.length + 1);
      assert n * one == (n - 1) * one + one;
    }
  }

  /** A file of one report repeated: what a purge makes of it. */
  lemma RepeatedFile(r: Report, length: nat, count: nat)
    requires r.deleteAfter.Some? && 0 < r.deleteAfter.value
    requires length <= MAX_STORED_REPORT_BYTES && 0 < count && count * (length + 1) <= MAX_STORE_BYTES
    ensures var lines := seq(count, _ => Line(Some(r), length));
            && Validated(Some(lines), 0).Success? && Purged(Some(lines), 0).Some?
            && (Validated(Purged(Some(lines), 0).value, 0).Success?
                <==> EncodedLength(r) <= MAX_STORED_REPORT_BYTES && count * (EncodedLength(r) + 1) <= MAX_STORE_BYTES)
  {
    hide EncodedLength;
    var l := Line(Some(r), length);
    var lines := seq(count, _ => l);
    RepeatedSize(l, count, 0);
    assert lines[0] in lines && Live(l, 0);
    hide Kept, Size, LiveSize;
    PurgeStaysValidIff(lines, 0, 0);
  }

  /** So a valid file brought in from elsewhere can stop being valid by a purge: escaping may grow a line too far. */
  lemma PurgeCanSpoilForeignFile()
    ensures var lines := seq(1, _ => Line(Some(Foreign(3000)), 3200));
            && Validated(Some(lines), 0).Success? && Purged(Some(lines), 0).Some?
            && Validated(Purged(Some(lines), 0).value, 0).Failure?
  {
    ForeignLength(3000);
    ForeignDeadline(3000);
    hide EncodedLength, Foreign, Kept, Size, LiveSize, Validated, Purged;
    RepeatedFile(Foreign(3000), 3200, 1);
  }

  /** Or the whole file over the capacity, with every line within its own limit. */
  lemma PurgeCanOverflowForeignFile()
    ensures EncodedLength(Foreign(2500)) <= MAX_STORED_REPORT_BYTES
    ensures var lines := seq(12000, _ => Line(Some(Foreign(2500)), 2700));
            && Validated(Some(lines), 0).Success? && Purged(Some(lines), 0).Some?
            && Validated(Purged(Some(lines), 0).value, 0).Failure?
  {
    ForeignLength(2500);
    ForeignDeadline(2500);
    hide EncodedLength, Foreign, Kept, Size, LiveSize, Validated, Purged;
    RepeatedFile(Foreign(2500), 2700, 12000);
  }

  lemma ForeignDeadline(n: nat)
    ensures Foreign(n).deleteAfter == Some(10)
  {
  }
}
