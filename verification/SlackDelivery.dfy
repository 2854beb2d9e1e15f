/**
 The delivery protocol of a Slack search (internal/chatbot/slack_interactive.go:142-214) as
 steps: submissions of a view, the background workers they start, purges and the closing
 of the store, interleaved in any order. The store is the table of SlackStore.
 */
module SlackDelivery {
  import opened Wrappers
  import opened SlackStore

  /** Where a worker stands; each phase ends with one effect. */
  datatype Phase =
    | Searching   // resolving the place and asking for recommendations
    | Failing     // about to mark the request failed, then to apologise
    | Apologising // about to post the failure message
    | Answering   // about to post the candidates
    | Confirming  // the post succeeded; about to mark the request delivered
    | Recording   // the post failed; about to mark the request failed

  /** What has happened, in order, with the clock readings that decide how long a request is stored. */
  datatype Event =
    | Began(id: string, key: string, beganAt: int)
    | Searched(id: string, ok: bool)   // place found and recommendations returned, or not
    | Posted(id: string, ok: bool)     // the candidate message
    | Apologised(id: string)
    | Marked(id: string, status: Status)
    | Purged(ids: set<string>, purgedAt: int)
    | Lost(id: string)                 // the worker disappeared with its process

  /** issued: the request IDs handed out so far. */
  datatype State = State(table: Table, workers: map<string, Phase>, issued: set<string>, log: seq<Event>)

  datatype Action =
    | Submit(id: string, key: string, now: int) // a view submission, first or repeated by the platform
    | Work(id: string, ok: bool, now: int)      // a worker takes its next step; ok is the outcome of its call
    | Sweep(now: int)                           // the periodic purge
    | Lose(id: string)                          // a worker disappears with its process
    | Shutdown

  const LIFETIME := 3600

  const Start := State(Table(map[], false), map[], {}, [])

  /** A submission always carries an ID that was never issued before. */
  predicate Fresh(s: State, a: Action) {
    a.Submit? ==> a.id !in s.issued
  }

  function Submitted(s: State, id: string, key: string, now: int): State {
    var (t, created, fault) := TableBegin(s.table, Request(id, key, Generating, now, now, now + LIFETIME));
    var s' := s.(table := t, issued := s.issued + {id});
    if created then s'.(workers := s.workers[id := Searching], log := s.log + [Began(id, key, now)]) else s'
  }

  /** Marking ignores the reply, as the worker does. */
  function MarkedBy(s: State, id: string, status: Status, now: int): State {
    var (t, fault) := TableMark(s.table, id, status, now);
    s.(table := t, log := if fault == NoFault then s.log + [Marked(id, status)] else s.log)
  }

  function Worked(s: State, id: string, ok: bool, now: int): State
    requires id in s.workers
  {
    match s.workers[id]
    case Searching => s.(workers := s.workers[id := if ok then Answering else Failing], log := s.log + [Searched(id, ok)])
    case Failing => var s' := MarkedBy(s, id, Failed, now); s'.(workers := s.workers[id := Apologising])
    case Apologising => s.(workers := s.workers - {id}, log := s.log + [Apologised(id)])
    case Answering => s.(workers := s.workers[id := if ok then Confirming else Recording], log := s.log + [Posted(id, ok)])
    case Confirming => var s' := MarkedBy(s, id, Delivered, now); s'.(workers := s.workers - {id})
    case Recording => var s' := MarkedBy(s, id, Failed, now); s'.(workers := s.workers - {id})
  }

  function Swept(s: State, now: int): State {
    var (t, fault) := TablePurge(s.table, now);
    if fault == NoFault then s.(table := t, log := s.log + [Purged(s.table.rows.Keys - t.rows.Keys, now)]) else s
  }

  function Next(s: State, a: Action): State {
    match a
    case Submit(id, key, now) => Submitted(s, id, key, now)
    case Work(id, ok, now) => if id in s.workers then Worked(s, id, ok, now) else s
    case Sweep(now) => Swept(s, now)
    case Lose(id) => if id in s.workers then s.(workers := s.workers - {id}, log := s.log + [Lost(id)]) else s
    case Shutdown => s.(table := s.table.(closed := true))
  }

  function Run(actions: seq<Action>): State {
    if actions == [] then Start else Next(Run(actions[..|actions| - 1]), actions[|actions| - 1])
  }

  ghost predicate Admissible(actions: seq<Action>) {
    forall i | 0 <= i < |actions| :: Fresh(Run(actions[..i]), actions[i])
  }

  // ---------- what holds in every reachable state ----------

  /** Everything the state mentions was issued; rows are filed under their ID with distinct keys. */
  ghost predicate Tidy(s: State) {
    && s.table.rows.Keys <= s.issued && s.workers.Keys <= s.issued
    && (forall e | e in s.log && !e.Purged? :: e.id in s.issued)
    && (forall id, id' | id in s.table.rows && id' in s.table.rows && id != id' ::
          s.table.rows[id].sourceEventKey != s.table.rows[id'].sourceEventKey)
  }

  /** An event that names an ID at most once in the log. */
  ghost predicate AtMostOnce(log: seq<Event>) {
    && (forall i, j | 0 <= i < j < |log| && log[i].Began? && log[j].Began? :: log[i].id != log[j].id)
    && (forall i, j | 0 <= i < j < |log| && log[i].Posted? && log[j].Posted? :: log[i].id != log[j].id)
    && (forall i, j | 0 <= i < j < |log| && log[i].Marked? && log[j].Marked? :: log[i].id != log[j].id)
  }

  ghost predicate EverPosted(log: seq<Event>, id: string) {
    exists e :: e in log && e.Posted? && e.id == id
  }

  ghost predicate EverMarked(log: seq<Event>, id: string) {
    exists e :: e in log && e.Marked? && e.id == id
  }

  /** What a live worker's phase says about the log. */
  ghost predicate PhaseFits(s: State, id: string)
    requires id in s.workers
  {
    match s.workers[id]
    case Searching => !EverPosted(s.log, id) && !EverMarked(s.log, id)
    case Answering => !EverPosted(s.log, id) && !EverMarked(s.log, id)
    case Failing => !EverPosted(s.log, id) && !EverMarked(s.log, id)
    case Apologising => !EverPosted(s.log, id)
    case Confirming => Posted(id, true) in s.log && !EverMarked(s.log, id)
    case Recording => Posted(id, false) in s.log && !EverMarked(s.log, id)
  }

  /** Rows and log tell the same story: a row is still generating until the one event that marked it. */
  ghost predicate RowsFit(s: State) {
    && (forall id | id in s.table.rows && EverMarked(s.log, id) :: Marked(id, s.table.rows[id].status) in s.log)
    && (forall id | id in s.table.rows && !EverMarked(s.log, id) :: s.table.rows[id].status == Generating)
    && (forall id, status | Marked(id, status) in s.log :: status != Generating)
    && (forall id | Marked(id, Delivered) in s.log :: Posted(id, true) in s.log)
  }

  /** The request begun by event i was purged after i and before `end`, at the end of its lifetime or later. */
  ghost predicate PurgedBetween(log: seq<Event>, i: nat, end: int)
    requires i < |log| && log[i].Began?
  {
    exists m :: i < m < end && m < |log| && PurgedBy(log[i], log[m])
  }

  predicate PurgedBy(begin: Event, e: Event)
    requires begin.Began?
  {
    e.Purged? && begin.id in e.ids && begin.beganAt + LIFETIME <= e.purgedAt
  }

  /** The row of a begun request, as long as it is stored. */
  predicate RowOf(r: Request, begin: Event)
    requires begin.Began?
  {
    r.sourceEventKey == begin.key && r.expiresAt == begin.beganAt + LIFETIME
  }

  ghost predicate Accounted(s: State) {
    forall i | 0 <= i < |s.log| && s.log[i].Began? ::
      || (s.log[i].id in s.table.rows && RowOf(s.table.rows[s.log[i].id], s.log[i]))
      || PurgedBetween(s.log, i, |s.log|)
  }

  /** Two searches begun for the same view have a purge of the first between them. */
  ghost predicate OneAtATime(log: seq<Event>) {
    forall i, j | 0 <= i < j < |log| && log[i].Began? && log[j].Began? && log[i].key == log[j].key ::
      PurgedBetween(log, i, j)
  }

  ghost predicate EverBegan(log: seq<Event>, id: string) {
    exists e :: e in log && e.Began? && e.id == id
  }

  /** Only begun requests have workers or messages. */
  ghost predicate Backed(s: State) {
    && (forall id | id in s.workers :: EverBegan(s.log, id))
    && (forall id | EverPosted(s.log, id) :: EverBegan(s.log, id))
  }

  ghost predicate PhasesFit(s: State) {
    forall id | id in s.workers :: PhaseFits(s, id)
  }

  ghost predicate Inv(s: State) {
    Tidy(s) && AtMostOnce(s.log) && PhasesFit(s) && RowsFit(s) && Accounted(s) && OneAtATime(s.log) && Backed(s)
  }

  // ---------- one more event ----------

  lemma EverAfter(log: seq<Event>, e: Event, id: string)
    ensures EverPosted(log + [e], id) <==> EverPosted(log, id) || (e.Posted? && e.id == id)
    ensures EverMarked(log + [e], id) <==> EverMarked(log, id) || (e.Marked? && e.id == id)
    ensures EverBegan(log + [e], id) <==> EverBegan(log, id) || (e.Began? && e.id == id)
  {
    assert forall x :: x in log + [e] <==> x in log || x == e;
  }

  lemma OnceAfter(log: seq<Event>, e: Event)
    requires AtMostOnce(log)
    requires e.Began? ==> !EverBegan(log, e.id)
    requires e.Posted? ==> !EverPosted(log, e.id)
    requires e.Marked? ==> !EverMarked(log, e.id)
    ensures AtMostOnce(log + [e])
  {
    assert forall i | 0 <= i < |log| :: log[i] in log;
  }

  lemma BetweenAfter(log: seq<Event>, e: Event, i: nat, end: int)
    requires i < |log| && log[i].Began? && PurgedBetween(log, i, end)
    ensures PurgedBetween(log + [e], i, end) && PurgedBetween(log + [e], i, end + 1)
  {
    var m :| i < m < end && m < |log| && PurgedBy(log[i], log[m]);
    assert (log + [e])[m] == log[m];
  }

  /** An event that begins nothing keeps the accounts, if rows only leave by the purge it records. */
  lemma AccountsAfter(s: State, t: State, e: Event)
    requires Accounted(s) && OneAtATime(s.log) && t.log == s.log + [e] && !e.Began?
    requires forall id | id in s.table.rows ::
               || (id in t.table.rows && t.table.rows[id].sourceEventKey == s.table.rows[id].sourceEventKey
                   && t.table.rows[id].expiresAt == s.table.rows[id].expiresAt)
               || (e.Purged? && id in e.ids && s.table.rows[id].expiresAt <= e.purgedAt)
    ensures Accounted(t) && OneAtATime(t.log)
  {
    var n := |s.log|;
    forall i | 0 <= i < |t.log| && t.log[i].Began?
      ensures || (t.log[i].id in t.table.rows && RowOf(t.table.rows[t.log[i].id], t.log[i]))
              || PurgedBetween(t.log, i, |t.log|)
    {
      assert i < n && s.log[i] == t.log[i];
      if PurgedBetween(s.log, i, n) {
        BetweenAfter(s.log, e, i, n);
      } else if e.Purged? && t.log[i].id in e.ids {
        assert t.log[n] == e;
      }
    }
    forall i, j | 0 <= i < j < |t.log| && t.log[i].Began? && t.log[j].Began? && t.log[i].key == t.log[j].key
      ensures PurgedBetween(t.log, i, j)
    {
      assert s.log[i] == t.log[i] && s.log[j] == t.log[j];
      BetweenAfter(s.log, e, i, j);
    }
  }

  /** A begun search keeps them too: no stored row had its key, so every earlier one was purged. */
  lemma AccountsAfterBegin(s: State, id: string, key: string, now: int)
    requires Accounted(s) && OneAtATime(s.log) && id !in s.table.rows && !HasSource(s.table.rows, key)
    requires var t := Submitted(s, id, key, now); t.log == s.log + [Began(id, key, now)]
    ensures var t := Submitted(s, id, key, now); Accounted(t) && OneAtATime(t.log)
  {
    var t := Submitted(s, id, key, now);
    var e, n := Began(id, key, now), |s.log|;
    forall i | 0 <= i < n && s.log[i].Began? && PurgedBetween(s.log, i, n)
      ensures s.log[i] == t.log[i] && PurgedBetween(t.log, i, n) && PurgedBetween(t.log, i, n + 1)
    {
      BetweenAfter(s.log, e, i, n);
    }
    forall i, j | 0 <= i < j < |t.log| && t.log[i].Began? && t.log[j].Began? && t.log[i].key == t.log[j].key
      ensures PurgedBetween(t.log, i, j)
    {
      assert s.log[i] == t.log[i];
      if j < n {
        assert s.log[j] == t.log[j];
        BetweenAfter(s.log, e, i, j);
      }
    }
  }

  // ---------- each step keeps the invariant ----------

  lemma SubmitKeeps(s: State, id: string, key: string, now: int)
    requires Inv(s) && id !in s.issued
    ensures Inv(Submitted(s, id, key, now))
  {
    var t := Submitted(s, id, key, now);
    if t.log != s.log {
      NothingBefore(s, id);
      OnceAfter(s.log, Began(id, key, now));
      AccountsAfterBegin(s, id, key, now);
      hide Accounted, OneAtATime, AtMostOnce, EverPosted, EverMarked, EverBegan, Tidy, RowsFit, Backed, PhasesFit;
      BegunFits(s, id, key, now);
      BegunRows(s, id, key, now);
    } else {
      RefusedKeeps(s, t);
    }
  }

  /** An ID that was never issued appears in no row and in no event. */
  lemma NothingBefore(s: State, id: string)
    requires Tidy(s) && id !in s.issued
    ensures id !in s.table.rows && id !in s.workers
    ensures !EverBegan(s.log, id) && !EverPosted(s.log, id) && !EverMarked(s.log, id)
  {
  }

  lemma RefusedKeeps(s: State, t: State)
    requires Inv(s) && t.table == s.table && t.log == s.log && t.workers == s.workers && s.issued <= t.issued
    ensures Inv(t)
  {
    SameAccounts(s, t);
    SameRows(s, t);
    hide Accounted, OneAtATime, AtMostOnce, EverPosted, EverMarked, EverBegan, RowsFit;
  }

  lemma BegunFits(s: State, id: string, key: string, now: int)
    requires Tidy(s) && PhasesFit(s) && Backed(s) && id !in s.issued
    requires var t := Submitted(s, id, key, now); t.log == s.log + [Began(id, key, now)]
    ensures var t := Submitted(s, id, key, now); Tidy(t) && PhasesFit(t) && Backed(t)
  {
    var t, e := Submitted(s, id, key, now), Began(id, key, now);
    NothingBefore(s, id);
    hide EverPosted, EverMarked, EverBegan;
    forall x { EverAfter(s.log, e, x); }
    assert forall x :: x in t.log <==> x in s.log || x == e;
  }

  lemma BegunRows(s: State, id: string, key: string, now: int)
    requires Tidy(s) && RowsFit(s) && id !in s.issued
    requires var t := Submitted(s, id, key, now); t.log == s.log + [Began(id, key, now)]
    ensures RowsFit(Submitted(s, id, key, now))
  {
    var t, e := Submitted(s, id, key, now), Began(id, key, now);
    NothingBefore(s, id);
    hide EverPosted, EverMarked, EverBegan;
    forall x { EverAfter(s.log, e, x); }
    assert forall x :: x in t.log <==> x in s.log || x == e;
  }

  /** An event that touches no row: a search done, an apology, a loss. */
  predicate Quiet(e: Event) {
    e.Searched? || e.Apologised? || e.Lost?
  }

  ghost predicate QuietStep(s: State, t: State, e: Event) {
    && Quiet(e) && e.id in s.issued
    && t == s.(workers := t.workers, log := s.log + [e]) && t.workers.Keys <= s.workers.Keys
    && forall id | id in t.workers ::
         t.workers[id] == s.workers[id] || (s.workers[id] == Searching && t.workers[id] in {Answering, Failing})
  }

  lemma QuietKeeps(s: State, t: State, e: Event)
    requires Inv(s) && QuietStep(s, t, e)
    ensures Inv(t)
  {
    OnceAfter(s.log, e);
    AccountsAfter(s, t, e);
    hide Accounted, OneAtATime, AtMostOnce, EverPosted, EverMarked, EverBegan, Tidy, RowsFit, Backed, PhasesFit;
    QuietTidy(s, t, e);
    QuietPhases(s, t, e);
    QuietRows(s, t, e);
  }

  lemma QuietTidy(s: State, t: State, e: Event)
    requires Tidy(s) && Backed(s) && QuietStep(s, t, e)
    ensures Tidy(t) && Backed(t)
  {
    hide EverPosted, EverMarked, EverBegan;
    forall x { EverAfter(s.log, e, x); }
    assert forall x :: x in t.log <==> x in s.log || x == e;
  }

  lemma QuietPhases(s: State, t: State, e: Event)
    requires PhasesFit(s) && QuietStep(s, t, e)
    ensures PhasesFit(t)
  {
    hide EverPosted, EverMarked, EverBegan;
    forall x { EverAfter(s.log, e, x); }
    assert forall x :: x in t.log <==> x in s.log || x == e;
    forall id | id in t.workers
      ensures PhaseFits(t, id)
    {
      assert PhaseFits(s, id);
    }
  }

  lemma QuietRows(s: State, t: State, e: Event)
    requires RowsFit(s) && QuietStep(s, t, e)
    ensures RowsFit(t)
  {
    hide EverPosted, EverMarked, EverBegan;
    forall x { EverAfter(s.log, e, x); }
    assert forall x :: x in t.log <==> x in s.log || x == e;
  }

  lemma IssuedWorkers(s: State, id: string)
    requires Inv(s) && id in s.workers
    ensures id in s.issued
  {
  }

  lemma SameAccounts(s: State, t: State)
    requires Accounted(s) && t.log == s.log && t.table.rows == s.table.rows
    ensures Accounted(t)
  {
  }

  lemma SameRows(s: State, t: State)
    requires RowsFit(s) && t.log == s.log && t.table.rows == s.table.rows
    ensures RowsFit(t)
  {
  }

  /** A posted message leaves the table alone. */
  ghost function AfterPost(s: State, id: string, ok: bool): State {
    s.(workers := s.workers[id := if ok then Confirming else Recording], log := s.log + [Posted(id, ok)])
  }

  lemma PostKeeps(s: State, id: string, ok: bool)
    requires Inv(s) && id in s.workers && s.workers[id] == Answering
    ensures Inv(AfterPost(s, id, ok))
  {
    assert PhaseFits(s, id);
    OnceAfter(s.log, Posted(id, ok));
    AccountsAfter(s, AfterPost(s, id, ok), Posted(id, ok));
    hide Accounted, OneAtATime, AtMostOnce, EverPosted, EverMarked, EverBegan, Tidy, RowsFit, Backed;
    PostedFits(s, id, ok);
    PostedRows(s, id, ok);
  }

  lemma PostedFits(s: State, id: string, ok: bool)
    requires Tidy(s) && PhasesFit(s) && Backed(s) && id in s.workers && s.workers[id] == Answering
    ensures Tidy(AfterPost(s, id, ok)) && PhasesFit(AfterPost(s, id, ok)) && Backed(AfterPost(s, id, ok))
  {
    hide EverPosted, EverMarked, EverBegan, Tidy, Backed, PhasesFit;
    PostedTidy(s, id, ok);
    PostedPhases(s, id, ok);
  }

  lemma PostedTidy(s: State, id: string, ok: bool)
    requires Tidy(s) && Backed(s) && id in s.workers
    ensures Tidy(AfterPost(s, id, ok)) && Backed(AfterPost(s, id, ok))
  {
    hide EverPosted, EverMarked, EverBegan;
    var t, e := AfterPost(s, id, ok), Posted(id, ok);
    forall x { EverAfter(s.log, e, x); }
    assert forall x :: x in t.log <==> x in s.log || x == e;
  }

  lemma PostedPhases(s: State, id: string, ok: bool)
    requires PhasesFit(s) && id in s.workers && s.workers[id] == Answering
    ensures PhasesFit(AfterPost(s, id, ok))
  {
    hide EverPosted, EverMarked, EverBegan;
    var t, e := AfterPost(s, id, ok), Posted(id, ok);
    assert PhaseFits(s, id);
    forall x { EverAfter(s.log, e, x); }
    assert forall x :: x in t.log <==> x in s.log || x == e;
  }

  lemma PostedRows(s: State, id: string, ok: bool)
    requires RowsFit(s)
    ensures RowsFit(AfterPost(s, id, ok))
  {
    var t, e := AfterPost(s, id, ok), Posted(id, ok);
    hide EverPosted, EverMarked, EverBegan;
    forall x { EverAfter(s.log, e, x); }
    assert forall x :: x in t.log <==> x in s.log || x == e;
  }

  /** A mark, whether or not it changes a row; next is None when the worker ends there. */
  ghost function AfterMark(s: State, id: string, status: Status, now: int, next: Option<Phase>): State {
    MarkedBy(s, id, status, now).(workers := if next.Some? then s.workers[id := next.value] else s.workers - {id})
  }

  lemma MarkKeeps(s: State, id: string, status: Status, now: int, next: Option<Phase>)
    requires Inv(s) && id in s.workers && !EverMarked(s.log, id)
    requires status == Failed || (status == Delivered && Posted(id, true) in s.log)
    requires next.None? || (next.value == Apologising && !EverPosted(s.log, id))
    ensures Inv(AfterMark(s, id, status, now, next))
  {
    var t := AfterMark(s, id, status, now, next);
    if t.log == s.log {
      UnmarkedKeeps(s, t, id, next);
    } else {
      var e := Marked(id, status);
      OnceAfter(s.log, e);
      AccountsAfter(s, t, e);
      MarkedFits(s, id, status, now, next);
    }
  }

  lemma UnmarkedKeeps(s: State, t: State, id: string, next: Option<Phase>)
    requires Inv(s) && id in s.workers
    requires t == s.(workers := if next.Some? then s.workers[id := next.value] else s.workers - {id})
    requires next.None? || (next.value == Apologising && !EverPosted(s.log, id))
    ensures Inv(t)
  {
    SameAccounts(s, t);
    SameRows(s, t);
    UnmarkedFits(s, t, id, next);
    hide Accounted, OneAtATime, AtMostOnce, EverPosted, EverMarked, EverBegan, RowsFit, Tidy, PhasesFit, Backed;
  }

  lemma UnmarkedFits(s: State, t: State, id: string, next: Option<Phase>)
    requires Tidy(s) && PhasesFit(s) && Backed(s) && id in s.workers
    requires t == s.(workers := if next.Some? then s.workers[id := next.value] else s.workers - {id})
    requires next.None? || (next.value == Apologising && !EverPosted(s.log, id))
    ensures Tidy(t) && PhasesFit(t) && Backed(t)
  {
    hide EverPosted, EverMarked, EverBegan;
  }

  lemma MarkedFits(s: State, id: string, status: Status, now: int, next: Option<Phase>)
    requires Tidy(s) && PhasesFit(s) && RowsFit(s) && Backed(s) && id in s.workers && !EverMarked(s.log, id)
    requires status == Failed || (status == Delivered && Posted(id, true) in s.log)
    requires next.None? || (next.value == Apologising && !EverPosted(s.log, id))
    requires AfterMark(s, id, status, now, next).log == s.log + [Marked(id, status)]
    ensures var t := AfterMark(s, id, status, now, next); Tidy(t) && PhasesFit(t) && RowsFit(t) && Backed(t)
  {
    MarkedPhases(s, id, status, now, next);
    MarkedRows(s, id, status, now, next);
    hide Tidy, PhasesFit, RowsFit, Backed, AfterMark;
  }

  lemma MarkedPhases(s: State, id: string, status: Status, now: int, next: Option<Phase>)
    requires Tidy(s) && PhasesFit(s) && Backed(s) && id in s.workers
    requires next.None? || (next.value == Apologising && !EverPosted(s.log, id))
    requires AfterMark(s, id, status, now, next).log == s.log + [Marked(id, status)]
    ensures var t := AfterMark(s, id, status, now, next); Tidy(t) && PhasesFit(t) && Backed(t)
  {
    var t, e := AfterMark(s, id, status, now, next), Marked(id, status);
    hide EverPosted, EverMarked, EverBegan;
    forall x { EverAfter(s.log, e, x); }
    assert forall x :: x in t.log <==> x in s.log || x == e;
    assert forall x | x in t.table.rows :: x in s.table.rows && t.table.rows[x].sourceEventKey == s.table.rows[x].sourceEventKey;
  }

  lemma MarkedRows(s: State, id: string, status: Status, now: int, next: Option<Phase>)
    requires RowsFit(s) && id in s.workers && !EverMarked(s.log, id)
    requires status == Failed || (status == Delivered && Posted(id, true) in s.log)
    requires AfterMark(s, id, status, now, next).log == s.log + [Marked(id, status)]
    ensures RowsFit(AfterMark(s, id, status, now, next))
  {
    var t, e := AfterMark(s, id, status, now, next), Marked(id, status);
    hide EverPosted, EverMarked, EverBegan;
    forall x { EverAfter(s.log, e, x); }
    assert forall x :: x in t.log <==> x in s.log || x == e;
    assert forall x :: x in t.table.rows <==> x in s.table.rows;
    assert t.table.rows[id].status == status;
    assert forall x | x in s.table.rows && x != id :: t.table.rows[x] == s.table.rows[x];
  }

  lemma SweepKeeps(s: State, now: int)
    requires Inv(s)
    ensures Inv(Swept(s, now))
  {
    var t := Swept(s, now);
    if t.log != s.log {
      var e := Purged(s.table.rows.Keys - t.table.rows.Keys, now);
      OnceAfter(s.log, e);
      AccountsAfter(s, t, e);
      hide Accounted, OneAtATime, AtMostOnce, EverPosted, EverMarked, EverBegan, Tidy, RowsFit, Backed, PhasesFit;
      SweptFits(s, t, e);
      SweptRows(s, t, e);
    }
  }

  lemma SweptFits(s: State, t: State, e: Event)
    requires Tidy(s) && PhasesFit(s) && Backed(s) && e.Purged? && t.log == s.log + [e]
    requires t.workers == s.workers && t.issued == s.issued
    requires forall id | id in t.table.rows :: id in s.table.rows && t.table.rows[id] == s.table.rows[id]
    ensures Tidy(t) && PhasesFit(t) && Backed(t)
  {
    hide EverPosted, EverMarked, EverBegan;
    forall x { EverAfter(s.log, e, x); }
    assert forall x :: x in t.log <==> x in s.log || x == e;
  }

  lemma SweptRows(s: State, t: State, e: Event)
    requires RowsFit(s) && e.Purged? && t.log == s.log + [e]
    requires forall id | id in t.table.rows :: id in s.table.rows && t.table.rows[id] == s.table.rows[id]
    ensures RowsFit(t)
  {
    hide EverPosted, EverMarked, EverBegan;
    forall x { EverAfter(s.log, e, x); }
    assert forall x :: x in t.log <==> x in s.log || x == e;
  }

  lemma ShutdownKeeps(s: State)
    requires Inv(s)
    ensures Inv(s.(table := s.table.(closed := true)))
  {
    var t := s.(table := s.table.(closed := true));
    SameAccounts(s, t);
    SameRows(s, t);
    hide Accounted, OneAtATime, AtMostOnce, EverPosted, EverMarked, EverBegan, RowsFit;
  }

  lemma WorkKeeps(s: State, id: string, ok: bool, now: int)
    requires Inv(s) && id in s.workers
    ensures Inv(Worked(s, id, ok, now))
  {
    assert PhaseFits(s, id);
    hide Inv, EverPosted, EverMarked;
    IssuedWorkers(s, id);
    match s.workers[id]
    case Searching => QuietKeeps(s, Worked(s, id, ok, now), Searched(id, ok));
    case Failing => MarkKeeps(s, id, Failed, now, Some(Apologising));
    case Apologising => QuietKeeps(s, Worked(s, id, ok, now), Apologised(id));
    case Answering => PostKeeps(s, id, ok);
    case Confirming => MarkKeeps(s, id, Delivered, now, None);
    case Recording => MarkKeeps(s, id, Failed, now, None);
  }

  lemma StepKeeps(s: State, a: Action)
    requires Inv(s) && Fresh(s, a)
    ensures Inv(Next(s, a))
  {
    hide Inv;
    match a
    case Submit(id, key, now) => SubmitKeeps(s, id, key, now);
    case Work(id, ok, now) => if id in s.workers { WorkKeeps(s, id, ok, now); }
    case Sweep(now) => SweepKeeps(s, now);
    case Lose(id) =>
      if id in s.workers {
        IssuedWorkers(s, id);
        QuietKeeps(s, Next(s, a), Lost(id));
      }
    case Shutdown => ShutdownKeeps(s);
  }

  lemma StartInv()
    ensures Inv(Start)
  {
  }

  lemma AdmissiblePrefix(actions: seq<Action>)
    requires Admissible(actions) && actions != []
    ensures Admissible(actions[..|actions| - 1])
    ensures Fresh(Run(actions[..|actions| - 1]), actions[|actions| - 1])
  {
    hide Run, Fresh;
    assert forall i | 0 <= i < |actions| - 1 :: actions[..|actions| - 1][..i] == actions[..i];
  }

  /** Every interleaving reaches only states that satisfy the invariant. */
  lemma {:induction false} AlwaysInv(actions: seq<Action>)
    requires Admissible(actions)
    ensures Inv(Run(actions))
  {
    hide Inv, Next, Fresh, Admissible;
    if actions == [] {
      StartInv();
    } else {
      AdmissiblePrefix(actions);
      AlwaysInv(actions[..|actions| - 1]);
      StepKeeps(Run(actions[..|actions| - 1]), actions[|actions| - 1]);
    }
  }

  // ---------- what the user of the chat sees ----------

  /**
   In every reachable state a request has at most one candidate message and one final
   status; and two searches begun for one view, in particular two that both have a worker
   or a message, are separated by a purge of the first, whose lifetime was then over.
   */
  lemma OneAnswerPerView(actions: seq<Action>)
    requires Admissible(actions)
    ensures var log := Run(actions).log;
            && (forall i, j | 0 <= i < j < |log| && log[i].Posted? && log[j].Posted? :: log[i].id != log[j].id)
            && (forall i, j | 0 <= i < j < |log| && log[i].Marked? && log[j].Marked? :: log[i].id != log[j].id)
            && (forall i, j | 0 <= i < j < |log| && log[i].Began? && log[j].Began? && log[i].key == log[j].key ::
                  exists m :: i < m < j && log[m].Purged? && log[i].id in log[m].ids
                              && log[i].beganAt + LIFETIME <= log[m].purgedAt)
  {
    AlwaysInv(actions);
    var log := Run(actions).log;
    hide Run;
    forall i, j | 0 <= i < j < |log| && log[i].Began? && log[j].Began? && log[i].key == log[j].key
      ensures exists m :: i < m < j && log[m].Purged? && log[i].id in log[m].ids
                          && log[i].beganAt + LIFETIME <= log[m].purgedAt
    {
      assert PurgedBetween(log, i, j);
      var m :| i < m < j && PurgedBy(log[i], log[m]);
    }
  }

  /**
   So a view submitted again within the lifetime begins no second search, whatever happens
   in between, unless a purge before it read a clock that is ahead of the submission's.
   */
  lemma NoSecondSearchWithinLifetime(actions: seq<Action>, i: nat, j: nat)
    requires Admissible(actions)
    requires var log := Run(actions).log;
             i < j < |log| && log[i].Began? && log[j].Began? && log[i].key == log[j].key
    requires var log := Run(actions).log;
             forall m | 0 <= m < j && log[m].Purged? :: log[m].purgedAt <= log[j].beganAt
    ensures Run(actions).log[i].beganAt + LIFETIME <= Run(actions).log[j].beganAt
  {
    OneAnswerPerView(actions);
    hide Run, Admissible;
  }

  /** The search `older` of a view was purged before `newer` was begun for it. */
  ghost predicate Superseded(log: seq<Event>, older: string, newer: string, key: string) {
    exists i, m, j :: 0 <= i < m < j < |log| && Supersedes(log[i], log[m], log[j], older, newer, key)
  }

  ghost predicate Supersedes(first: Event, purge: Event, second: Event, older: string, newer: string, key: string) {
    && first.Began? && first.id == older && first.key == key && PurgedBy(first, purge)
    && second.Began? && second.id == newer && second.key == key
  }

  ghost predicate BeganFor(log: seq<Event>, id: string, key: string) {
    exists i :: 0 <= i < |log| && log[i].Began? && log[i].id == id && log[i].key == key
  }

  /** Two live workers of one view coexist only when the older one's request was purged before the newer one began. */
  lemma OneWorkerPerView(actions: seq<Action>, a: string, b: string, key: string)
    requires Admissible(actions) && a != b
    requires var s := Run(actions); a in s.workers && b in s.workers && BeganFor(s.log, a, key) && BeganFor(s.log, b, key)
    ensures Superseded(Run(actions).log, a, b, key) || Superseded(Run(actions).log, b, a, key)
  {
    hide Run, Admissible, OneAtATime, Superseded;
    ViewsOneAtATime(actions);
    var log := Run(actions).log;
    var i :| 0 <= i < |log| && log[i].Began? && log[i].id == a && log[i].key == key;
    var j :| 0 <= j < |log| && log[j].Began? && log[j].id == b && log[j].key == key;
    if i < j { OlderSuperseded(log, i, j, key); } else { OlderSuperseded(log, j, i, key); }
  }

  lemma ViewsOneAtATime(actions: seq<Action>)
    requires Admissible(actions)
    ensures OneAtATime(Run(actions).log)
  {
    AlwaysInv(actions);
    hide Run, Admissible, OneAtATime;
  }

  lemma OlderSuperseded(log: seq<Event>, i: nat, j: nat, key: string)
    requires OneAtATime(log) && i < j < |log| && log[i].Began? && log[j].Began? && log[i].key == log[j].key == key
    ensures Superseded(log, log[i].id, log[j].id, key)
  {
    assert PurgedBetween(log, i, j);
    var m :| i < m < j && PurgedBy(log[i], log[m]);
    assert Supersedes(log[i], log[m], log[j], log[i].id, log[j].id, key);
  }

  /** A row marked delivered had its candidate message accepted by Slack; a failed one never counts as delivered. */
  lemma DeliveredWasPosted(actions: seq<Action>, id: string)
    requires Admissible(actions) && id in Run(actions).table.rows
    ensures Run(actions).table.rows[id].status == Delivered ==> Posted(id, true) in Run(actions).log
    ensures Run(actions).table.rows[id].status != Generating <==> EverMarked(Run(actions).log, id)
  {
    AlwaysInv(actions);
  }

  /** A status leaves `generating` once and is then final for as long as the row is stored. */
  lemma StatusIsFinal(actions: seq<Action>, a: Action, id: string)
    requires Admissible(actions + [a])
    requires id in Run(actions).table.rows && Run(actions).table.rows[id].status != Generating
    requires id in Run(actions + [a]).table.rows
    ensures Run(actions + [a]).table.rows[id].status == Run(actions).table.rows[id].status
  {
    var all, n := actions + [a], |actions|;
    assert all[..n] == actions;
    assert Fresh(Run(all[..n]), all[n]);
    assert forall i | 0 <= i < n :: all[..i] == actions[..i] && all[i] == actions[i];
    AlwaysInv(actions);
    FinalInStep(Run(actions), a, id);
  }

  lemma FinalInStep(s: State, a: Action, id: string)
    requires Tidy(s) && Fresh(s, a) && id in s.table.rows && s.table.rows[id].status != Generating
    requires id in Next(s, a).table.rows
    ensures Next(s, a).table.rows[id].status == s.table.rows[id].status
  {
  }
}
