/**
 What becomes of a Slack search (internal/chatbot/slack_interactive.go:176-214), over every
 interleaving: candidates are posted only after a search that succeeded, an apology only
 after one that failed, and a worker that was not lost ends with exactly one of the two.
 */
module SlackOutcome {
  import opened Wrappers
  import opened SlackStore
  import opened SlackDelivery

  predicate Answered(log: seq<Event>, id: string) {
    Posted(id, true) in log || Posted(id, false) in log
  }

  /** The row, if it is still stored and the store is open, has left `generating`. */
  predicate Settled(s: State, id: string) {
    id in s.table.rows && !s.table.closed ==> s.table.rows[id].status != Generating
  }

  /** Where a live worker stands, told by what it has done. */
  ghost predicate Standing(s: State, id: string)
    requires id in s.workers
  {
    var found, missed := Searched(id, true) in s.log, Searched(id, false) in s.log;
    && !(Apologised(id) in s.log)
    && match s.workers[id]
       case Searching => !found && !missed && !Answered(s.log, id)
       case Answering => found && !missed && !Answered(s.log, id)
       case Failing => missed && !found && !Answered(s.log, id)
       case Apologising => missed && !found && !Answered(s.log, id) && Settled(s, id)
       case Confirming => found && !missed && Posted(id, true) in s.log && Posted(id, false) !in s.log
       case Recording => found && !missed && Posted(id, false) in s.log && Posted(id, true) !in s.log
  }

  ghost predicate WorkersStand(s: State) {
    forall id | id in s.workers :: Standing(s, id)
  }

  ghost predicate Ended(s: State, id: string) {
    EverBegan(s.log, id) && id !in s.workers && Lost(id) !in s.log
  }

  /** One search, one outcome: what follows from which result. */
  ghost predicate OutcomeFits(log: seq<Event>, id: string) {
    && !(Searched(id, true) in log && Searched(id, false) in log)
    && !(Posted(id, true) in log && Posted(id, false) in log)
    && (Answered(log, id) ==> Searched(id, true) in log)
    && (Apologised(id) in log ==> Searched(id, false) in log)
  }

  ghost predicate LogFits(log: seq<Event>) {
    forall id :: OutcomeFits(log, id)
  }

  ghost predicate EndsWell(s: State, id: string) {
    Ended(s, id) ==> (Answered(s.log, id) || Apologised(id) in s.log) && Settled(s, id)
  }

  ghost predicate EndsFit(s: State) {
    forall id :: EndsWell(s, id)
  }

  /** What a final status means. */
  ghost predicate RowTells(s: State, id: string)
    requires id in s.table.rows
  {
    && (s.table.rows[id].status == Delivered ==> Posted(id, true) in s.log)
    && (s.table.rows[id].status == Failed ==> Searched(id, false) in s.log || Posted(id, false) in s.log)
  }

  ghost predicate RowsTell(s: State) {
    forall id | id in s.table.rows :: RowTells(s, id)
  }

  ghost predicate Outcomes(s: State) {
    WorkersStand(s) && LogFits(s.log) && EndsFit(s) && RowsTell(s)
  }

  // ---------- each step keeps it ----------

  /** The log says the same about x. */
  ghost predicate SameStory(log: seq<Event>, more: seq<Event>, x: string) {
    && (Searched(x, true) in more <==> Searched(x, true) in log) && (Searched(x, false) in more <==> Searched(x, false) in log)
    && (Posted(x, true) in more <==> Posted(x, true) in log) && (Posted(x, false) in more <==> Posted(x, false) in log)
    && (Apologised(x) in more <==> Apologised(x) in log) && (Lost(x) in more <==> Lost(x) in log)
    && (EverBegan(more, x) <==> EverBegan(log, x))
  }

  /** The step from s to t is none of x's business: at most its row has left the table. */
  ghost predicate Untouched(s: State, t: State, x: string) {
    && SameStory(s.log, t.log, x)
    && (x in t.workers <==> x in s.workers) && (x in t.workers ==> t.workers[x] == s.workers[x])
    && (x in t.table.rows ==> x in s.table.rows && t.table.rows[x].status == s.table.rows[x].status)
    && (s.table.closed ==> t.table.closed)
  }

  /** Everything that Outcomes says about one ID. */
  ghost predicate Tells(s: State, x: string) {
    && (x in s.workers ==> Standing(s, x)) && OutcomeFits(s.log, x) && EndsWell(s, x)
    && (x in s.table.rows ==> RowTells(s, x))
  }

  lemma OutcomesTell(s: State)
    ensures Outcomes(s) <==> forall x :: Tells(s, x)
  {
    hide Standing, OutcomeFits, EndsWell, RowTells;
    if forall x :: Tells(s, x) {
      forall x | x in s.workers ensures Standing(s, x) { assert Tells(s, x); }
      forall x ensures OutcomeFits(s.log, x) && EndsWell(s, x) { assert Tells(s, x); }
      forall x | x in s.table.rows ensures RowTells(s, x) { assert Tells(s, x); }
    }
  }

  lemma UntouchedTells(s: State, t: State, x: string)
    requires Tells(s, x) && Untouched(s, t, x)
    ensures Tells(t, x)
  {
    hide EverBegan;
  }

  /** So a step that touches one ID only has to get that one right. */
  lemma Framed(s: State, t: State, id: string)
    requires Outcomes(s) && (forall x | x != id :: Untouched(s, t, x)) && Tells(t, id)
    ensures Outcomes(t)
  {
    OutcomesTell(s);
    OutcomesTell(t);
    hide Outcomes, Tells, Untouched;
    forall x
      ensures Tells(t, x)
    {
      if x != id { UntouchedTells(s, t, x); }
    }
  }

  lemma SameStoryAfter(log: seq<Event>, e: Event, x: string)
    requires e.Purged? || e.id != x
    ensures SameStory(log, log + [e], x)
  {
    EverAfter(log, e, x);
    hide EverBegan, EverPosted, EverMarked;
    assert forall y :: y in log + [e] <==> y in log || y == e;
  }

  lemma MembersAfter(log: seq<Event>, e: Event)
    ensures forall x :: x in log + [e] <==> x in log || x == e
  {
  }

  /** Nothing about an ID that was never issued. */
  lemma NoTrace(s: State, id: string)
    requires Tidy(s) && id !in s.issued
    ensures id !in s.table.rows && id !in s.workers
    ensures forall e | e in s.log && !e.Purged? :: e.id != id
  {
  }

  lemma BegunTells(s: State, id: string, key: string, now: int)
    requires Tidy(s) && id !in s.issued && Submitted(s, id, key, now).log != s.log
    ensures Tells(Submitted(s, id, key, now), id)
  {
    NoTrace(s, id);
    hide Tidy, EverBegan, HasSource;
    MembersAfter(s.log, Began(id, key, now));
  }

  lemma BegunElsewhere(s: State, id: string, key: string, now: int, x: string)
    requires x != id && Submitted(s, id, key, now).log != s.log
    ensures Untouched(s, Submitted(s, id, key, now), x)
  {
    hide SameStory, HasSource;
    SameStoryAfter(s.log, Began(id, key, now), x);
  }

  lemma SubmitOutcomes(s: State, id: string, key: string, now: int)
    requires Inv(s) && Outcomes(s) && id !in s.issued
    ensures Outcomes(Submitted(s, id, key, now))
  {
    hide Outcomes, Tells, Untouched, Tidy, AtMostOnce, PhasesFit, RowsFit, Accounted, OneAtATime, Backed, HasSource;
    var t := Submitted(s, id, key, now);
    if t.log != s.log {
      forall x | x != id { BegunElsewhere(s, id, key, now, x); }
      BegunTells(s, id, key, now);
      Framed(s, t, id);
    } else {
      SameOutcomes(s, t);
    }
  }

  /** Only the set of issued IDs, or the open flag, has changed. */
  lemma SameOutcomes(s: State, t: State)
    requires Outcomes(s) && t.log == s.log && t.workers == s.workers && t.table.rows == s.table.rows
    requires s.table.closed ==> t.table.closed
    ensures Outcomes(t)
  {
    OutcomesTell(s);
    OutcomesTell(t);
    hide Outcomes, Tells, EverBegan;
    forall x
      ensures Tells(t, x)
    {
      UntouchedTells(s, t, x);
    }
  }

  /** A step of one worker that leaves the table alone and logs one event of its own. */
  lemma OwnStep(s: State, t: State, e: Event, id: string)
    requires Outcomes(s) && t.table == s.table && t.log == s.log + [e] && !e.Began? && !e.Purged? && e.id == id
    requires id in s.workers && (t.workers == s.workers - {id} || (id in t.workers && t.workers == s.workers[id := t.workers[id]]))
    requires Tells(t, id)
    ensures Outcomes(t)
  {
    hide Outcomes, Tells, SameStory;
    forall x | x != id
      ensures Untouched(s, t, x)
    {
      SameStoryAfter(s.log, e, x);
    }
    Framed(s, t, id);
  }

  /** A mark by the worker of `id`: at most that one row changes, to what the log already tells. */
  lemma MarkOutcomes(s: State, id: string, status: Status, now: int, next: Option<Phase>)
    requires Outcomes(s) && id in s.workers
    requires status == Failed || status == Delivered
    requires status == Delivered ==> Posted(id, true) in s.log
    requires status == Failed ==> Searched(id, false) in s.log || Posted(id, false) in s.log
    requires if next.Some? then next.value == Apologising && s.workers[id] == Failing
             else s.workers[id] in {Confirming, Recording}
    ensures Outcomes(AfterMark(s, id, status, now, next))
  {
    hide Outcomes, Tells, Untouched;
    OutcomesTell(s);
    assert Tells(s, id);
    MarkedTells(s, id, status, now, next);
    forall x | x != id { MarkedElsewhere(s, id, status, now, next, x); }
    Framed(s, AfterMark(s, id, status, now, next), id);
  }

  lemma MarkedElsewhere(s: State, id: string, status: Status, now: int, next: Option<Phase>, x: string)
    requires x != id
    ensures Untouched(s, AfterMark(s, id, status, now, next), x)
  {
    hide SameStory;
    SameStorySame(s.log, x);
    SameStoryAfter(s.log, Marked(id, status), x);
  }

  lemma SameStorySame(log: seq<Event>, x: string)
    ensures SameStory(log, log, x)
  {
  }

  lemma MarkedTells(s: State, id: string, status: Status, now: int, next: Option<Phase>)
    requires Tells(s, id) && id in s.workers
    requires status == Failed || status == Delivered
    requires status == Delivered ==> Posted(id, true) in s.log
    requires status == Failed ==> Searched(id, false) in s.log || Posted(id, false) in s.log
    requires if next.Some? then next.value == Apologising && s.workers[id] == Failing
             else s.workers[id] in {Confirming, Recording}
    ensures Tells(AfterMark(s, id, status, now, next), id)
  {
    hide EverBegan;
    if AfterMark(s, id, status, now, next).log != s.log { MembersAfter(s.log, Marked(id, status)); }
  }

  lemma SweepOutcomes(s: State, now: int)
    requires Outcomes(s)
    ensures Outcomes(Swept(s, now))
  {
    var t := Swept(s, now);
    if t.log != s.log {
      OutcomesTell(s);
      OutcomesTell(t);
      hide Outcomes, Tells, SameStory;
      forall x
        ensures Tells(t, x)
      {
        SameStoryAfter(s.log, Purged(s.table.rows.Keys - t.table.rows.Keys, now), x);
        UntouchedTells(s, t, x);
      }
    }
  }

  lemma SearchDone(s: State, id: string, ok: bool, now: int)
    requires Tells(s, id) && id in s.workers && s.workers[id] == Searching
    ensures Tells(Worked(s, id, ok, now), id)
  {
    hide EverBegan;
    MembersAfter(s.log, Searched(id, ok));
  }

  lemma PostDone(s: State, id: string, ok: bool, now: int)
    requires Tells(s, id) && id in s.workers && s.workers[id] == Answering
    ensures Tells(Worked(s, id, ok, now), id)
  {
    hide EverBegan;
    MembersAfter(s.log, Posted(id, ok));
  }

  lemma ApologyDone(s: State, id: string, ok: bool, now: int)
    requires Tells(s, id) && id in s.workers && s.workers[id] == Apologising
    ensures Tells(Worked(s, id, ok, now), id)
  {
    hide EverBegan;
    MembersAfter(s.log, Apologised(id));
  }

  lemma LossTells(s: State, id: string)
    requires Tells(s, id) && id in s.workers
    ensures Tells(Next(s, Lose(id)), id)
  {
    hide EverBegan;
    MembersAfter(s.log, Lost(id));
  }

  lemma WorkOutcomes(s: State, id: string, ok: bool, now: int)
    requires Outcomes(s) && id in s.workers
    ensures Outcomes(Worked(s, id, ok, now))
  {
    OutcomesTell(s);
    assert Tells(s, id) && Standing(s, id);
    var t := Worked(s, id, ok, now);
    hide Outcomes, Tells;
    match s.workers[id]
    case Searching =>
      SearchDone(s, id, ok, now);
      OwnStep(s, t, Searched(id, ok), id);
    case Failing => MarkOutcomes(s, id, Failed, now, Some(Apologising));
    case Apologising =>
      ApologyDone(s, id, ok, now);
      OwnStep(s, t, Apologised(id), id);
    case Answering =>
      PostDone(s, id, ok, now);
      OwnStep(s, t, Posted(id, ok), id);
    case Confirming => MarkOutcomes(s, id, Delivered, now, None);
    case Recording => MarkOutcomes(s, id, Failed, now, None);
  }

  lemma LoseOutcomes(s: State, id: string)
    requires Outcomes(s) && id in s.workers
    ensures Outcomes(Next(s, Lose(id)))
  {
    OutcomesTell(s);
    assert Tells(s, id);
    hide Outcomes, Tells;
    LossTells(s, id);
    OwnStep(s, Next(s, Lose(id)), Lost(id), id);
  }

  lemma StepKeepsOutcomes(s: State, a: Action)
    requires Inv(s) && Outcomes(s) && Fresh(s, a)
    ensures Outcomes(Next(s, a))
  {
    hide Inv, Outcomes;
    match a
    case Submit(id, key, now) => SubmitOutcomes(s, id, key, now);
    case Work(id, ok, now) => if id in s.workers { WorkOutcomes(s, id, ok, now); }
    case Sweep(now) => SweepOutcomes(s, now);
    case Lose(id) => if id in s.workers { LoseOutcomes(s, id); }
    case Shutdown => SameOutcomes(s, Next(s, a));
  }

  lemma {:induction false} AlwaysOutcomes(actions: seq<Action>)
    requires Admissible(actions)
    ensures Outcomes(Run(actions))
  {
    hide Inv, Next, Fresh, Admissible;
    if actions != [] {
      hide Outcomes;
      AdmissiblePrefix(actions);
      AlwaysOutcomes(actions[..|actions| - 1]);
      AlwaysInv(actions[..|actions| - 1]);
      StepKeepsOutcomes(Run(actions[..|actions| - 1]), actions[|actions| - 1]);
    }
  }

  // ---------- what the user gets ----------

  /**
   In every run: candidates are posted only for a search that succeeded, an apology only for
   one that failed; a worker that ended without being lost has sent exactly one of the two,
   the candidates exactly if its search succeeded.
   */
  lemma EndedWithOneAnswer(actions: seq<Action>, id: string)
    requires Admissible(actions)
    ensures var s := Run(actions);
            && (Answered(s.log, id) ==> Searched(id, true) in s.log && Searched(id, false) !in s.log)
            && (Apologised(id) in s.log ==> Searched(id, false) in s.log && Searched(id, true) !in s.log)
            && (Ended(s, id) ==> && (Answered(s.log, id) <==> Searched(id, true) in s.log)
                                 && (Apologised(id) in s.log <==> Searched(id, true) !in s.log))
  {
    AlwaysOutcomes(actions);
    var s := Run(actions);
    hide Run, Admissible, Ended;
    assert OutcomeFits(s.log, id) && EndsWell(s, id);
  }

  /**
   When the worker has ended without being lost, the row is still stored and the store open,
   the status is `delivered` exactly if the search succeeded and the post was accepted.
   */
  lemma DeliveredIffPosted(actions: seq<Action>, id: string)
    requires Admissible(actions)
    requires var s := Run(actions); Ended(s, id) && id in s.table.rows && !s.table.closed
    ensures var s := Run(actions);
            && s.table.rows[id].status != Generating
            && (s.table.rows[id].status == Delivered <==> Searched(id, true) in s.log && Posted(id, true) in s.log)
            && (s.table.rows[id].status == Failed <==> Searched(id, false) in s.log || Posted(id, false) in s.log)
  {
    AlwaysOutcomes(actions);
    var s := Run(actions);
    hide Run, Admissible, Ended;
    assert OutcomeFits(s.log, id) && EndsWell(s, id) && RowTells(s, id);
  }

  /** Each event that answers comes after the one that justifies it. */
  ghost predicate InOrder(log: seq<Event>) {
    forall j | 0 <= j < |log| ::
      && (log[j].Searched? ==> EverBegan(log[..j], log[j].id))
      && (log[j].Posted? ==> Searched(log[j].id, true) in log[..j])
      && (log[j].Apologised? ==> Searched(log[j].id, false) in log[..j])
      && (log[j].Marked? && log[j].status == Delivered ==> Posted(log[j].id, true) in log[..j])
  }

  lemma OrderAfter(log: seq<Event>, e: Event)
    requires InOrder(log)
    requires e.Searched? ==> EverBegan(log, e.id)
    requires e.Posted? ==> Searched(e.id, true) in log
    requires e.Apologised? ==> Searched(e.id, false) in log
    requires e.Marked? && e.status == Delivered ==> Posted(e.id, true) in log
    ensures InOrder(log + [e])
  {
    hide EverBegan;
    assert (log + [e])[..|log|] == log;
    assert forall j | 0 <= j < |log| :: (log + [e])[j] == log[j] && (log + [e])[..j] == log[..j];
  }

  lemma StepInOrder(s: State, a: Action)
    requires Inv(s) && Outcomes(s) && InOrder(s.log)
    ensures InOrder(Next(s, a).log)
  {
    if a.Work? && a.id in s.workers {
      assert Standing(s, a.id) && EverBegan(s.log, a.id);
      hide Inv, Outcomes;
      WorkInOrder(s, a.id, a.ok, a.now);
    } else {
      hide Inv, Outcomes, InOrder;
      OtherInOrder(s, a);
    }
  }

  lemma WorkInOrder(s: State, id: string, ok: bool, now: int)
    requires InOrder(s.log) && id in s.workers && Standing(s, id) && EverBegan(s.log, id)
    ensures InOrder(Worked(s, id, ok, now).log)
  {
    hide InOrder, EverBegan;
    match s.workers[id]
    case Searching => OrderAfter(s.log, Searched(id, ok));
    case Failing => OrderAfter(s.log, Marked(id, Failed));
    case Apologising => OrderAfter(s.log, Apologised(id));
    case Answering => OrderAfter(s.log, Posted(id, ok));
    case Confirming => OrderAfter(s.log, Marked(id, Delivered));
    case Recording => OrderAfter(s.log, Marked(id, Failed));
  }

  lemma OtherInOrder(s: State, a: Action)
    requires InOrder(s.log) && (a.Work? ==> a.id !in s.workers)
    ensures InOrder(Next(s, a).log)
  {
    hide InOrder, HasSource;
    match a
    case Submit(id, key, now) => OrderAfter(s.log, Began(id, key, now));
    case Work(id, ok, now) =>
    case Sweep(now) => OrderAfter(s.log, Purged(s.table.rows.Keys - Swept(s, now).table.rows.Keys, now));
    case Lose(id) => OrderAfter(s.log, Lost(id));
    case Shutdown =>
  }

  /** In every run the search comes after its begin, the answer after the search, the delivered mark after the post. */
  lemma {:induction false} AlwaysInOrder(actions: seq<Action>)
    requires Admissible(actions)
    ensures InOrder(Run(actions).log)
  {
    hide Inv, Next, Fresh, Admissible, Outcomes;
    if actions != [] {
      hide InOrder;
      AdmissiblePrefix(actions);
      AlwaysInOrder(actions[..|actions| - 1]);
      AlwaysInv(actions[..|actions| - 1]);
      AlwaysOutcomes(actions[..|actions| - 1]);
      StepInOrder(Run(actions[..|actions| - 1]), actions[|actions| - 1]);
    }
  }

  // ---------- a search that nothing disturbs ----------

  ghost function Steps(s: State, actions: seq<Action>): State {
    if actions == [] then s else Next(Steps(s, actions[..|actions| - 1]), actions[|actions| - 1])
  }

  lemma StepsSnoc(s: State, actions: seq<Action>, a: Action)
    ensures Steps(s, actions + [a]) == Next(Steps(s, actions), a)
  {
    hide Next;
    assert (actions + [a])[..|actions|] == actions;
  }

  lemma FourSteps(s: State, a: Action, b: Action, c: Action, d: Action)
    ensures Steps(s, [a, b, c, d]) == Next(Next(Next(Next(s, a), b), c), d)
  {
    hide Next;
    assert Steps(s, []) == s;
    StepsSnoc(s, [], a);
    StepsSnoc(s, [a], b);
    StepsSnoc(s, [a, b], c);
    StepsSnoc(s, [a, b, c], d);
    assert [] + [a] == [a] && [a] + [b] == [a, b] && [a, b] + [c] == [a, b, c] && [a, b, c] + [d] == [a, b, c, d];
  }

  /** A new view on an open store, undisturbed: found and accepted ends delivered; not found ends failed, with an apology. */
  lemma UndisturbedSearch(s: State, id: string, key: string, now: int, found: bool, accepted: bool)
    requires Inv(s) && id !in s.issued && !s.table.closed && !HasSource(s.table.rows, key)
    ensures var t := Steps(s, [Submit(id, key, now), Work(id, found, now), Work(id, accepted, now), Work(id, accepted, now)]);
            && id in t.table.rows && id !in t.workers
            && t.table.rows[id].status == (if found && accepted then Delivered else Failed)
            && t.log == s.log + if found then [Began(id, key, now), Searched(id, true), Posted(id, accepted),
                                               Marked(id, if accepted then Delivered else Failed)]
                                else [Began(id, key, now), Searched(id, false), Marked(id, Failed), Apologised(id)]
  {
    NothingBefore(s, id);
    hide Inv, HasSource;
    FourSteps(s, Submit(id, key, now), Work(id, found, now), Work(id, accepted, now), Work(id, accepted, now));
    var s1 := Next(s, Submit(id, key, now));
    assert s1.log == s.log + [Began(id, key, now)] && s1.workers == s.workers[id := Searching];
    var s2 := Next(s1, Work(id, found, now));
    assert s2.log == s1.log + [Searched(id, found)];
  }
}
