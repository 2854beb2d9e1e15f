/**
 The Slack request store: the in-memory one (internal/chatbot/slack_store.go) and the table
 behind the PostgreSQL one (internal/chatbot/slack_store_postgres.go,
 db/migrations/0002-slack-recommendation-requests.sql). Times are UTC instants.
 */
module SlackStore {
  import opened Wrappers

  datatype Status = Generating | Delivered | Failed

  datatype Request = Request(
    requestId: string,
    sourceEventKey: string,
    status: Status,
    createdAt: int,
    updatedAt: int,
    expiresAt: int)

  /** What a call reports: nothing wrong, or the kind of error. */
  datatype Fault = NoFault | ContextDone | StoreClosed | NotFound | Conflict | DuplicateKey

  type Rows = map<string, Request>

  /** Two indexes over the same requests. */
  datatype Memory = Memory(requests: Rows, sources: map<string, string>, closed: bool)

  /** The rows by primary key. */
  datatype Table = Table(rows: Rows, closed: bool)

  predicate Expired(r: Request, at: int) {
    r.expiresAt <= at
  }

  function Unexpired(rows: Rows, at: int): Rows {
    map id | id in rows && !Expired(rows[id], at) :: rows[id]
  }

  predicate HasSource(rows: Rows, key: string) {
    exists id :: id in rows && rows[id].sourceEventKey == key
  }

  // ---------- the memory store as a value ----------

  function MemoryBegin(m: Memory, r: Request): (Memory, bool, Fault) {
    if m.closed then (m, false, StoreClosed)
    else if r.sourceEventKey in m.sources then (m, false, NoFault)
    else
      (m.(requests := m.requests[r.requestId := r.(status := Generating)],
          sources := m.sources[r.sourceEventKey := r.requestId]), true, NoFault)
  }

  function MemoryMark(m: Memory, id: string, status: Status, at: int): (Memory, Fault) {
    if m.closed then (m, StoreClosed)
    else if id !in m.requests then (m, NotFound)
    else if m.requests[id].status != Generating then (m, Conflict)
    else (m.(requests := m.requests[id := m.requests[id].(status := status, updatedAt := at)]), NoFault)
  }

  function MemoryPurge(m: Memory, at: int): (Memory, Fault) {
    if m.closed then (m, StoreClosed)
    else
      (m.(requests := Unexpired(m.requests, at),
          sources := map k | k in m.sources && !ExpiredSource(m.requests, k, at) :: m.sources[k]), NoFault)
  }

  predicate ExpiredSource(rows: Rows, key: string, at: int) {
    exists id :: id in rows && Expired(rows[id], at) && rows[id].sourceEventKey == key
  }

  // ---------- the memory store ----------

  class MemorySlackRequestStore {
    var requests: Rows
    var sources: map<string, string>
    var closed: bool

    function State(): Memory
      reads this
    {
      Memory(requests, sources, closed)
    }

    constructor ()
      ensures State() == Memory(map[], map[], false)
    {
      requests, sources, closed := map[], map[], false;
    }

    method Begin(cancelled: bool, request: Request) returns (created: bool, fault: Fault)
      modifies this
      ensures cancelled ==> !created && fault == ContextDone && State() == old(State())
      ensures !cancelled ==> (State(), created, fault) == old(MemoryBegin(State(), request))
    {
      if cancelled { return false, ContextDone; }
      if closed { return false, StoreClosed; }
      if request.sourceEventKey in sources { return false, NoFault; }
      requests := requests[request.requestId := request.(status := Generating)];
      sources := sources[request.sourceEventKey := request.requestId];
      return true, NoFault;
    }

    /** The look-up shared by the two marks. */
    method RequestForUpdate(requestId: string) returns (r: Option<Request>, fault: Fault)
      ensures r.Some? <==> fault == NoFault
      ensures fault == if closed then StoreClosed else if requestId !in requests then NotFound else NoFault
      ensures r.Some? ==> requestId in requests && r.value == requests[requestId]
    {
      if closed { return None, StoreClosed; }
      if requestId !in requests { return None, NotFound; }
      return Some(requests[requestId]), NoFault;
    }

    method MarkDelivered(cancelled: bool, requestId: string, at: int) returns (fault: Fault)
      modifies this
      ensures cancelled ==> fault == ContextDone && State() == old(State())
      ensures !cancelled ==> (State(), fault) == old(MemoryMark(State(), requestId, Delivered, at))
    {
      if cancelled { return ContextDone; }
      var request, problem := RequestForUpdate(requestId);
      if problem != NoFault { return problem; }
      if request.value.status != Generating { return Conflict; }
      requests := requests[requestId := request.value.(status := Delivered, updatedAt := at)];
      return NoFault;
    }

    method MarkFailed(cancelled: bool, requestId: string, at: int) returns (fault: Fault)
      modifies this
      ensures cancelled ==> fault == ContextDone && State() == old(State())
      ensures !cancelled ==> (State(), fault) == old(MemoryMark(State(), requestId, Failed, at))
    {
      if cancelled { return ContextDone; }
      var request, problem := RequestForUpdate(requestId);
      if problem != NoFault { return problem; }
      if request.value.status != Generating { return Conflict; }
      requests := requests[requestId := request.value.(status := Failed, updatedAt := at)];
      return NoFault;
    }

    /** The requests are visited in any order; expired ones leave both maps. */
    method PurgeExpired(cancelled: bool, at: int) returns (fault: Fault)
      modifies this
      ensures cancelled ==> fault == ContextDone && State() == old(State())
      ensures !cancelled ==> (State(), fault) == old(MemoryPurge(State(), at))
    {
      if cancelled { return ContextDone; }
      if closed { return StoreClosed; }
      ghost var rows, index := requests, sources;
      var left := requests.Keys;
      while left != {}
        invariant left <= rows.Keys && !closed
        invariant PurgedSoFar(rows, index, requests, sources, left, at)
        decreases |left|
      {
        var id :| id in left;
        var request := requests[id];
        PurgeOne(rows, index, requests, sources, left, id, at);
        left := left - {id};
        if Expired(request, at) {
          requests := requests - {id};
          sources := sources - {request.sourceEventKey};
        }
      }
      PurgeDone(rows, index, requests, sources, at);
      return NoFault;
    }

    method Close()
      modifies this
      ensures State() == old(State()).(closed := true)
    {
      closed := true;
    }
  }

  /** The two maps while the requests in `left` have not been visited yet. */
  ghost predicate PurgedSoFar(rows: Rows, index: map<string, string>, requests: Rows, sources: map<string, string>,
                              left: set<string>, at: int)
  {
    && requests == (map id | id in rows && (id in left || !Expired(rows[id], at)) :: rows[id])
    && sources == (map k | k in index
                           && !(exists id :: id in rows && id !in left && Expired(rows[id], at) && rows[id].sourceEventKey == k)
                         :: index[k])
  }

  lemma PurgeOne(rows: Rows, index: map<string, string>, requests: Rows, sources: map<string, string>,
                 left: set<string>, id: string, at: int)
    requires PurgedSoFar(rows, index, requests, sources, left, at) && id in left && id in rows
    ensures id in requests && requests[id] == rows[id]
    ensures if Expired(rows[id], at)
            then PurgedSoFar(rows, index, requests - {id}, sources - {rows[id].sourceEventKey}, left - {id}, at)
            else PurgedSoFar(rows, index, requests, sources, left - {id}, at)
  {
  }

  lemma PurgeDone(rows: Rows, index: map<string, string>, requests: Rows, sources: map<string, string>, at: int)
    requires PurgedSoFar(rows, index, requests, sources, {}, at)
    ensures requests == Unexpired(rows, at)
    ensures sources == map k | k in index && !ExpiredSource(rows, k, at) :: index[k]
  {
    forall k
      ensures k in sources <==> k in index && !ExpiredSource(rows, k, at)
    {
    }
  }

  // ---------- the table as a value ----------

  /** INSERT ... ON CONFLICT (source_event_key) DO NOTHING, under the primary key. */
  function TableBegin(t: Table, r: Request): (Table, bool, Fault) {
    if t.closed then (t, false, StoreClosed)
    else if HasSource(t.rows, r.sourceEventKey) then (t, false, NoFault)
    else if r.requestId in t.rows then (t, false, DuplicateKey)
    else (t.(rows := t.rows[r.requestId := r.(status := Generating)]), true, NoFault)
  }

  /** UPDATE ... WHERE request_id = id AND status = 'generating'; anything but one row is a conflict. */
  function TableMark(t: Table, id: string, status: Status, at: int): (Table, Fault) {
    if t.closed then (t, StoreClosed)
    else if id in t.rows && t.rows[id].status == Generating
    then (t.(rows := t.rows[id := t.rows[id].(status := status, updatedAt := at)]), NoFault)
    else (t, Conflict)
  }

  /** DELETE ... WHERE expires_at <= at. */
  function TablePurge(t: Table, at: int): (Table, Fault) {
    if t.closed then (t, StoreClosed) else (t.(rows := Unexpired(t.rows, at)), NoFault)
  }

  // ---------- runs of both stores ----------

  datatype Op =
    | Begin(request: Request)
    | Mark(requestId: string, status: Status, markedAt: int)
    | Purge(purgedAt: int)
    | Close

  /** created is false for every operation but a successful Begin. */
  datatype Reply = Reply(created: bool, fault: Fault)

  function MemoryStep(m: Memory, op: Op): (Memory, Reply) {
    match op
    case Begin(r) => var (m', created, fault) := MemoryBegin(m, r); (m', Reply(created, fault))
    case Mark(id, status, at) => var (m', fault) := MemoryMark(m, id, status, at); (m', Reply(false, fault))
    case Purge(at) => var (m', fault) := MemoryPurge(m, at); (m', Reply(false, fault))
    case Close => (m.(closed := true), Reply(false, NoFault))
  }

  function TableStep(t: Table, op: Op): (Table, Reply) {
    match op
    case Begin(r) => var (t', created, fault) := TableBegin(t, r); (t', Reply(created, fault))
    case Mark(id, status, at) => var (t', fault) := TableMark(t, id, status, at); (t', Reply(false, fault))
    case Purge(at) => var (t', fault) := TablePurge(t, at); (t', Reply(false, fault))
    case Close => (t.(closed := true), Reply(false, NoFault))
  }

  function MemoryRun(ops: seq<Op>): Memory {
    if ops == [] then Memory(map[], map[], false) else MemoryStep(MemoryRun(ops[..|ops| - 1]), ops[|ops| - 1]).0
  }

  function TableRun(ops: seq<Op>): Table {
    if ops == [] then Table(map[], false) else TableStep(TableRun(ops[..|ops| - 1]), ops[|ops| - 1]).0
  }

  /** Each Begin brings an ID that no earlier Begin of the run used; IDs are 128 random bits. */
  ghost predicate FreshIds(ops: seq<Op>) {
    forall i, j | 0 <= i < j < |ops| && ops[i].Begin? && ops[j].Begin? :: ops[i].request.requestId != ops[j].request.requestId
  }

  /** The two maps are inverse to each other. */
  ghost predicate Inverse(m: Memory) {
    && (forall id | id in m.requests :: m.requests[id].requestId == id)
    && (forall id | id in m.requests ::
          m.requests[id].sourceEventKey in m.sources && m.sources[m.requests[id].sourceEventKey] == id)
    && (forall k | k in m.sources :: m.sources[k] in m.requests && m.requests[m.sources[k]].sourceEventKey == k)
  }

  /** The table a memory store stands for. */
  function AsTable(m: Memory): Table {
    Table(m.requests, m.closed)
  }

  /** The memory store says more about a missing row; the table reports both as a conflict. */
  function Kind(fault: Fault): Fault {
    if fault == NotFound then Conflict else fault
  }

  ghost predicate SameReply(a: Reply, b: Reply) {
    a.created == b.created && Kind(a.fault) == Kind(b.fault)
  }

  /** Under the inverse maps, the source index answers the table's uniqueness question. */
  lemma SourceIndex(m: Memory, key: string)
    requires Inverse(m)
    ensures key in m.sources <==> HasSource(m.requests, key)
  {
  }

  /** The two stores agree on a Begin exactly when its ID is not that of another stored request, or nothing is inserted anyway. */
  lemma BeginAgreesIff(m: Memory, r: Request)
    requires Inverse(m)
    ensures var (m', created, fault) := MemoryBegin(m, r);
            var (t', created', fault') := TableBegin(AsTable(m), r);
            (AsTable(m') == t' && created == created' && Kind(fault) == Kind(fault')
             <==> m.closed || r.sourceEventKey in m.sources || r.requestId !in m.requests)
  {
    SourceIndex(m, r.sourceEventKey);
  }

  /** They do disagree when a stored ID begins again under another key: the memory store overwrites, the table refuses. */
  lemma RepeatedIdDisagrees(id: string, key: string, other: string, at: int)
    requires key != other
    ensures var first, second := Request(id, key, Generating, at, at, at), Request(id, other, Generating, at, at, at);
            var m := MemoryRun([Begin(first)]);
            && Inverse(m) && TableRun([Begin(first)]) == AsTable(m)
            && MemoryBegin(m, second).1 && !Inverse(MemoryBegin(m, second).0)
            && TableBegin(AsTable(m), second).2 == DuplicateKey
  {
    var first, second := Request(id, key, Generating, at, at, at), Request(id, other, Generating, at, at, at);
    OneBegin(first);
    hide MemoryRun, TableRun;
    var m := MemoryRun([Begin(first)]);
    var m' := MemoryBegin(m, second).0;
    assert key in m'.sources && m'.requests[m'.sources[key]].sourceEventKey == other;
  }

  lemma OneBegin(r: Request)
    requires r.status == Generating
    ensures MemoryRun([Begin(r)]) == Memory(map[r.requestId := r], map[r.sourceEventKey := r.requestId], false)
    ensures TableRun([Begin(r)]) == Table(map[r.requestId := r], false)
  {
    assert [Begin(r)][..0] == [];
    assert MemoryRun([]) == Memory(map[], map[], false) && TableRun([]) == Table(map[], false);
  }

  lemma BeginKeepsInverse(m: Memory, r: Request)
    requires Inverse(m) && r.requestId !in m.requests
    ensures Inverse(MemoryBegin(m, r).0)
  {
  }

  lemma MarkKeepsInverse(m: Memory, id: string, status: Status, at: int)
    requires Inverse(m)
    ensures Inverse(MemoryMark(m, id, status, at).0)
  {
  }

  lemma PurgeKeepsInverse(m: Memory, at: int)
    requires Inverse(m)
    ensures Inverse(MemoryPurge(m, at).0)
  {
    var m' := MemoryPurge(m, at).0;
    if !m.closed {
      forall id | id in m'.requests
        ensures m'.requests[id].sourceEventKey in m'.sources && m'.sources[m'.requests[id].sourceEventKey] == id
      {
        assert !ExpiredSource(m.requests, m.requests[id].sourceEventKey, at);
      }
      forall k | k in m'.sources
        ensures m'.sources[k] in m'.requests
      {
        assert !Expired(m.requests[m.sources[k]], at);
      }
    }
  }

  /** One operation: the maps stay inverse and the table takes the same step with the same reply. */
  lemma StepSimulates(m: Memory, op: Op)
    requires Inverse(m) && (op.Begin? ==> op.request.requestId !in m.requests)
    ensures Inverse(MemoryStep(m, op).0)
    ensures TableStep(AsTable(m), op).0 == AsTable(MemoryStep(m, op).0)
    ensures SameReply(MemoryStep(m, op).1, TableStep(AsTable(m), op).1)
  {
    match op
    case Begin(r) =>
      BeginAgreesIff(m, r);
      BeginKeepsInverse(m, r);
    case Mark(id, status, at) => MarkKeepsInverse(m, id, status, at);
    case Purge(at) => PurgeKeepsInverse(m, at);
    case Close =>
  }

  /** Only IDs of earlier Begins are stored. */
  lemma {:induction false} StoredWereBegun(ops: seq<Op>)
    ensures forall id | id in MemoryRun(ops).requests :: exists i :: 0 <= i < |ops| && ops[i].Begin? && ops[i].request.requestId == id
  {
    if ops != [] {
      var n := |ops| - 1;
      StoredWereBegun(ops[..n]);
      forall id | id in MemoryRun(ops).requests
        ensures exists i :: 0 <= i < |ops| && ops[i].Begin? && ops[i].request.requestId == id
      {
        if id in MemoryRun(ops[..n]).requests {
          var i :| 0 <= i < n && ops[..n][i].Begin? && ops[..n][i].request.requestId == id;
          assert ops[i].Begin?;
        } else {
          assert ops[n].Begin?;
        }
      }
    }
  }

  lemma FreshInStore(ops: seq<Op>, n: nat)
    requires FreshIds(ops) && n < |ops| && ops[n].Begin?
    ensures ops[n].request.requestId !in MemoryRun(ops[..n]).requests
  {
    StoredWereBegun(ops[..n]);
    hide MemoryRun;
    assert forall i | 0 <= i < n && ops[..n][i].Begin? :: ops[..n][i].request.requestId != ops[n].request.requestId;
  }

  /**
   With fresh IDs, after every run the two maps are inverse, the memory store holds exactly
   the table's rows, and the next reply is the same up to the kind of error.
   */
  lemma {:induction false} MemoryRefinesTable(ops: seq<Op>)
    requires FreshIds(ops)
    ensures Inverse(MemoryRun(ops)) && AsTable(MemoryRun(ops)) == TableRun(ops)
    ensures ops != [] ==> SameReply(MemoryStep(MemoryRun(ops[..|ops| - 1]), ops[|ops| - 1]).1,
                                    TableStep(TableRun(ops[..|ops| - 1]), ops[|ops| - 1]).1)
  {
    if ops != [] {
      var n := |ops| - 1;
      MemoryRefinesTable(ops[..n]);
      if ops[n].Begin? { FreshInStore(ops, n); }
      StepSimulates(MemoryRun(ops[..n]), ops[n]);
      hide MemoryStep, TableStep, Inverse, SameReply;
    }
  }

  // ---------- what the table's own rules keep ----------

  /** The primary key and the unique source key. */
  ghost predicate KeysUnique(rows: Rows) {
    && (forall id | id in rows :: rows[id].requestId == id)
    && (forall id, other | id in rows && other in rows && rows[id].sourceEventKey == rows[other].sourceEventKey :: id == other)
  }

  /** A stored request is not re-filed, and a final one is not reopened. */
  predicate Continues(before: Request, after: Request) {
    && after.(status := before.status, updatedAt := before.updatedAt) == before
    && (before.status != Generating ==> after == before)
  }

  ghost predicate RowsContinue(before: Rows, after: Rows) {
    forall id | id in before && id in after :: Continues(before[id], after[id])
  }

  lemma BeginKeepsKeys(t: Table, r: Request)
    requires KeysUnique(t.rows)
    ensures var t' := TableBegin(t, r).0; KeysUnique(t'.rows) && RowsContinue(t.rows, t'.rows) && t.rows.Keys <= t'.rows.Keys
  {
  }

  lemma MarkKeepsKeys(t: Table, id: string, status: Status, at: int)
    requires KeysUnique(t.rows)
    ensures var t' := TableMark(t, id, status, at).0; KeysUnique(t'.rows) && RowsContinue(t.rows, t'.rows) && t.rows.Keys == t'.rows.Keys
  {
  }

  lemma PurgeKeepsKeys(t: Table, at: int)
    requires KeysUnique(t.rows)
    ensures var t' := TablePurge(t, at).0;
            && KeysUnique(t'.rows) && RowsContinue(t.rows, t'.rows)
            && forall id | id in t.rows && id !in t'.rows :: t.rows[id].expiresAt <= at
  {
  }

  /** Each statement keeps both keys unique, also when an ID is repeated, and never reopens or re-files a stored request. */
  lemma TableStepKeeps(t: Table, op: Op)
    requires KeysUnique(t.rows)
    ensures KeysUnique(TableStep(t, op).0.rows)
    ensures RowsContinue(t.rows, TableStep(t, op).0.rows)
    ensures forall id | id in t.rows && id !in TableStep(t, op).0.rows :: op.Purge? && t.rows[id].expiresAt <= op.purgedAt
  {
    hide TableBegin, TableMark, TablePurge, KeysUnique, Continues;
    match op
    case Begin(r) => BeginKeepsKeys(t, r);
    case Mark(id, status, at) => MarkKeepsKeys(t, id, status, at);
    case Purge(at) => PurgeKeepsKeys(t, at);
    case Close => SameRowsContinue(t.rows);
  }

  lemma SameRowsContinue(rows: Rows)
    ensures RowsContinue(rows, rows)
  {
  }

  lemma {:induction false} TableKeysUnique(ops: seq<Op>)
    ensures KeysUnique(TableRun(ops).rows)
  {
    if ops != [] {
      TableKeysUnique(ops[..|ops| - 1]);
      TableStepKeeps(TableRun(ops[..|ops| - 1]), ops[|ops| - 1]);
      hide TableStep, KeysUnique;
    }
  }
}
