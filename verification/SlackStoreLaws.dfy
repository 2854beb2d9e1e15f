/**
 What the request store owes over whole runs (internal/chatbot/slack_store.go:53-128): where
 a stored row comes from, and what a purge leaves.
 */
module SlackStoreLaws {
  import opened SlackStore

  /** The row was begun by a request of the run; since then at most its status and update time changed, by a mark of the run. */
  ghost predicate Began(ops: seq<Op>, row: Request) {
    exists i :: 0 <= i < |ops| && ops[i].Begin? && CameFrom(ops, i, row)
  }

  ghost predicate CameFrom(ops: seq<Op>, i: nat, row: Request)
    requires i < |ops| && ops[i].Begin?
  {
    var begun := ops[i].request;
    && row.requestId == begun.requestId && row.sourceEventKey == begun.sourceEventKey
    && row.createdAt == begun.createdAt && row.expiresAt == begun.expiresAt
    && ((row.status == Generating && row.updatedAt == begun.updatedAt)
        || exists j :: i < j < |ops| && ops[j] == Mark(row.requestId, row.status, row.updatedAt))
  }

  lemma LaterToo(ops: seq<Op>, op: Op, row: Request)
    requires Began(ops, row)
    ensures Began(ops + [op], row)
  {
    var i :| 0 <= i < |ops| && ops[i].Begin? && CameFrom(ops, i, row);
    var all := ops + [op];
    assert all[i] == ops[i];
    if j :| i < j < |ops| && ops[j] == Mark(row.requestId, row.status, row.updatedAt) {
      assert all[j] == ops[j];
    }
    assert CameFrom(all, i, row);
  }

  lemma MarkedToo(ops: seq<Op>, op: Op, row: Request)
    requires Began(ops, row) && op.Mark? && op.requestId == row.requestId
    ensures Began(ops + [op], row.(status := op.status, updatedAt := op.markedAt))
  {
    var i :| 0 <= i < |ops| && ops[i].Begin? && CameFrom(ops, i, row);
    var all := ops + [op];
    assert all[i] == ops[i] && all[|ops|] == op;
    assert CameFrom(all, i, row.(status := op.status, updatedAt := op.markedAt));
  }

  lemma BegunNow(ops: seq<Op>, r: Request)
    ensures Began(ops + [Begin(r)], r.(status := Generating))
  {
    assert (ops + [Begin(r)])[|ops|] == Begin(r);
    assert CameFrom(ops + [Begin(r)], |ops|, r.(status := Generating));
  }

  /** Every row of every run of the table was begun in it, and nothing but marks has changed it. */
  lemma {:induction false} EveryRowBegan(ops: seq<Op>)
    ensures forall id | id in TableRun(ops).rows :: TableRun(ops).rows[id].requestId == id && Began(ops, TableRun(ops).rows[id])
  {
    hide Began;
    if ops != [] {
      var n := |ops| - 1;
      EveryRowBegan(ops[..n]);
      assert ops == ops[..n] + [ops[n]];
      var before, after := TableRun(ops[..n]).rows, TableRun(ops).rows;
      forall id | id in after
        ensures after[id].requestId == id && Began(ops, after[id])
      {
        if id in before && after[id] == before[id] {
          LaterToo(ops[..n], ops[n], before[id]);
        } else if ops[n].Begin? {
          BegunNow(ops[..n], ops[n].request);
        } else {
          MarkedToo(ops[..n], ops[n], before[id]);
        }
      }
    }
  }

  /** The memory store holds the same rows, under fresh IDs. */
  lemma EveryRequestBegan(ops: seq<Op>)
    requires FreshIds(ops)
    ensures forall id | id in MemoryRun(ops).requests :: Began(ops, MemoryRun(ops).requests[id])
  {
    hide Began, Inverse, SameReply, MemoryRun, TableRun;
    MemoryRefinesTable(ops);
    EveryRowBegan(ops);
  }

  /** No row that has expired is left, every other row is, as it was, and an expired key may begin again. */
  ghost predicate Purged(before: Rows, after: Rows, at: int) {
    && (forall id | id in after :: after[id].expiresAt > at)
    && (forall id | id in before && before[id].expiresAt > at :: id in after && after[id] == before[id])
    && after.Keys <= before.Keys
  }

  /** What a purge of an open store leaves after any run; with fresh IDs the memory store agrees, in both of its indexes. */
  lemma PurgeRemovesExpired(ops: seq<Op>, at: int)
    ensures !TableRun(ops).closed ==> Purged(TableRun(ops).rows, TablePurge(TableRun(ops), at).0.rows, at)
    ensures FreshIds(ops) && !MemoryRun(ops).closed ==>
              var before, after := MemoryRun(ops), MemoryPurge(MemoryRun(ops), at).0;
              && Purged(before.requests, after.requests, at)
              && (forall k :: k in after.sources <==> HasSource(after.requests, k))
              && (forall id | id in before.requests && before.requests[id].expiresAt <= at ::
                    before.requests[id].sourceEventKey !in after.sources)
  {
    hide MemoryRun, TableRun, SameReply;
    if FreshIds(ops) && !MemoryRun(ops).closed {
      MemoryRefinesTable(ops);
      IndexesPurged(MemoryRun(ops), at);
    }
  }

  lemma IndexesPurged(m: Memory, at: int)
    requires Inverse(m) && !m.closed
    ensures var after := MemoryPurge(m, at).0;
            && Purged(m.requests, after.requests, at)
            && (forall k :: k in after.sources <==> HasSource(after.requests, k))
            && (forall id | id in m.requests && m.requests[id].expiresAt <= at :: m.requests[id].sourceEventKey !in after.sources)
  {
    var after := MemoryPurge(m, at).0;
    PurgeKeepsInverse(m, at);
    forall k { SourceIndex(after, k); }
    forall id | id in m.requests && m.requests[id].expiresAt <= at
      ensures m.requests[id].sourceEventKey !in after.sources
    {
      assert ExpiredSource(m.requests, m.requests[id].sourceEventKey, at);
    }
  }
}
