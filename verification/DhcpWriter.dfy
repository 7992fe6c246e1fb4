/** The lease writer as the object its worker owns (internal/dhcp/store.go). */
module DhcpWriter {
  import opened Common
  import opened DhcpTypes
  import opened DhcpStore

  class LeaseWriter {
    var table: Table
    var lastKnown: int
    const capacity: int
    var queue: seq<Mutation>
    var results: seq<CommitResult>
    var orphans: set<Token>
    var failed: bool
    var closed: bool
    var lastToken: Token

    function State(): Store
      reads this
    {
      Store(table, lastKnown, capacity, queue, results, orphans, failed, closed, lastToken)
    }

    constructor (capacity: int, table: Table, lastKnown: int)
      ensures State() == Store(table, lastKnown, capacity, [], [], {}, false, false, NO_TOKEN)
    {
      this.capacity, this.table, this.lastKnown := capacity, table, lastKnown;
      queue, results, orphans := [], [], {};
      failed, closed, lastToken := false, false, NO_TOKEN;
    }

    /** Never waits: a refused mutation is the caller's to complete as failed. */
    method Admit(m: Mutation, cancelled: bool) returns (ok: bool)
      modifies this`queue, this`lastToken
      ensures (State(), ok) == Submit(old(State()), m, cancelled)
    {
      if cancelled || closed || failed || m.token.generation == 0 || m.token.sequence == 0 {
        return false;
      }
      if m.token.generation < lastToken.generation
         || (m.token.generation == lastToken.generation && m.token.sequence <= lastToken.sequence) {
        return false;
      }
      if |queue| >= QUEUE_LIMIT {
        return false;
      }
      queue, lastToken := queue + [m], m.token;
      return true;
    }

    /** Runs a batch against a scratch copy of the table, stopping at the first refused mutation. */
    method TryBatch(batch: seq<Mutation>) returns (next: Option<Table>)
      ensures next == ApplyBatch(table, batch)
    {
      hide ApplyOne;
      var scratch := table;
      for i := 0 to |batch|
        invariant ApplyBatch(table, batch) == ApplyBatch(scratch, batch[i..])
      {
        var one := ApplyOne(scratch, batch[i]);
        assert batch[i..][1..] == batch[i + 1..];
        if one.None? {
          return None;
        }
        scratch := one.value;
      }
      return Some(scratch);
    }

    /** One pass of the worker over the first n queued mutations. */
    method WorkOnce(n: nat, wall: int, disk: Disk)
      requires 1 <= n <= |queue| && n <= BATCH_LIMIT
      modifies this
      ensures State() == Work(old(State()), n, wall, disk)
    {
      hide ApplyBatch, ResultsFor, TokensIn;
      var batch := queue[..n];
      queue := queue[n..];
      var blocked := failed || wall <= 0 || wall < lastKnown;
      var next := TryBatch(batch);
      var refused := next.None? || |next.value| > capacity;
      if !blocked && (disk in {UnknownApplied, UnknownLost}) {
        // outcome unknown: no completion is delivered, the error is latched
        if !refused && disk == UnknownApplied {
          table, lastKnown, orphans := next.value, wall, orphans + TokensIn(batch);
        }
        failed := true;
      } else if blocked || refused || disk == Refused {
        results, failed := results + ResultsFor(batch, true), true;
      } else {
        table, lastKnown, results := next.value, wall, results + ResultsFor(batch, false);
        if disk == DurableThenSick {
          failed := true;
        }
      }
    }
  }
}
