/**
 A replica in place: the tables, the request ledger and the applied marker, moved
 forward entry by entry.
 */
module Replicas {
  import opened Types
  import opened MetaTables
  import opened Namespace
  import opened Admission
  import opened DataOps
  import opened StateMachine
  import opened Versions
  import opened Ledger
  import opened Replay
  import opened HeedStores
  import opened Expiry

  class ReplicaStore {
    const heed: HeedStore
    var ledger: map<OpId, Row>
    var applied: nat

    constructor (heed: HeedStore)
      ensures this.heed == heed && ledger == map[] && applied == 0
    {
      this.heed := heed;
      ledger := map[];
      applied := 0;
    }

    ghost function Durable(): Store
      reads this, heed
    {
      Store(heed.View(), ledger)
    }

    /** The row that expires first among `due`. */
    method OldestOf(due: set<OpId>) returns (k: OpId)
      requires due != {} && due <= ledger.Keys
      ensures k in due && forall j | j in due :: RowBefore(ledger, k, j)
    {
      k :| k in due;
      var todo := due - {k};
      while todo != {}
        invariant k in due && todo <= due && forall j | j in due && j !in todo :: RowBefore(ledger, k, j)
        decreases |todo|
      {
        var j :| j in todo;
        if !RowBefore(ledger, k, j) { k := j; }
        todo := todo - {j};
      }
    }

    method Prune(cutoff: nat, max: nat)
      modifies this`ledger
      ensures ledger == Pruned(old(ledger), cutoff, max) && Prunes(old(ledger), cutoff, max, ledger)
    {
      hide Prunes;
      hide RowBefore;
      var left: nat := max;
      var due := ExpiredOps(ledger, cutoff);
      while due != {} && left > 0
        invariant left <= max && due == ExpiredOps(ledger, cutoff)
        invariant Pruned(old(ledger), cutoff, max) == Pruned(ledger, cutoff, left)
        decreases left
      {
        var k := OldestOf(due);
        PruneStep(ledger, cutoff, left, k);
        ledger := ledger - {k};
        assert due - {k} == ExpiredOps(ledger, cutoff);
        due := due - {k};
        left := left - 1;
      }
      assert left == 0 || ExpiredOps(ledger, cutoff) == {};
      assert Pruned(ledger, cutoff, left) == ledger;
      PruneEffect(old(ledger), cutoff, max);
    }

    /** The command itself: a request against the tables, or a pruning of the ledger. */
    method RunCommand(command: Command, now: int) returns (reply: Response)
      requires Grounded(heed.inodes, heed.dentries, heed.nextInode)
      modifies this`ledger, heed
      ensures (heed.View(), reply) == Run(old(heed.View()), command, now) && ledger == PrunedBy(old(ledger), command)
    {
      hide Execute;
      hide Pruned;
      hide Prunes;
      hide Grounded;
      match command
      case PruneLedger(cutoff, max) =>
        Prune(cutoff, max);
        reply := Empty;
      case Meta(req) =>
        reply := heed.ApplyRequest(req, now);
        if req.ExpireReservations? { Prune(req.cutoff, req.max); }
    }

    /** One entry: answer a retry from the ledger, refuse when it is full, or execute and remember. */
    method ApplyEntry(e: Entry, now: int) returns (reply: Response)
      requires Grounded(heed.inodes, heed.dentries, heed.nextInode)
      modifies this, heed
      ensures (Durable(), reply) == Apply(old(Durable()), e, now) && applied == old(applied) + 1
    {
      hide Run;
      hide Pruned;
      hide Prunes;
      hide PrunedBy;
      hide Grounded;
      applied := applied + 1;
      if e.op.Some? {
        if e.op.value in ledger && ledger[e.op.value].expires > e.stamp {
          return ledger[e.op.value].response;
        }
        Prune(e.stamp, PRUNE_BATCH);
        if |ledger| >= SOFT_CAP {
          return Failed(Busy);
        }
      }
      reply := RunCommand(e.command, now);
      if e.op.Some? {
        ledger := ledger[e.op.value := Row(e.stamp, e.stamp + RETENTION_MS, reply)];
      }
    }

    /** The apply loop: every entry in turn, each answered as the log says. */
    method ApplyEntries(log: seq<Entry>, clock: seq<int>) returns (replies: seq<Response>)
      requires |log| == |clock| && Inv(heed.View()) && LogAdmissible(Durable(), log, clock)
      modifies this, heed
      ensures Durable() == ApplyLog(old(Durable()), log, clock) && applied == old(applied) + |log|
      ensures |replies| == |log|
      ensures forall k | 0 <= k < |log| :: replies[k] == ReplyAt(old(Durable()), log, clock, k)
      ensures Inv(heed.View())
    {
      hide Inv;
      hide Apply;
      hide LogAdmissible;
      ghost var s := Durable();
      replies := [];
      for k := 0 to |log|
        invariant |replies| == k && applied == old(applied) + k
        invariant Durable() == ApplyLog(s, log[..k], clock[..k]) && Inv(heed.View())
        invariant forall j | 0 <= j < k :: replies[j] == ReplyAt(s, log, clock, j)
      {
        LogKeepsInv(s, log, clock, k + 1);
        InvGrounded(heed.View());
        var reply := ApplyEntry(log[k], clock[k]);
        assert log[..k+1][..k] == log[..k] && clock[..k+1][..k] == clock[..k];
        replies := replies + [reply];
      }
      assert log[..|log|] == log && clock[..|log|] == clock;
    }
  }

  /**
   Pruning drops expired rows, as many as allowed, in the order of their expiry and
   then of their request ids, and alters none.
   */
  ghost predicate Prunes(ledger: map<OpId, Row>, cutoff: nat, max: nat, ledger': map<OpId, Row>) {
    && (forall k | k in ledger' :: k in ledger && ledger'[k] == ledger[k])
    && (forall k | k in ledger && k !in ledger' :: ledger[k].expires <= cutoff)
    && (var due := set k | k in ledger && ledger[k].expires <= cutoff;
        |ledger.Keys - ledger'.Keys| == if |due| <= max then |due| else max)
    && (forall a, b | a in ledger && a !in ledger' && b in ledger' && ledger[b].expires <= cutoff ::
          ledger[a].expires < ledger[b].expires || (ledger[a].expires == ledger[b].expires && a < b))
  }

  function Expiries(ledger: map<OpId, Row>): map<OpId, nat> {
    map k | k in ledger :: ledger[k].expires
  }

  lemma PruneEffect(ledger: map<OpId, Row>, cutoff: nat, max: nat)
    ensures Prunes(ledger, cutoff, max, Pruned(ledger, cutoff, max))
  {
    hide Pruned;
    hide Prunes;
    hide OldestGone;
    hide EnoughGone;
    PruneDrops(ledger, cutoff, max);
    PrunesIs(ledger, cutoff, max, Pruned(ledger, cutoff, max));
  }

  lemma PrunesIs(ledger: map<OpId, Row>, cutoff: nat, max: nat, ledger': map<OpId, Row>)
    requires forall k | k in ledger' :: k in ledger && ledger'[k] == ledger[k]
    requires OldestGone(Expiries(ledger), cutoff, ledger'.Keys)
    requires EnoughGone(Expiries(ledger), cutoff, max, ledger'.Keys)
    ensures Prunes(ledger, cutoff, max, ledger')
  {
    var ex := Expiries(ledger);
    assert ex.Keys == ledger.Keys;
    assert (set k | k in ledger && ledger[k].expires <= cutoff) == Due(ex, cutoff);
    forall k | k in ledger && k !in ledger' ensures ledger[k].expires <= cutoff { assert ex[k] <= cutoff; }
    forall a, b | a in ledger && a !in ledger' && b in ledger' && ledger[b].expires <= cutoff
      ensures ledger[a].expires < ledger[b].expires || (ledger[a].expires == ledger[b].expires && a < b)
    {
      assert Older(ex, a, b);
    }
  }

  lemma {:induction false} PruneDrops(ledger: map<OpId, Row>, cutoff: nat, max: nat)
    ensures var left, ex := Pruned(ledger, cutoff, max), Expiries(ledger);
            && (forall k | k in left :: k in ledger && left[k] == ledger[k])
            && OldestGone(ex, cutoff, left.Keys) && EnoughGone(ex, cutoff, max, left.Keys)
    decreases max
  {
    hide Pruned;
    hide RowBefore;
    hide OldestGone;
    hide EnoughGone;
    hide Expiries;
    var ex := Expiries(ledger);
    ExpiriesAre(ledger, cutoff);
    if max == 0 || ExpiredOps(ledger, cutoff) == {} {
      NothingPruned(ledger, cutoff, max);
      NothingGone(ex, cutoff, max);
    } else {
      var k := OldestRowExists(ledger, ExpiredOps(ledger, cutoff));
      PruneStep(ledger, cutoff, max, k);
      PruneDrops(ledger - {k}, cutoff, max - 1);
      ExpiriesWithout(ledger, k);
      forall j | j in Due(ex, cutoff) && j != k ensures Older(ex, k, j) { OlderRow(ledger, k, j); }
      OneMoreGone(ex, cutoff, max, k, Pruned(ledger - {k}, cutoff, max - 1).Keys);
    }
  }

  lemma NothingPruned(ledger: map<OpId, Row>, cutoff: nat, max: nat)
    requires max == 0 || ExpiredOps(ledger, cutoff) == {}
    ensures Pruned(ledger, cutoff, max) == ledger
  {
  }

  lemma ExpiriesAre(ledger: map<OpId, Row>, cutoff: nat)
    ensures Expiries(ledger).Keys == ledger.Keys && ExpiredOps(ledger, cutoff) == Due(Expiries(ledger), cutoff)
  {
  }

  lemma ExpiriesWithout(ledger: map<OpId, Row>, k: OpId)
    ensures Expiries(ledger - {k}) == Expiries(ledger) - {k}
  {
  }

  lemma OlderRow(ledger: map<OpId, Row>, k: OpId, j: OpId)
    requires k in ledger && j in ledger && k != j && RowBefore(ledger, k, j)
    ensures Older(Expiries(ledger), k, j)
  {
  }

  /** What entry k is answered, on the state its predecessors leave. */
  ghost function ReplyAt(s: Store, log: seq<Entry>, clock: seq<int>, k: nat): Response
    requires |log| == |clock| && k < |log|
  {
    Apply(ApplyLog(s, log[..k], clock[..k]), log[k], clock[k]).1
  }

  /** Every request of the log is one its client could build on the state it meets. */
  ghost predicate LogAdmissible(s: Store, log: seq<Entry>, clock: seq<int>)
    requires |log| == |clock|
  {
    forall k | 0 <= k < |log| ::
      log[k].command.Meta? ==> Admissible(ApplyLog(s, log[..k], clock[..k]).t, log[k].command.req)
  }

  lemma InvGrounded(t: Tables)
    requires Inv(t)
    ensures Grounded(t.inodes, t.dentries, t.nextInode)
  {
    hide Grounded;
    assert Tree(t);
  }

  /** Retries, full ledgers and pruning cannot break the invariant. */
  lemma ApplyKeepsInv(s: Store, e: Entry, now: int)
    requires Inv(s.t) && (e.command.Meta? ==> Admissible(s.t, e.command.req))
    ensures Inv(Apply(s, e, now).0.t)
  {
    hide Inv;
    hide Execute;
    hide Pruned;
    hide PrunedBy;
    hide Admissible;
    if e.command.Meta? { ExecuteSound(s.t, e.command.req, now); }
  }

  lemma {:induction false} LogKeepsInv(s: Store, log: seq<Entry>, clock: seq<int>, k: nat)
    requires |log| == |clock| && k <= |log| && Inv(s.t) && LogAdmissible(s, log, clock)
    ensures Inv(ApplyLog(s, log[..k], clock[..k]).t)
    decreases k
  {
    hide Inv;
    hide Apply;
    hide Admissible;
    if k > 0 {
      LogKeepsInv(s, log, clock, k - 1);
      assert log[..k][..k-1] == log[..k-1] && clock[..k][..k-1] == clock[..k-1];
      ApplyKeepsInv(ApplyLog(s, log[..k-1], clock[..k-1]), log[k-1], clock[k-1]);
    }
  }
}
