/**
 The life of a tombstone over a run: it is finalized only after every target
 recorded when it was initialized has acknowledged the deletion.
 */
module CollectorRuns {
  import opened Types
  import opened MetaTables
  import opened NamespaceOps
  import opened Admission
  import opened DataOps
  import opened StateMachine
  import opened Versions
  import opened Runs

  /** `x` has still to acknowledge the deletion of `c`. */
  predicate Awaits(t: Tables, c: ChunkId, x: TargetId) {
    c in t.tombstones && t.tombstones[c].initialized && x in t.tombstones[c].pending
  }

  lemma {:induction false} AcknowledgeAwaits(t: Tables, deleted: seq<(ChunkId, TargetId)>, c: ChunkId, x: TargetId)
    requires Awaits(t, c, x) && (c, x) !in deleted
    ensures Awaits(AcknowledgeNode(t, deleted).tables, c, x)
    decreases |deleted|
  {
    if deleted != [] && deleted[0].0 in t.tombstones && t.tombstones[deleted[0].0].initialized {
      var s := t.tombstones[deleted[0].0];
      var next := s.(pending := s.pending - {deleted[0].1});
      assert deleted[0] != (c, x);
      AcknowledgeAwaits(t.(tombstones := t.tombstones[deleted[0].0 := next]), deleted[1..], c, x);
    }
  }

  lemma {:induction false} InitializeAwaits(t: Tables, chunks: seq<ChunkId>, targets: set<TargetId>, c: ChunkId,
                                            x: TargetId)
    requires Awaits(t, c, x)
    ensures Awaits(InitializeNode(t, chunks, targets).tables, c, x)
    decreases |chunks|
  {
    if chunks != [] && chunks[0] in t.tombstones {
      var next := if t.tombstones[chunks[0]].initialized then t.tombstones
                  else t.tombstones[chunks[0] := Tombstone(true, targets)];
      InitializeAwaits(t.(tombstones := next), chunks[1..], targets, c, x);
    }
  }

  /** Finalizing removes exactly tombstones with nothing left to wait for, and keeps the rest. */
  lemma {:induction false} FinalizeRemoves(t: Tables, chunks: seq<ChunkId>, c: ChunkId)
    requires c in t.tombstones
    ensures var t' := FinalizeNode(t, chunks).tables;
            if c in t'.tombstones then t'.tombstones[c] == t.tombstones[c]
            else t.tombstones[c].initialized && t.tombstones[c].pending == {} && c in chunks
    decreases |chunks|
  {
    if chunks != [] && chunks[0] in t.tombstones {
      var t1 := t.(tombstones := t.tombstones - {chunks[0]});
      if chunks[0] == c { FinalizeOnly(t1, chunks[1..]); } else { FinalizeRemoves(t1, chunks[1..], c); }
    }
  }

  /** Requests that leave the tombstone table alone. */
  lemma OtherKeepsTombstones(t: Tables, req: Request, now: int)
    requires Inv(t) && Admissible(t, req) && !MultiChunk(req) && !req.TombstoneBatch?
    ensures Execute(t, req, now).0.tombstones == t.tombstones
  {
    hide Inv;
    hide Namespace.Tree;
    hide IdsBelow;
    hide Ids;
    hide Execute;
    hide RowsEvolve;
    hide SurvivorsKept;
    hide NewcomersBare;
    hide ReservationsFollow;
    hide Admissible;
    InvIds(t);
    InvTree(t);
    if req.ImportExternal? {
      DataKeepsTombstones(t, req, now);
    } else if req.Rename? || IsHandle(req) {
      HandleEvolves(t, req, now);
    } else if IsName(req) {
      NamespaceEvolves(t, req, now);
    } else {
      DataKeepsTombstones(t, req, now);
    }
  }

  lemma DataKeepsTombstones(t: Tables, req: Request, now: int)
    requires req.ImportExternal? || req.SetXattr? || req.RemoveXattr? || req.PutInodeCas? || req.PutManifest?
             || req.CommitInodeManifest? || req.CommitReserved? || req.BeginFlush? || req.CommitFlush? || req.FailFlush?
             || req.ReserveChunks? || req.AbortReservation? || req.ExpireReservations?
    ensures Execute(t, req, now).0.tombstones == t.tombstones
  {
    hide Execute;
    hide ExpireNode;
    hide LocalChunks;
    hide TotalBytes;
    hide ValidAcl;
    hide ValidXattrName;
    Dispatch(t, req, now);
    if req.ExpireReservations? { ExpireOnly(t, req.cutoff, req.max); }
  }

  /** A target stops being awaited only by its acknowledgement, or by tombstoning the chunk afresh. */
  lemma AwaitsUntilAcknowledged(t: Tables, req: Request, now: int, c: ChunkId, x: TargetId)
    requires Inv(t) && Admissible(t, req) && Awaits(t, c, x)
    requires req.AcknowledgeDeletes? ==> (c, x) !in req.deleted
    ensures StillAwaits(Execute(t, req, now).0, c, x)
  {
    hide Inv;
    hide Admissible;
    hide Execute;
    if MultiChunk(req) || req.TombstoneBatch? {
      Dispatch(t, req, now);
      CollectorAwaits(t, req, c, x);
    } else {
      OtherKeepsTombstones(t, req, now);
    }
  }

  /** Unless it was tombstoned afresh, the chunk still waits for `x`. */
  predicate StillAwaits(t: Tables, c: ChunkId, x: TargetId) {
    c in t.tombstones && (t.tombstones[c].initialized ==> x in t.tombstones[c].pending)
  }

  lemma CollectorAwaits(t: Tables, req: Request, c: ChunkId, x: TargetId)
    requires (MultiChunk(req) || req.TombstoneBatch?) && Awaits(t, c, x)
    requires req.AcknowledgeDeletes? ==> (c, x) !in req.deleted
    ensures StillAwaits(ExecuteCollector(t, req).0, c, x)
  {
    hide FinalizeNode;
    hide InitializeNode;
    hide AcknowledgeNode;
    hide HeldChunks;
    hide ReservedChunks;
    hide KeptManifests;
    match req
    case FinalizeTombstones(chunks) => FinalizeRemoves(t, chunks, c);
    case InitializeTargets(chunks, targets) => InitializeAwaits(t, chunks, targets, c, x);
    case AcknowledgeDeletes(deleted) => AcknowledgeAwaits(t, deleted, c, x);
    case TombstoneBatch(candidates) =>
  }

  /** The k-th request acknowledges that `x` deleted `c`. */
  predicate Acknowledges(log: seq<Entry>, k: nat, c: ChunkId, x: TargetId)
    requires k < |log|
  {
    log[k].req.AcknowledgeDeletes? && (c, x) in log[k].req.deleted
  }

  lemma {:induction false} AwaitedThroughout(s: seq<Tables>, log: seq<Entry>, a: nat, b: nat, c: ChunkId, x: TargetId)
    requires IsRun(s, log) && Inv(s[0]) && a <= b < |s| && Awaits(s[a], c, x)
    requires forall k | a <= k <= b :: c in s[k].tombstones && s[k].tombstones[c].initialized
    requires forall k | a <= k < b :: !Acknowledges(log, k, c, x)
    ensures Awaits(s[b], c, x)
    decreases b
  {
    hide Inv;
    hide Execute;
    if a < b {
      AwaitedThroughout(s, log, a, b - 1, c, x);
      RunKeepsInv(s, log, b - 1);
      assert StepAt(s, log, b - 1);
      assert !Acknowledges(log, b - 1, c, x);
      AwaitsUntilAcknowledged(s[b-1], log[b-1].req, log[b-1].now, c, x);
    }
  }

  /**
   From initialization in state `a` to finalization by entry `b`, every target
   recorded at initialization has acknowledged.
   */
  lemma FinalizedAfterAcknowledgements(s: seq<Tables>, log: seq<Entry>, a: nat, b: nat, c: ChunkId, x: TargetId)
    requires IsRun(s, log) && Inv(s[0]) && a <= b < |log|
    requires forall k | a <= k <= b :: c in s[k].tombstones && s[k].tombstones[c].initialized
    requires x in s[a].tombstones[c].pending && c !in s[b+1].tombstones
    ensures exists k | a <= k < b :: Acknowledges(log, k, c, x)
  {
    hide Inv;
    hide Execute;
    if forall k | a <= k < b :: !Acknowledges(log, k, c, x) {
      AwaitedThroughout(s, log, a, b, c, x);
      RunKeepsInv(s, log, b);
      assert StepAt(s, log, b);
      if !Acknowledges(log, b, c, x) {
        AwaitsUntilAcknowledged(s[b], log[b].req, log[b].now, c, x);
      } else {
        AcknowledgeOnlyKeys(s[b], log[b].req.deleted);
        ExecuteAcknowledge(s[b], log[b].req, log[b].now);
      }
    }
  }

  lemma ExecuteAcknowledge(t: Tables, req: Request, now: int)
    requires req.AcknowledgeDeletes?
    ensures Execute(t, req, now).0 == AcknowledgeNode(t, req.deleted).tables
  {
    hide Execute;
    hide AcknowledgeNode;
    Dispatch(t, req, now);
  }

  lemma {:induction false} AcknowledgeOnlyKeys(t: Tables, deleted: seq<(ChunkId, TargetId)>)
    ensures AcknowledgeNode(t, deleted).tables.tombstones.Keys == t.tombstones.Keys
    decreases |deleted|
  {
    if deleted != [] && deleted[0].0 in t.tombstones {
      var s := t.tombstones[deleted[0].0];
      var next := s.(pending := s.pending - {deleted[0].1});
      AcknowledgeOnlyKeys(t.(tombstones := t.tombstones[deleted[0].0 := next]), deleted[1..]);
    }
  }
}
