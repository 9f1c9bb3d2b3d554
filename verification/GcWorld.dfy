/**
 Writers and collectors around the metadata tables and the chunk targets.

 A writer reads a record, prepares a commit, reserves its chunks, puts the
 staged ones and commits; it may stall, fail or vanish between any two steps. A
 collector lists tombstones, records targets, deletes target by target,
 acknowledges and finalizes; it may vanish between any two steps as well. A
 delete is carried out and reported at once, or it is sent, counts as failed, and
 may still reach its target at any later time.
 */
module GcWorld {
  import opened Types
  import opened MetaTables
  import opened Admission

  datatype Writer =
    | Looked(cur: Inode)
    | Prepared(cur: Inode, base: Option<Manifest>, next: Inode, m: Manifest, staged: set<ChunkId>)
    | Holding(cur: Inode, next: Inode, m: Manifest, staged: set<ChunkId>, ticket: Ticket, done: set<ChunkId>)

  datatype Runner =
    | Listed(tombs: map<ChunkId, Tombstone>)
    | Deleting(pending: map<ChunkId, set<TargetId>>, deleted: set<(ChunkId, TargetId)>)
    | Acknowledged(pending: map<ChunkId, set<TargetId>>, deleted: set<(ChunkId, TargetId)>)
  {
    /** The chunks this runner still deletes or finalizes. */
    function Work(): set<ChunkId> {
      if Listed? then tombs.Keys else pending.Keys
    }
  }

  datatype World = World(
    t: Tables,
    stored: map<TargetId, set<ChunkId>>,
    writers: map<nat, Writer>,
    runners: map<nat, Runner>,
    used: set<Ticket>,
    late: set<(ChunkId, TargetId)>)

  datatype Event =
    | Look(w: nat, i: InodeId)
    | Prepare(w: nat, next: Inode, m: Manifest, staged: set<ChunkId>)
    | Reserve(w: nat, ticket: Ticket, expiresAt: nat)
    | Put(w: nat, c: ChunkId, onto: set<TargetId>, reported: bool)
    | Commit(w: nat)
    | Abort(w: nat)
    | WriterGone(w: nat)
    | Replicate(c: ChunkId, x: TargetId, y: TargetId)
    | Mark(r: nat, candidates: set<ChunkId>)
    | List(r: nat, batch: set<ChunkId>)
    | Initialize(r: nat, chunks: seq<ChunkId>, targets: set<TargetId>)
    | Delete(r: nat, c: ChunkId, x: TargetId)
    | Send(r: nat, c: ChunkId, x: TargetId)
    | Late(c: ChunkId, x: TargetId)
    | Acknowledge(r: nat, order: seq<(ChunkId, TargetId)>)
    | Finalize(r: nat, chunks: seq<ChunkId>)
    | RunnerGone(r: nat)
    | Other(req: Request)

  /** Requests that only writers and collectors of this model send. */
  predicate Protocol(req: Request) {
    || req.ReserveChunks? || req.CommitReserved?
    || req.TombstoneBatch? || req.InitializeTargets? || req.AcknowledgeDeletes? || req.FinalizeTombstones?
  }

  /** Some target holds the chunk. */
  ghost predicate Placed(stored: map<TargetId, set<ChunkId>>, c: ChunkId) {
    exists x | x in stored :: c in stored[x]
  }

  function BaseChunks(base: Option<Manifest>): set<ChunkId> {
    if base.Some? then LocalChunks(base.value) else {}
  }

  /** The collector has the chunk on its list for that target. */
  predicate MayDelete(w: World, r: nat, c: ChunkId, x: TargetId) {
    && r in w.runners && w.runners[r].Deleting? && x in w.stored
    && c in w.runners[r].pending && x in w.runners[r].pending[c]
  }

  ghost predicate Enabled(w: World, e: Event) {
    match e
    case Look(n, i) => n !in w.writers && i in w.t.inodes
    case Prepare(n, next, m, staged) =>
      && n in w.writers && w.writers[n].Looked?
      && (var cur := w.writers[n].cur;
          && DataCommit(cur, next, m)
          && (cur.manifestId.Some? ==> cur.manifestId.value in w.t.manifests)
          && LocalChunks(m) <= staged + BaseChunks(ReadBase(w.t, cur)))
    case Reserve(n, ticket, _) => n in w.writers && w.writers[n].Prepared? && ticket !in w.used
    case Put(n, c, onto, reported) =>
      && n in w.writers && w.writers[n].Holding? && c in w.writers[n].staged
      && onto <= w.stored.Keys && (reported ==> onto != {})
    case Commit(n) => n in w.writers && w.writers[n].Holding? && w.writers[n].staged <= w.writers[n].done
    case Abort(n) => n in w.writers && w.writers[n].Holding?
    case WriterGone(n) => n in w.writers
    case Replicate(c, x, y) => x in w.stored && y in w.stored && c in w.stored[x]
    case Mark(r, _) => r !in w.runners
    case List(r, batch) => r !in w.runners && batch <= w.t.tombstones.Keys
    case Initialize(r, chunks, targets) =>
      && r in w.runners && w.runners[r].Listed?
      && (forall c :: c in chunks <==> c in w.runners[r].tombs && !w.runners[r].tombs[c].initialized)
    case Delete(r, c, x) => MayDelete(w, r, c, x)
    case Send(r, c, x) => MayDelete(w, r, c, x)
    case Late(c, x) => (c, x) in w.late && x in w.stored
    case Acknowledge(r, order) =>
      && r in w.runners && w.runners[r].Deleting?
      && (forall d :: d in order <==> d in w.runners[r].deleted)
    case Finalize(r, chunks) =>
      && r in w.runners && w.runners[r].Acknowledged?
      && (forall c :: c in chunks <==>
                      c in w.runners[r].pending
                      && forall x | x in w.runners[r].pending[c] :: (c, x) in w.runners[r].deleted)
    case RunnerGone(r) => r in w.runners
    case Other(req) => Admissible(w.t, req) && !Protocol(req)
  }

  /** The manifest a writer reads for the record it looked at. */
  function ReadBase(t: Tables, cur: Inode): Option<Manifest> {
    if cur.manifestId.Some? && cur.manifestId.value in t.manifests then Some(t.manifests[cur.manifestId.value])
    else None
  }

  function ReserveRequest(v: Writer, ticket: Ticket, expiresAt: nat): Request
    requires v.Prepared?
  {
    ReserveChunks(ticket, v.cur.id, v.cur.generation, LocalChunks(v.m), expiresAt)
  }

  function CommitRequest(v: Writer): Request
    requires v.Holding?
  {
    CommitReserved(v.ticket, v.cur.generation, v.next, v.m)
  }

  ghost function Apply(w: World, e: Event, now: int): World
    requires Enabled(w, e)
  {
    match e
    case Look(n, i) => w.(writers := w.writers[n := Looked(w.t.inodes[i])])
    case Prepare(n, next, m, staged) =>
      var cur := w.writers[n].cur;
      w.(writers := w.writers[n := Prepared(cur, ReadBase(w.t, cur), next, m, staged)])
    case Reserve(n, ticket, expiresAt) =>
      var v := w.writers[n];
      var step := Execute(w.t, ReserveRequest(v, ticket, expiresAt), now);
      var next := if step.1.Failed? then w.writers - {n}
                  else w.writers[n := Holding(v.cur, v.next, v.m, v.staged, ticket, {})];
      w.(t := step.0, writers := next, used := w.used + {ticket})
    case Put(n, c, onto, reported) =>
      w.(stored := map x | x in w.stored :: if x in onto then w.stored[x] + {c} else w.stored[x],
         writers := if reported then w.writers[n := w.writers[n].(done := w.writers[n].done + {c})] else w.writers)
    case Replicate(c, x, y) => w.(stored := w.stored[y := w.stored[y] + {c}])
    case Commit(n) => w.(t := Execute(w.t, CommitRequest(w.writers[n]), now).0, writers := w.writers - {n})
    case Abort(n) =>
      w.(t := Execute(w.t, AbortReservation(w.writers[n].ticket), now).0, writers := w.writers - {n})
    case WriterGone(n) => w.(writers := w.writers - {n})
    case Mark(r, candidates) => w.(t := Execute(w.t, TombstoneBatch(candidates), now).0)
    case List(r, batch) => w.(runners := w.runners[r := Listed(map c | c in batch :: w.t.tombstones[c])])
    case Initialize(r, chunks, targets) =>
      var tombs := w.runners[r].tombs;
      var step := Execute(w.t, InitializeTargets(chunks, targets), now);
      var next := if step.1.Failed? then w.runners - {r}
                  else w.runners[r := Deleting(map c | c in tombs :: if tombs[c].initialized then tombs[c].pending
                                                                     else targets, {})];
      w.(t := step.0, runners := next)
    case Delete(r, c, x) =>
      w.(stored := w.stored[x := w.stored[x] - {c}],
         runners := w.runners[r := Deleting(w.runners[r].pending, w.runners[r].deleted + {(c, x)})])
    case Send(r, c, x) => w.(late := w.late + {(c, x)})
    case Late(c, x) => w.(stored := w.stored[x := w.stored[x] - {c}], late := w.late - {(c, x)})
    case Acknowledge(r, order) =>
      var step := Execute(w.t, AcknowledgeDeletes(order), now);
      var v := w.runners[r];
      w.(t := step.0,
         runners := if step.1.Failed? then w.runners - {r} else w.runners[r := Acknowledged(v.pending, v.deleted)])
    case Finalize(r, chunks) =>
      w.(t := Execute(w.t, FinalizeTombstones(chunks), now).0, runners := w.runners - {r})
    case RunnerGone(r) => w.(runners := w.runners - {r})
    case Other(req) => w.(t := Execute(w.t, req, now).0)
  }

  /** Every local chunk of every manifest an inode holds is on some target. */
  ghost predicate Safe(w: World) {
    forall c | c in HeldChunks(w.t) :: Placed(w.stored, c)
  }
}
