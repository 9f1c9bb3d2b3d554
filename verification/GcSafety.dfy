/**
 Garbage-collection safety over whole runs: with any number of writers and one
 collector, every chunk an inode holds stays on some target. With two collectors
 it does not.
 */
module GcSafety {
  import opened Types
  import opened MetaTables
  import opened NamespaceOps
  import opened Admission
  import opened Fencing
  import opened DataOps
  import opened StateMachine
  import opened Versions
  import opened Runs
  import opened CollectorRuns
  import opened HeldChunkRuns
  import opened GcWorld

  // ------------------------------------------------------- the invariant

  /** The record a writer read is the current one unless the generation has moved on. */
  ghost predicate Seen(t: Tables, cur: Inode) {
    cur.id < t.nextInode && (cur.id in t.inodes ==> Advances(cur, t.inodes[cur.id]))
  }

  /** The manifest a writer read is still what is stored under its id. */
  ghost predicate BaseSeen(t: Tables, cur: Inode, base: Option<Manifest>) {
    if cur.manifestId.None? then base.None?
    else
      && base.Some? && cur.manifestId.value < t.nextManifest
      && (cur.manifestId.value in t.manifests ==> t.manifests[cur.manifestId.value] == base.value)
  }

  /** As long as the ticket is live, what is not yet to be put is in place. */
  ghost predicate TicketOk(t: Tables, stored: map<TargetId, set<ChunkId>>, v: Writer)
    requires v.Holding?
  {
    v.ticket in t.reservations ==>
      && t.reservations[v.ticket].chunks == LocalChunks(v.m)
      && forall c | c in LocalChunks(v.m) && (c in v.done || c !in v.staged) :: Placed(stored, c)
  }

  ghost predicate WriterOk(t: Tables, stored: map<TargetId, set<ChunkId>>, used: set<Ticket>, v: Writer) {
    && Seen(t, v.cur)
    && (v.Prepared? ==>
          && BaseSeen(t, v.cur, v.base) && DataCommit(v.cur, v.next, v.m)
          && LocalChunks(v.m) <= v.staged + BaseChunks(v.base))
    && (v.Holding? ==> DataCommit(v.cur, v.next, v.m) && v.ticket in used && TicketOk(t, stored, v))
  }

  ghost predicate WritersOk(t: Tables, stored: map<TargetId, set<ChunkId>>, used: set<Ticket>,
                            writers: map<nat, Writer>) {
    && t.reservations.Keys <= used
    && forall n | n in writers :: WriterOk(t, stored, used, writers[n])
  }

  /** Whatever the one collector works on still carries its tombstone. */
  ghost predicate RunnerOk(t: Tables, runners: map<nat, Runner>) {
    runners.Keys <= {0} && (0 in runners ==> runners[0].Work() <= t.tombstones.Keys)
  }

  /** What holds whatever the collectors are doing. */
  ghost predicate CoreInv(w: World) {
    Inv(w.t) && Safe(w) && WritersOk(w.t, w.stored, w.used, w.writers)
  }

  ghost predicate WorldInv(w: World) {
    CoreInv(w) && RunnerOk(w.t, w.runners)
  }

  /** A delete that reaches a target finds its chunk tombstoned. */
  ghost predicate Harmless(w: World, e: Event) {
    (e.Delete? || e.Late?) ==> e.c in w.t.tombstones
  }

  // ------------------------------------------------ steps of the tables

  lemma EvolvesKeepsView(t: Tables, t': Tables, cur: Inode)
    requires Evolves(t, t') && Seen(t, cur)
    ensures Seen(t', cur)
  {
    hide ManifestsEvolve;
    hide RowsEvolve;
  }

  lemma EvolvesKeepsBase(t: Tables, t': Tables, cur: Inode, base: Option<Manifest>)
    requires Evolves(t, t') && BaseSeen(t, cur, base)
    ensures BaseSeen(t', cur, base)
  {
    hide RecordsEvolve;
    hide RowsEvolve;
  }

  lemma WriterKept(t: Tables, t': Tables, stored: map<TargetId, set<ChunkId>>, used: set<Ticket>, v: Writer)
    requires Evolves(t, t') && FewerReservations(t, t') && WriterOk(t, stored, used, v)
    ensures WriterOk(t', stored, used, v)
  {
    hide Evolves;
    hide Seen;
    hide BaseSeen;
    hide DataCommit;
    hide LocalChunks;
    EvolvesKeepsView(t, t', v.cur);
    if v.Prepared? { EvolvesKeepsBase(t, t', v.cur, v.base); }
  }

  lemma WritersKept(t: Tables, t': Tables, stored: map<TargetId, set<ChunkId>>, used: set<Ticket>,
                    writers: map<nat, Writer>)
    requires Evolves(t, t') && FewerReservations(t, t') && WritersOk(t, stored, used, writers)
    ensures WritersOk(t', stored, used, writers)
  {
    hide Evolves;
    hide WriterOk;
    forall n | n in writers ensures WriterOk(t', stored, used, writers[n]) {
      WriterKept(t, t', stored, used, writers[n]);
    }
  }

  /** A request other than a reservation keeps everything but the collector's worklist. */
  lemma RequestKeeps(w: World, req: Request, now: int)
    requires CoreInv(w) && Admissible(w.t, req) && !req.ReserveChunks?
    requires forall c | c in Brought(req) && Execute(w.t, req, now).0 != w.t :: Placed(w.stored, c)
    ensures var t' := Execute(w.t, req, now).0;
            Inv(t') && Safe(w.(t := t')) && WritersOk(t', w.stored, w.used, w.writers)
  {
    hide Inv;
    hide Execute;
    hide Evolves;
    hide FewerReservations;
    hide HeldChunks;
    hide Placed;
    hide Admissible;
    ExecuteSound(w.t, req, now);
    ExecuteEvolves(w.t, req, now);
    ReservationsShrink(w.t, req, now);
    HeldGrowsByCommit(w.t, req, now);
    WritersKept(w.t, Execute(w.t, req, now).0, w.stored, w.used, w.writers);
  }

  lemma FewerWriters(t: Tables, stored: map<TargetId, set<ChunkId>>, used: set<Ticket>, writers: map<nat, Writer>,
                     n: nat)
    requires WritersOk(t, stored, used, writers)
    ensures WritersOk(t, stored, used, writers - {n})
  {
    hide WriterOk;
  }

  // -------------------------------------------------------------- writers

  lemma LookKeeps(w: World, n: nat, i: InodeId, now: int)
    requires CoreInv(w) && Enabled(w, Look(n, i))
    ensures CoreInv(Apply(w, Look(n, i), now))
  {
    hide Inv;
    hide HeldChunks;
    hide Placed;
    hide LocalChunks;
    hide DataCommit;
    InvIds(w.t);
  }

  lemma PrepareKeeps(w: World, n: nat, next: Inode, m: Manifest, staged: set<ChunkId>, now: int)
    requires CoreInv(w) && Enabled(w, Prepare(n, next, m, staged))
    ensures CoreInv(Apply(w, Prepare(n, next, m, staged), now))
  {
    hide Inv;
    hide HeldChunks;
    hide Placed;
    hide LocalChunks;
    hide DataCommit;
    hide Seen;
    hide TicketOk;
    InvIds(w.t);
  }

  /** A granted reservation finds the record unchanged, so its manifest is held and in place. */
  lemma ReservedInPlace(w: World, v: Writer, ticket: Ticket, expiresAt: nat, now: int, c: ChunkId)
    requires Inv(w.t) && Safe(w) && v.Prepared? && WriterOk(w.t, w.stored, w.used, v)
    requires !Execute(w.t, ReserveRequest(v, ticket, expiresAt), now).1.Failed?
    requires c in LocalChunks(v.m) && c !in v.staged
    ensures Placed(w.stored, c)
  {
    hide Execute;
    hide Inv;
    hide DataCommit;
    hide LocalChunks;
    hide HeldChunks;
    hide Placed;
    ReserveChecks(w.t, ReserveRequest(v, ticket, expiresAt), now);
    InvStored(w.t);
    assert w.t.inodes[v.cur.id] == v.cur;
    HeldIncludes(w.t, v.cur.id);
  }

  lemma ReserveChecks(t: Tables, req: Request, now: int)
    requires req.ReserveChunks? && !Execute(t, req, now).1.Failed?
    ensures req.id in t.inodes && t.inodes[req.id].generation == req.expected
  {
    hide Execute;
    Dispatch(t, req, now);
  }

  /** What a granted or refused reservation does to the tables. */
  lemma ReserveOutcome(t: Tables, req: Request, now: int)
    requires req.ReserveChunks? && req.ticket !in t.reservations
    ensures var step := Execute(t, req, now);
            && (step.1.Failed? ==> step.0 == t)
            && (!step.1.Failed? ==>
                  step.0 == t.(reservations := t.reservations[req.ticket :=
                                 Reservation(req.id, req.expected, req.chunkIds, req.expiresAt)]))
  {
    hide Execute;
    Dispatch(t, req, now);
  }

  lemma ReserveKeepsWriter(w: World, n: nat, ticket: Ticket, expiresAt: nat, now: int)
    requires CoreInv(w) && Enabled(w, Reserve(n, ticket, expiresAt))
    requires !Execute(w.t, ReserveRequest(w.writers[n], ticket, expiresAt), now).1.Failed?
    ensures var v := w.writers[n];
            WriterOk(Execute(w.t, ReserveRequest(v, ticket, expiresAt), now).0, w.stored, w.used + {ticket},
                     Holding(v.cur, v.next, v.m, v.staged, ticket, {}))
  {
    hide Execute;
    hide LocalChunks;
    hide Placed;
    hide DataCommit;
    hide Inv;
    hide Safe;
    hide Advances;
    var v := w.writers[n];
    assert WriterOk(w.t, w.stored, w.used, v);
    forall c | c in LocalChunks(v.m) && c !in v.staged ensures Placed(w.stored, c) {
      ReservedInPlace(w, v, ticket, expiresAt, now, c);
    }
    ReserveOutcome(w.t, ReserveRequest(v, ticket, expiresAt), now);
  }

  lemma ReserveKeepsOthers(w: World, v: Writer, ticket: Ticket, reservation: Reservation)
    requires WriterOk(w.t, w.stored, w.used, v) && ticket !in w.used
    ensures WriterOk(w.t, w.stored, w.used + {ticket}, v)
    ensures WriterOk(w.t.(reservations := w.t.reservations[ticket := reservation]), w.stored, w.used + {ticket}, v)
  {
    hide DataCommit;
    hide LocalChunks;
    hide Placed;
  }

  lemma ReserveKeepsWriters(w: World, n: nat, ticket: Ticket, expiresAt: nat, now: int)
    requires CoreInv(w) && Enabled(w, Reserve(n, ticket, expiresAt))
    ensures var w' := Apply(w, Reserve(n, ticket, expiresAt), now);
            WritersOk(w'.t, w'.stored, w'.used, w'.writers)
  {
    hide Execute;
    hide WriterOk;
    hide Inv;
    hide Safe;
    var v := w.writers[n];
    var req := ReserveRequest(v, ticket, expiresAt);
    var w' := Apply(w, Reserve(n, ticket, expiresAt), now);
    ReserveOutcome(w.t, req, now);
    if !Execute(w.t, req, now).1.Failed? { ReserveKeepsWriter(w, n, ticket, expiresAt, now); }
    forall k | k in w'.writers ensures WriterOk(w'.t, w'.stored, w'.used, w'.writers[k]) {
      if k != n || w'.t == w.t {
        ReserveKeepsOthers(w, w.writers[k], ticket,
                           Reservation(v.cur.id, v.cur.generation, LocalChunks(v.m), expiresAt));
      }
    }
  }

  lemma ReserveIs(w: World, n: nat, ticket: Ticket, expiresAt: nat, now: int)
    requires Enabled(w, Reserve(n, ticket, expiresAt))
    ensures var w' := Apply(w, Reserve(n, ticket, expiresAt), now);
            && w' == w.(t := Execute(w.t, ReserveRequest(w.writers[n], ticket, expiresAt), now).0,
                        writers := w'.writers, used := w'.used)
            && ticket !in w.used
  {
    hide Execute;
    hide LocalChunks;
  }

  lemma ReserveKeeps(w: World, n: nat, ticket: Ticket, expiresAt: nat, now: int)
    requires CoreInv(w) && Enabled(w, Reserve(n, ticket, expiresAt))
    ensures CoreInv(Apply(w, Reserve(n, ticket, expiresAt), now))
  {
    hide Execute;
    hide Apply;
    hide Inv;
    hide WriterOk;
    hide Placed;
    hide LocalChunks;
    var req := ReserveRequest(w.writers[n], ticket, expiresAt);
    ReserveIs(w, n, ticket, expiresAt, now);
    ReserveKeepsWriters(w, n, ticket, expiresAt, now);
    ExecuteSound(w.t, req, now);
    ReserveOutcome(w.t, req, now);
    assert HeldChunks(Execute(w.t, req, now).0) == HeldChunks(w.t);
  }

  lemma MorePlaced(stored: map<TargetId, set<ChunkId>>, stored': map<TargetId, set<ChunkId>>, c: ChunkId)
    requires stored.Keys <= stored'.Keys && (forall x | x in stored :: stored[x] <= stored'[x]) && Placed(stored, c)
    ensures Placed(stored', c)
  {
    var x :| x in stored && c in stored[x];
    assert c in stored'[x];
  }

  /** Adding chunks to targets breaks nothing. */
  lemma MoreStoredKeeps(w: World, stored': map<TargetId, set<ChunkId>>)
    requires CoreInv(w)
    requires w.stored.Keys <= stored'.Keys && forall x | x in w.stored :: w.stored[x] <= stored'[x]
    ensures CoreInv(w.(stored := stored'))
  {
    hide Inv;
    hide Placed;
    hide HeldChunks;
    hide LocalChunks;
    hide DataCommit;
    hide Seen;
    hide BaseSeen;
    forall c | Placed(w.stored, c) ensures Placed(stored', c) { MorePlaced(w.stored, stored', c); }
  }

  lemma PutKeeps(w: World, n: nat, c: ChunkId, onto: set<TargetId>, reported: bool, now: int)
    requires CoreInv(w) && Enabled(w, Put(n, c, onto, reported))
    ensures CoreInv(Apply(w, Put(n, c, onto, reported), now))
  {
    var w' := Apply(w, Put(n, c, onto, reported), now);
    MoreStoredKeeps(w, w'.stored);
    if reported {
      var x :| x in onto;
      assert x in w'.stored && c in w'.stored[x];
      assert Placed(w'.stored, c);
      ReportedPut(w.(stored := w'.stored), n, c);
    }
  }

  lemma ReportedPut(w: World, n: nat, c: ChunkId)
    requires CoreInv(w) && n in w.writers && w.writers[n].Holding? && Placed(w.stored, c)
    ensures CoreInv(w.(writers := w.writers[n := w.writers[n].(done := w.writers[n].done + {c})]))
  {
    assert WriterOk(w.t, w.stored, w.used, w.writers[n]);
    var v := w.writers[n].(done := w.writers[n].done + {c});
    assert WriterOk(w.t, w.stored, w.used, v);
    hide WriterOk;
    hide Inv;
    hide HeldChunks;
    hide Placed;
  }

  /** A commit that succeeds holds chunks that are all in place. */
  lemma CommitInPlace(w: World, n: nat, now: int, c: ChunkId)
    requires CoreInv(w) && Enabled(w, Commit(n)) && c in LocalChunks(w.writers[n].m)
    requires Execute(w.t, CommitRequest(w.writers[n]), now).0 != w.t
    ensures Placed(w.stored, c)
  {
    var v := w.writers[n];
    assert WriterOk(w.t, w.stored, w.used, v);
    assert v.ticket in w.t.reservations;
  }

  lemma SeenBuilt(t: Tables, cur: Inode, next: Inode, m: Manifest)
    requires Seen(t, cur) && DataCommit(cur, next, m)
    ensures BuiltFromRead(t, cur.generation, next, m)
  {
    hide DataCommit;
    CommitIdentity(cur, next, m);
  }

  lemma CommitIs(w: World, n: nat, now: int)
    requires Enabled(w, Commit(n))
    ensures Apply(w, Commit(n), now)
            == w.(t := Execute(w.t, CommitRequest(w.writers[n]), now).0, writers := w.writers - {n})
  {
    hide Execute;
  }

  /** A writer that knows the current record sends a commit built from it. */
  lemma CommitAdmissible(w: World, n: nat)
    requires WritersOk(w.t, w.stored, w.used, w.writers) && n in w.writers && w.writers[n].Holding?
    ensures Admissible(w.t, CommitRequest(w.writers[n]))
  {
    var v := w.writers[n];
    assert WriterOk(w.t, w.stored, w.used, v);
    SeenBuilt(w.t, v.cur, v.next, v.m);
  }

  lemma CommitKeeps(w: World, n: nat, now: int)
    requires CoreInv(w) && Enabled(w, Commit(n))
    ensures CoreInv(Apply(w, Commit(n), now))
  {
    hide Execute;
    hide Apply;
    hide Admissible;
    hide Inv;
    hide Safe;
    hide WritersOk;
    hide RunnerOk;
    hide LocalChunks;
    var req := CommitRequest(w.writers[n]);
    CommitIs(w, n, now);
    CommitAdmissible(w, n);
    var t' := Execute(w.t, req, now).0;
    if t' != w.t {
      forall c | c in Brought(req) ensures Placed(w.stored, c) { CommitInPlace(w, n, now, c); }
    }
    RequestKeeps(w, req, now);
    FewerWriters(t', w.stored, w.used, w.writers, n);
    SafeStored(w.(t := t'), w.(t := t', writers := w.writers - {n}));
  }

  lemma AbortIs(w: World, n: nat, now: int)
    requires Enabled(w, Abort(n))
    ensures Apply(w, Abort(n), now)
            == w.(t := Execute(w.t, AbortReservation(w.writers[n].ticket), now).0, writers := w.writers - {n})
  {
    hide Execute;
  }

  lemma AbortKeeps(w: World, n: nat, now: int)
    requires CoreInv(w) && Enabled(w, Abort(n))
    ensures CoreInv(Apply(w, Abort(n), now))
  {
    hide Execute;
    hide Apply;
    hide Inv;
    hide Safe;
    hide WritersOk;
    hide RunnerOk;
    var req := AbortReservation(w.writers[n].ticket);
    AbortIs(w, n, now);
    var t' := Execute(w.t, req, now).0;
    RequestKeeps(w, req, now);
    FewerWriters(t', w.stored, w.used, w.writers, n);
    SafeStored(w.(t := t'), w.(t := t', writers := w.writers - {n}));
  }

  // ------------------------------------------------------------ collector

  /** What a collector's request makes of the world. */
  ghost function CollectorRequest(e: Event): Request
    requires e.Mark? || e.Initialize? || e.Acknowledge? || e.Finalize?
  {
    match e
    case Mark(_, candidates) => TombstoneBatch(candidates)
    case Initialize(_, chunks, targets) => InitializeTargets(chunks, targets)
    case Acknowledge(_, order) => AcknowledgeDeletes(order)
    case Finalize(_, chunks) => FinalizeTombstones(chunks)
  }

  lemma CollectorIs(w: World, e: Event, now: int)
    requires (e.Mark? || e.Initialize? || e.Acknowledge? || e.Finalize?) && Enabled(w, e)
    ensures Apply(w, e, now) == w.(t := Execute(w.t, CollectorRequest(e), now).0, runners := Apply(w, e, now).runners)
  {
    hide Execute;
  }

  lemma CollectorKeeps(w: World, e: Event, now: int)
    requires CoreInv(w) && (e.Mark? || e.Initialize? || e.Acknowledge? || e.Finalize?) && Enabled(w, e)
    ensures CoreInv(Apply(w, e, now))
  {
    hide Execute;
    hide Apply;
    hide Enabled;
    hide Inv;
    hide Safe;
    hide WritersOk;
    CollectorIs(w, e, now);
    RequestKeeps(w, CollectorRequest(e), now);
    NewTables(w, Execute(w.t, CollectorRequest(e), now).0, Apply(w, e, now).runners);
  }

  lemma NewTables(w: World, t': Tables, runners: map<nat, Runner>)
    requires Inv(t') && Safe(w.(t := t')) && WritersOk(t', w.stored, w.used, w.writers)
    ensures CoreInv(w.(t := t', runners := runners))
  {
    hide Inv;
    hide WritersOk;
    hide HeldChunks;
    hide Placed;
  }

  lemma OthersStayPlaced(stored: map<TargetId, set<ChunkId>>, x: TargetId, gone: ChunkId, c: ChunkId)
    requires x in stored && c != gone && Placed(stored, c)
    ensures Placed(stored[x := stored[x] - {gone}], c)
  {
    var y :| y in stored && c in stored[y];
    assert c in stored[x := stored[x] - {gone}][y];
  }

  /** Deleting a tombstoned chunk cannot hurt a held or reserved one. */
  lemma DeleteKeepsWriter(w: World, v: Writer, x: TargetId, gone: ChunkId)
    requires Inv(w.t) && WriterOk(w.t, w.stored, w.used, v) && x in w.stored && gone in w.t.tombstones
    ensures WriterOk(w.t, w.stored[x := w.stored[x] - {gone}], w.used, v)
  {
    assert ReservedApart(w.t);
    hide Inv;
    hide Seen;
    hide BaseSeen;
    hide DataCommit;
    if v.Holding? && v.ticket in w.t.reservations {
      forall c | c in LocalChunks(v.m) && (c in v.done || c !in v.staged)
        ensures Placed(w.stored[x := w.stored[x] - {gone}], c)
      {
        OthersStayPlaced(w.stored, x, gone, c);
      }
    }
  }

  lemma DeleteKeepsSafe(w: World, x: TargetId, gone: ChunkId)
    requires Inv(w.t) && Safe(w) && x in w.stored && gone in w.t.tombstones
    ensures Safe(w.(stored := w.stored[x := w.stored[x] - {gone}]))
  {
    FenceIsDisjointness(w.t);
    assert HeldApart(w.t);
    hide Inv;
    hide HeldApart;
    forall c | c in HeldChunks(w.t) ensures Placed(w.stored[x := w.stored[x] - {gone}], c) {
      OthersStayPlaced(w.stored, x, gone, c);
    }
  }

  /** One copy less of a tombstoned chunk. */
  lemma RemovalKeeps(w: World, c: ChunkId, x: TargetId)
    requires CoreInv(w) && x in w.stored && c in w.t.tombstones
    ensures CoreInv(w.(stored := w.stored[x := w.stored[x] - {c}]))
  {
    hide Inv;
    hide Safe;
    hide WriterOk;
    DeleteKeepsSafe(w, x, c);
    forall n | n in w.writers ensures WriterOk(w.t, w.stored[x := w.stored[x] - {c}], w.used, w.writers[n]) {
      DeleteKeepsWriter(w, w.writers[n], x, c);
    }
  }

  /** Collectors' lists and deletes on their way are no part of it. */
  lemma CoreOnly(w: World, w': World)
    requires CoreInv(w) && w'.t == w.t && w'.stored == w.stored && w'.writers == w.writers && w'.used == w.used
    ensures CoreInv(w')
  {
    hide Inv;
    hide WritersOk;
    hide HeldChunks;
    hide Placed;
  }

  lemma DeleteKeeps(w: World, e: Event, now: int)
    requires CoreInv(w) && (e.Delete? || e.Late?) && Enabled(w, e) && Harmless(w, e)
    ensures CoreInv(Apply(w, e, now))
  {
    hide CoreInv;
    RemovalKeeps(w, e.c, e.x);
    CoreOnly(w.(stored := w.stored[e.x := w.stored[e.x] - {e.c}]), Apply(w, e, now));
  }

  lemma SafeStored(w: World, w': World)
    requires Safe(w) && w'.t == w.t && w'.stored == w.stored
    ensures Safe(w')
  {
  }

  lemma OtherKeeps(w: World, req: Request, now: int)
    requires CoreInv(w) && Enabled(w, Other(req))
    ensures CoreInv(Apply(w, Other(req), now))
  {
    hide Execute;
    hide Inv;
    hide Safe;
    hide WritersOk;
    hide Admissible;
    RequestKeeps(w, req, now);
    NewTables(w, Execute(w.t, req, now).0, w.runners);
  }

  /** Steps that only forget, read or send. */
  lemma QuietKeeps(w: World, e: Event, now: int)
    requires CoreInv(w) && Enabled(w, e) && (e.WriterGone? || e.RunnerGone? || e.List? || e.Send?)
    ensures CoreInv(Apply(w, e, now))
  {
    hide Inv;
    hide WriterOk;
    hide HeldChunks;
    hide Placed;
  }

  lemma ReplicateKeeps(w: World, c: ChunkId, x: TargetId, y: TargetId, now: int)
    requires CoreInv(w) && Enabled(w, Replicate(c, x, y))
    ensures CoreInv(Apply(w, Replicate(c, x, y), now))
  {
    MoreStoredKeeps(w, w.stored[y := w.stored[y] + {c}]);
  }

  /** With any number of collectors, a step whose delete hits a tombstone keeps every held chunk in place. */
  lemma StepKeeps(w: World, e: Event, now: int)
    requires CoreInv(w) && Enabled(w, e) && Harmless(w, e)
    ensures CoreInv(Apply(w, e, now))
  {
    hide CoreInv;
    hide Enabled;
    hide Apply;
    hide Harmless;
    match e
    case Look(n, i) => LookKeeps(w, n, i, now);
    case Prepare(n, next, m, staged) => PrepareKeeps(w, n, next, m, staged, now);
    case Reserve(n, ticket, expiresAt) => ReserveKeeps(w, n, ticket, expiresAt, now);
    case Put(n, c, onto, reported) => PutKeeps(w, n, c, onto, reported, now);
    case Commit(n) => CommitKeeps(w, n, now);
    case Abort(n) => AbortKeeps(w, n, now);
    case Replicate(c, x, y) => ReplicateKeeps(w, c, x, y, now);
    case Delete(r, c, x) => DeleteKeeps(w, e, now);
    case Late(c, x) => DeleteKeeps(w, e, now);
    case Other(req) => OtherKeeps(w, req, now);
    case Mark(_, _) => CollectorKeeps(w, e, now);
    case Initialize(_, _, _) => CollectorKeeps(w, e, now);
    case Acknowledge(_, _) => CollectorKeeps(w, e, now);
    case Finalize(_, _) => CollectorKeeps(w, e, now);
    case _ => QuietKeeps(w, e, now);
  }

  /** Exactly when taking one copy away leaves every held chunk in place. */
  lemma DeleteSafeIff(w: World, e: Event, now: int)
    requires Safe(w) && (e.Delete? || e.Late?) && Enabled(w, e)
    ensures Safe(Apply(w, e, now)) <==>
            (e.c in HeldChunks(w.t) ==> exists y | y in w.stored :: y != e.x && e.c in w.stored[y])
  {
    hide HeldChunks;
    var stored' := w.stored[e.x := w.stored[e.x] - {e.c}];
    assert Apply(w, e, now).stored == stored' && Apply(w, e, now).t == w.t;
    forall c | c in HeldChunks(w.t) && c != e.c ensures Placed(stored', c) {
      OthersStayPlaced(w.stored, e.x, e.c, c);
    }
    if y :| y in w.stored && y != e.x && e.c in w.stored[y] {
      assert e.c in stored'[y];
    }
  }

  // --------------------------------------------------------- one collector

  /** The step is not taken by a second collector. */
  predicate ByOneRunner(e: Event) {
    match e
    case Mark(r, _) => r == 0
    case List(r, _) => r == 0
    case Initialize(r, _, _) => r == 0
    case Delete(r, _, _) => r == 0
    case Send(r, _, _) => r == 0
    case Acknowledge(r, _) => r == 0
    case Finalize(r, _) => r == 0
    case RunnerGone(r) => r == 0
    case _ => true
  }

  /** The one collector deletes tombstoned chunks only. */
  lemma OwnDeleteHarmless(w: World, e: Event)
    requires RunnerOk(w.t, w.runners) && Enabled(w, e) && e.Delete? && ByOneRunner(e)
    ensures Harmless(w, e)
  {
  }

  lemma OtherTombstones(t: Tables, req: Request, now: int, runners: map<nat, Runner>)
    requires Inv(t) && Admissible(t, req) && !MultiChunk(req) && !req.TombstoneBatch? && RunnerOk(t, runners)
    ensures RunnerOk(Execute(t, req, now).0, runners)
  {
    hide Execute;
    hide Inv;
    OtherKeepsTombstones(t, req, now);
  }

  lemma {:induction false} InitializeKeys(t: Tables, chunks: seq<ChunkId>, targets: set<TargetId>)
    ensures InitializeNode(t, chunks, targets).tables.tombstones.Keys == t.tombstones.Keys
    decreases |chunks|
  {
    if chunks != [] && chunks[0] in t.tombstones {
      var next := if t.tombstones[chunks[0]].initialized then t.tombstones
                  else t.tombstones[chunks[0] := Tombstone(true, targets)];
      InitializeKeys(t.(tombstones := next), chunks[1..], targets);
    }
  }

  lemma SameTombstones(t: Tables, req: Request, now: int)
    requires req.InitializeTargets? || req.AcknowledgeDeletes?
    ensures Execute(t, req, now).0.tombstones.Keys == t.tombstones.Keys
  {
    hide Execute;
    hide InitializeNode;
    hide AcknowledgeNode;
    Dispatch(t, req, now);
    match req
    case InitializeTargets(chunks, targets) => InitializeKeys(t, chunks, targets);
    case AcknowledgeDeletes(deleted) => AcknowledgeOnlyKeys(t, deleted);
  }

  /** The collector's own requests leave it nothing to do or only tombstoned chunks. */
  lemma CollectorRunner(w: World, e: Event, now: int)
    requires RunnerOk(w.t, w.runners) && ByOneRunner(e) && Enabled(w, e)
    requires e.Mark? || e.Initialize? || e.Acknowledge? || e.Finalize?
    ensures RunnerOk(Apply(w, e, now).t, Apply(w, e, now).runners)
  {
    hide Execute;
    if e.Initialize? || e.Acknowledge? { SameTombstones(w.t, CollectorRequest(e), now); }
    CollectorIs(w, e, now);
  }

  lemma WriterRunner(w: World, e: Event, now: int)
    requires CoreInv(w) && RunnerOk(w.t, w.runners) && Enabled(w, e)
    requires e.Reserve? || e.Commit? || e.Abort? || e.Other?
    ensures RunnerOk(Apply(w, e, now).t, Apply(w, e, now).runners)
  {
    hide Execute;
    hide Inv;
    hide Safe;
    hide Admissible;
    hide WriterOk;
    hide LocalChunks;
    match e
    case Reserve(n, ticket, expiresAt) =>
      ReserveAdmissible(w.t, ReserveRequest(w.writers[n], ticket, expiresAt));
      OtherTombstones(w.t, ReserveRequest(w.writers[n], ticket, expiresAt), now, w.runners);
    case Commit(n) =>
      CommitAdmissible(w, n);
      OtherTombstones(w.t, CommitRequest(w.writers[n]), now, w.runners);
    case Abort(n) =>
      ReserveAdmissible(w.t, AbortReservation(w.writers[n].ticket));
      OtherTombstones(w.t, AbortReservation(w.writers[n].ticket), now, w.runners);
    case Other(req) => OtherTombstones(w.t, req, now, w.runners);
  }

  lemma ReserveAdmissible(t: Tables, req: Request)
    requires req.ReserveChunks? || req.AbortReservation?
    ensures Admissible(t, req)
  {
  }

  lemma RunnerKeeps(w: World, e: Event, now: int)
    requires WorldInv(w) && Enabled(w, e) && ByOneRunner(e)
    ensures RunnerOk(Apply(w, e, now).t, Apply(w, e, now).runners)
  {
    hide Execute;
    hide CoreInv;
    hide LocalChunks;
    hide DataCommit;
    hide Admissible;
    if e.Mark? || e.Initialize? || e.Acknowledge? || e.Finalize? {
      CollectorRunner(w, e, now);
    } else if e.Reserve? || e.Commit? || e.Abort? || e.Other? {
      WriterRunner(w, e, now);
    }
  }
}
