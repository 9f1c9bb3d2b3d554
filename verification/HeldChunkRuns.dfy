/**
 Which requests can make an inode hold a chunk, or a ticket reserve one.
 */
module HeldChunkRuns {
  import opened Types
  import opened MetaTables
  import opened NamespaceOps
  import opened Admission
  import opened FileState
  import opened Fencing
  import opened DataOps
  import opened StateMachine
  import opened Versions
  import opened Runs
  import opened FlushRuns

  /** The inode holds no local chunk. */
  ghost predicate HoldsNothing(t: Tables, i: InodeId) {
    i in t.inodes && t.inodes[i].manifestId.Some? && t.inodes[i].manifestId.value in t.manifests ==>
      LocalChunks(t.manifests[t.inodes[i].manifestId.value]) == {}
  }

  lemma StepNewcomer(t: Tables, t': Tables, i: InodeId)
    requires NamespaceStep(t, t') && i !in t.inodes
    ensures HoldsNothing(t', i)
  {
    hide SurvivorsKept;
    hide ReservationsFollow;
    if i in t'.inodes { NoManifest(t'.inodes[i]); }
  }

  lemma ImportNewcomer(t: Tables, req: Request, now: int, i: InodeId)
    requires req.ImportExternal? && Admissible(t, req) && i !in t.inodes
    ensures HoldsNothing(Execute(t, req, now).0, i)
  {
    hide Execute;
    hide ImportNode;
    hide LocalChunks;
    hide ImportTemplate;
    Dispatch(t, req, now);
    ImportShape(t, req.expParent, req.parent, req.name, req.template, req.imported, now);
    NoLocalChunk(req.template, req.imported, t.nextInode);
  }

  /** An inode that was not there before starts without local chunks. */
  lemma NewcomerHolds(t: Tables, req: Request, now: int, i: InodeId)
    requires Inv(t) && Admissible(t, req) && i !in t.inodes
    ensures HoldsNothing(Execute(t, req, now).0, i)
  {
    hide Inv;
    hide Namespace.Tree;
    hide IdsBelow;
    hide Ids;
    hide Execute;
    hide Admissible;
    hide NamespaceStep;
    hide RowsEvolve;
    InvIds(t);
    InvTree(t);
    var t' := Execute(t, req, now).0;
    if req.ImportExternal? {
      ImportNewcomer(t, req, now, i);
    } else if req.Rename? || IsHandle(req) {
      HandleEvolves(t, req, now);
      StepNewcomer(t, t', i);
    } else if IsName(req) {
      NamespaceEvolves(t, req, now);
      StepNewcomer(t, t', i);
    } else {
      DataAddsNoInode(t, req, now);
    }
  }

  lemma RecordKeepsKeys(t: Tables, req: Request, now: int)
    requires IdsBelow(t) && (req.SetXattr? || req.RemoveXattr? || req.PutInodeCas?)
    ensures Execute(t, req, now).0.inodes.Keys == t.inodes.Keys
    ensures Execute(t, req, now).0.reservations == t.reservations
  {
    hide Execute;
    hide TotalBytes;
    hide ValidAcl;
    hide ValidXattrName;
    Dispatch(t, req, now);
  }

  lemma CommitKeepsKeys(t: Tables, req: Request, now: int)
    requires req.CommitInodeManifest? || req.CommitReserved?
    ensures Execute(t, req, now).0.inodes.Keys == t.inodes.Keys
    ensures Execute(t, req, now).0.reservations ==
            t.reservations - (if req.CommitReserved? && Execute(t, req, now).1.InodeResponse? then {req.ticket} else {})
  {
    hide Execute;
    hide LocalChunks;
    Dispatch(t, req, now);
  }

  ghost predicate SameKeys(t: Tables, t': Tables) {
    t'.inodes.Keys == t.inodes.Keys && t'.reservations == t.reservations
  }

  lemma BeginKeepsKeys(t: Tables, expected: nat, id: InodeId, intent: FlushIntent)
    requires IdsBelow(t)
    ensures SameKeys(t, BeginFlushNode(t, expected, id, intent).tables)
  {
  }

  lemma FailKeepsKeys(t: Tables, expected: nat, id: InodeId, flushId: FlushId, message: string)
    requires IdsBelow(t)
    ensures SameKeys(t, FailFlushNode(t, expected, id, flushId, message).tables)
  {
  }

  lemma FinishKeepsKeys(t: Tables, expected: nat, id: InodeId, flushId: FlushId, published: UfsObject)
    requires IdsBelow(t)
    ensures SameKeys(t, CommitFlushNode(t, expected, id, flushId, published).tables)
  {
  }

  lemma FlushKeepsKeys(t: Tables, req: Request, now: int)
    requires IdsBelow(t) && (req.BeginFlush? || req.CommitFlush? || req.FailFlush?)
    ensures SameKeys(t, Execute(t, req, now).0)
  {
    hide Execute;
    hide IdsBelow;
    hide BeginFlushNode;
    hide CommitFlushNode;
    hide FailFlushNode;
    Dispatch(t, req, now);
    match req
    case BeginFlush(exp, id, intent) => BeginKeepsKeys(t, exp, id, intent);
    case CommitFlush(exp, id, flushId, published) => FinishKeepsKeys(t, exp, id, flushId, published);
    case FailFlush(exp, id, flushId, message) => FailKeepsKeys(t, exp, id, flushId, message);
  }

  lemma DataAddsNoInode(t: Tables, req: Request, now: int)
    requires IdsBelow(t)
    requires req.SetXattr? || req.RemoveXattr? || req.PutInodeCas? || req.CommitInodeManifest? || req.CommitReserved?
             || req.BeginFlush? || req.CommitFlush? || req.FailFlush? || MultiChunk(req) || req.ReserveChunks?
             || req.AbortReservation? || req.ExpireReservations? || req.TombstoneBatch? || req.PutManifest?
    ensures Execute(t, req, now).0.inodes.Keys == t.inodes.Keys
  {
    hide Execute;
    hide IdsBelow;
    if req.SetXattr? || req.RemoveXattr? || req.PutInodeCas? {
      RecordKeepsKeys(t, req, now);
    } else if req.CommitInodeManifest? || req.CommitReserved? {
      CommitKeepsKeys(t, req, now);
    } else if req.BeginFlush? || req.CommitFlush? || req.FailFlush? {
      FlushKeepsKeys(t, req, now);
    } else {
      CollectorRows(t, req, now);
    }
  }

  /** What inode `i` holds after a data request addressed to it. */
  lemma DataHolds(t: Tables, req: Request, now: int, i: InodeId)
    requires IdsBelow(t) && FilesOk(t) && Stored(t) && DataRequestFor(req, i)
    requires i in t.inodes && i in Execute(t, req, now).0.inodes
    ensures var t' := Execute(t, req, now).0;
            || t'.inodes[i].manifestId == t.inodes[i].manifestId
            || t'.inodes[i].manifestId.None?
            || (&& t'.inodes[i].manifestId.value in t'.manifests
                && (var m := t'.manifests[t'.inodes[i].manifestId.value];
                    if req.CommitReserved? then m == req.manifest else LocalChunks(m) == {}))
  {
    hide Execute;
    Dispatch(t, req, now);
    assert FileOk(t.inodes[i], t.manifests);
    match req
    case CommitInodeManifest(exp, inode, m) => hide LocalChunks;
    case CommitReserved(ticket, exp, inode, m) => hide LocalChunks;
    case BeginFlush(exp, id, intent) =>
    case FailFlush(exp, id, flushId, message) =>
    case CommitFlush(exp, id, flushId, published) => CommitFlushHolds(t, exp, id, flushId, published);
  }

  lemma CommitFlushHolds(t: Tables, expected: nat, id: InodeId, flushId: FlushId, published: UfsObject)
    requires IdsBelow(t) && id in t.inodes
    ensures var o := CommitFlushNode(t, expected, id, flushId, published);
            && id in o.tables.inodes
            && (|| o.tables.inodes[id].manifestId == t.inodes[id].manifestId
                || o.tables.inodes[id].manifestId.None?
                || (&& o.tables.inodes[id].manifestId.value in o.tables.manifests
                    && LocalChunks(o.tables.manifests[o.tables.inodes[id].manifestId.value]) == {}))
  {
  }

  /** The chunks a request adds to what inodes hold. */
  function Brought(req: Request): set<ChunkId> {
    if req.CommitReserved? then LocalChunks(req.manifest) else {}
  }

  /** Only a reserved commit makes an inode hold further chunks, and only those it reserved. */
  lemma HeldGrowsByCommit(t: Tables, req: Request, now: int)
    requires Inv(t) && Admissible(t, req)
    ensures HeldChunks(Execute(t, req, now).0) <= HeldChunks(t) + Brought(req)
  {
    var t' := Execute(t, req, now).0;
    forall c | c in HeldChunks(t') ensures c in HeldChunks(t) + Brought(req) {
      var k :| k in t'.manifests && k in HeldManifests(t') && c in LocalChunks(t'.manifests[k]);
      var i :| i in t'.inodes && t'.inodes[i].manifestId == Some(k);
      hide Execute;
      HeldFrom(t, req, now, i, c);
    }
  }

  lemma HeldFrom(t: Tables, req: Request, now: int, i: InodeId, c: ChunkId)
    requires Inv(t) && Admissible(t, req)
    requires var t' := Execute(t, req, now).0;
             && i in t'.inodes && t'.inodes[i].manifestId.Some? && t'.inodes[i].manifestId.value in t'.manifests
             && c in LocalChunks(t'.manifests[t'.inodes[i].manifestId.value])
    ensures c in HeldChunks(t) + Brought(req)
  {
    hide Execute;
    hide Admissible;
    hide LocalChunks;
    hide HeldChunks;
    var t' := Execute(t, req, now).0;
    if i !in t.inodes {
      NewcomerHolds(t, req, now, i);
    } else {
      ExecuteEvolves(t, req, now);
      InvIds(t);
      assert FilesOk(t) && Stored(t);
      hide Inv;
      if DataRequestFor(req, i) { DataHolds(t, req, now, i); } else { ContentChangesOnlyByData(t, req, now, i); }
      hide FilesOk;
      if t'.inodes[i].manifestId == t.inodes[i].manifestId { HeldIncludes(t, i); }
    }
  }

  ghost predicate FewerReservations(t: Tables, t': Tables) {
    && t'.reservations.Keys <= t.reservations.Keys
    && forall k | k in t'.reservations :: t'.reservations[k] == t.reservations[k]
  }

  lemma StepDropsReservations(t: Tables, t': Tables)
    requires NamespaceStep(t, t')
    ensures FewerReservations(t, t')
  {
    hide SurvivorsKept;
    hide NewcomersBare;
  }

  lemma CollectorDropsReservations(t: Tables, req: Request, now: int)
    requires MultiChunk(req) || req.AbortReservation? || req.ExpireReservations? || req.TombstoneBatch?
    ensures FewerReservations(t, Execute(t, req, now).0)
  {
    hide Execute;
    hide FinalizeNode;
    hide InitializeNode;
    hide AcknowledgeNode;
    hide ExpireNode;
    hide HeldChunks;
    hide ReservedChunks;
    hide HeldManifests;
    Dispatch(t, req, now);
    match req
    case FinalizeTombstones(chunks) => FinalizeOnly(t, chunks);
    case InitializeTargets(chunks, targets) => InitializeOnly(t, chunks, targets);
    case AcknowledgeDeletes(deleted) => AcknowledgeOnly(t, deleted);
    case ExpireReservations(cutoff, max) => ExpireOnly(t, cutoff, max);
    case _ =>
  }

  lemma StoreKeepsReservations(t: Tables, req: Request, now: int)
    requires (req.ImportExternal? || req.PutManifest?) && Admissible(t, req)
    ensures FewerReservations(t, Execute(t, req, now).0)
  {
    hide Execute;
    hide CreateNode;
    hide LinkNode;
    hide UnlinkNode;
    hide RmdirNode;
    hide RenameNode;
    Dispatch(t, req, now);
    if req.ImportExternal? {
      ImportShape(t, req.expParent, req.parent, req.name, req.template, req.imported, now);
      hide ImportNode;
      hide ImportTemplate;
    }
  }

  /** Only ReserveChunks adds a reservation, and none is ever altered. */
  lemma ReservationsShrink(t: Tables, req: Request, now: int)
    requires Inv(t) && Admissible(t, req) && !req.ReserveChunks?
    ensures FewerReservations(t, Execute(t, req, now).0)
  {
    hide Inv;
    hide Namespace.Tree;
    hide IdsBelow;
    hide Ids;
    hide Execute;
    hide NamespaceStep;
    hide RowsEvolve;
    hide Admissible;
    InvIds(t);
    InvTree(t);
    var t' := Execute(t, req, now).0;
    if req.ImportExternal? || req.PutManifest? {
      StoreKeepsReservations(t, req, now);
    } else if req.Rename? || IsHandle(req) {
      HandleEvolves(t, req, now);
      StepDropsReservations(t, t');
    } else if IsName(req) {
      NamespaceEvolves(t, req, now);
      StepDropsReservations(t, t');
    } else if IsFlush(req) {
      FlushKeepsKeys(t, req, now);
    } else if IsCommit(req) {
      CommitKeepsKeys(t, req, now);
    } else if IsCollector(req) {
      CollectorDropsReservations(t, req, now);
    } else {
      RecordKeepsKeys(t, req, now);
    }
  }
}
