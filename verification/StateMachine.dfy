/**
 Runs of the replicated metadata state machine: the invariant holds in every
 reachable state, failed requests change nothing, and a generation identifies
 one version of a record.
 */
module StateMachine {
  import opened Types
  import opened MetaTables
  import opened Namespace
  import opened NamespaceOps
  import opened Admission
  import opened FileState
  import opened Fencing
  import opened DataOps

  /** A freshly created store: the root directory and nothing else. */
  function EmptyStore(now: int): Tables {
    Tables(map[ROOT_INODE := FreshInode(ROOT_INODE, Directory, 0x1ed, 0, 0, None, now)],
           map[], map[], map[], map[], map[], {}, ROOT_INODE + 1, 1)
  }

  lemma EmptyStoreInv(now: int)
    ensures Inv(EmptyStore(now))
  {
    var t := EmptyStore(now);
    assert NamesOf(t.dentries, ROOT_INODE) == {};
    PathSelf(t.dentries, ROOT_INODE);
  }

  // ------------------------------------------------ collector requests

  /** Requests on tombstones change nothing else and add no tombstone. */
  ghost predicate TombstonesOnly(t: Tables, t': Tables) {
    t' == t.(tombstones := t'.tombstones) && t'.tombstones.Keys <= t.tombstones.Keys
  }

  lemma {:induction false} FinalizeOnly(t: Tables, chunks: seq<ChunkId>)
    ensures TombstonesOnly(t, FinalizeNode(t, chunks).tables)
    decreases |chunks|
  {
    if chunks != [] && chunks[0] in t.tombstones {
      FinalizeOnly(t.(tombstones := t.tombstones - {chunks[0]}), chunks[1..]);
    }
  }

  lemma {:induction false} InitializeOnly(t: Tables, chunks: seq<ChunkId>, targets: set<TargetId>)
    ensures TombstonesOnly(t, InitializeNode(t, chunks, targets).tables)
    decreases |chunks|
  {
    if chunks != [] && chunks[0] in t.tombstones {
      var next := if t.tombstones[chunks[0]].initialized then t.tombstones
                  else t.tombstones[chunks[0] := Tombstone(true, targets)];
      InitializeOnly(t.(tombstones := next), chunks[1..], targets);
    }
  }

  lemma {:induction false} AcknowledgeOnly(t: Tables, deleted: seq<(ChunkId, TargetId)>)
    ensures TombstonesOnly(t, AcknowledgeNode(t, deleted).tables)
    decreases |deleted|
  {
    if deleted != [] && deleted[0].0 in t.tombstones {
      var s := t.tombstones[deleted[0].0];
      var next := s.(pending := s.pending - {deleted[0].1});
      AcknowledgeOnly(t.(tombstones := t.tombstones[deleted[0].0 := next]), deleted[1..]);
    }
  }

  lemma {:induction false} ExpireOnly(t: Tables, cutoff: nat, max: nat)
    ensures var t' := ExpireNode(t, cutoff, max);
            && t' == t.(reservations := t'.reservations) && t'.reservations.Keys <= t.reservations.Keys
            && forall k | k in t'.reservations :: t'.reservations[k] == t.reservations[k]
    decreases max
  {
    if max > 0 {
      forall k | k in t.reservations {
        ExpireOnly(t.(reservations := t.reservations - {k}), cutoff, max - 1);
      }
    }
  }

  lemma TombstonesOnlyKeepsInv(t: Tables, t': Tables)
    requires Inv(t) && TombstonesOnly(t, t')
    ensures Inv(t')
  {
    hide FilesOk;
    hide LocalChunks;
    hide Tree;
    hide Fenced;
    DropKeepsFence(t, t');
    SameShapeTree(t, t');
    UnchangedKeepsFiles(t, t');
  }

  lemma ExpireKeepsInv(t: Tables, cutoff: nat, max: nat)
    requires Inv(t)
    ensures Inv(ExpireNode(t, cutoff, max))
  {
    hide ExpireNode;
    ExpireOnly(t, cutoff, max);
    var t' := ExpireNode(t, cutoff, max);
    DropReservationsKeepsInv(t, t.reservations.Keys - t'.reservations.Keys);
    assert t.reservations - (t.reservations.Keys - t'.reservations.Keys) == t'.reservations;
  }

  lemma ReserveKeepsInv(t: Tables, ticket: Ticket, id: InodeId, expected: nat, chunks: set<ChunkId>, expiresAt: nat)
    requires Inv(t)
    ensures var o := ReserveNode(t, ticket, id, expected, chunks, expiresAt);
            Inv(o.tables) && (o.result.Err? ==> o.tables == t)
  {
    hide FilesOk;
    hide Tree;
    hide Fenced;
    var t' := ReserveNode(t, ticket, id, expected, chunks, expiresAt).tables;
    ReserveKeepsFence(t, ticket, id, expected, chunks, expiresAt);
    SameShapeTree(t, t');
    UnchangedKeepsFiles(t, t');
  }

  lemma TombstoneKeepsInv(t: Tables, candidates: set<ChunkId>)
    requires Inv(t)
    ensures Inv(TombstoneNode(t, candidates).0)
  {
    hide FilesOk;
    hide Tree;
    hide Fenced;
    var t' := TombstoneNode(t, candidates).0;
    TombstoneKeepsFence(t, candidates);
    SameShapeTree(t, t');
    forall i | i in t.inodes && t.inodes[i].manifestId.Some? && t.inodes[i].manifestId.value in t.manifests
      ensures t.inodes[i].manifestId.value in HeldManifests(t)
    {
    }
    UnchangedKeepsFiles(t, t');
  }

  lemma PutManifestKeepsInv(t: Tables, m: Manifest)
    requires Inv(t)
    ensures var o := PutManifestNode(t, m);
            Inv(o.tables) && (o.result.Err? ==> o.tables == t)
  {
    if Ordered(m.extents) {
      StepSelf(t);
      ImportMiddle(t, t, Some(m), StoreManifest(t, m));
    }
  }

  // ------------------------------------------------------- every request

  /** `t'` and `r` are what a correct request leaves behind. */
  ghost predicate Sound(t: Tables, step: (Tables, Response)) {
    Inv(step.0) && (step.1.Failed? ==> step.0 == t)
  }

  lemma AddingSound(t: Tables, req: Request, now: int)
    requires Inv(t) && Tree(t) && (req.Create? || req.MakeSymlink? || req.Link?)
    ensures Sound(t, Execute(t, req, now))
  {
    hide Execute;
    hide UnlinkNode;
    hide RmdirNode;
    hide RenameNode;
    hide ImportNode;
    hide Ids;
    hide Grounded;
    hide Inv;
    hide Tree;
    hide NamespaceStep;
    hide CreateNode;
    hide LinkNode;
    Dispatch(t, req, now);
    TreeIds(t);
    match req
    case Create(parent, name, ft, mode, uid, gid, exp) =>
      CreateKeepsTree(t, exp, parent, name, ft, mode, uid, gid, None, now);
      CreateStep(t, exp, parent, name, ft, mode, uid, gid, None, now);
      NamespaceKeepsInv(t, CreateNode(t, exp, parent, name, ft, mode, uid, gid, None, now).tables);
    case MakeSymlink(parent, name, target, uid, gid, exp) =>
      CreateKeepsTree(t, exp, parent, name, Symlink, 0x1ff, uid, gid, Some(target), now);
      CreateStep(t, exp, parent, name, Symlink, 0x1ff, uid, gid, Some(target), now);
      NamespaceKeepsInv(t, CreateNode(t, exp, parent, name, Symlink, 0x1ff, uid, gid, Some(target), now).tables);
    case Link(id, parent, name, exp) =>
      LinkKeepsTree(t, exp, id, parent, name, now);
      LinkStep(t, exp, id, parent, name, now);
      NamespaceKeepsInv(t, LinkNode(t, exp, id, parent, name, now).tables);
  }

  lemma RemovingSound(t: Tables, req: Request, now: int)
    requires Inv(t) && Tree(t) && (req.Unlink? || req.Rmdir?)
    ensures Sound(t, Execute(t, req, now))
  {
    hide Execute;
    hide CreateNode;
    hide LinkNode;
    hide RenameNode;
    hide ImportNode;
    hide Ids;
    hide Grounded;
    hide Inv;
    hide Tree;
    hide NamespaceStep;
    hide UnlinkNode;
    hide RmdirNode;
    Dispatch(t, req, now);
    TreeIds(t);
    match req
    case Unlink(parent, name, exp) =>
      UnlinkKeepsTree(t, exp, parent, name, now);
      UnlinkStep(t, exp, parent, name, now);
      NamespaceKeepsInv(t, UnlinkNode(t, exp, parent, name, now).tables);
    case Rmdir(parent, name, exp) =>
      RmdirKeepsTree(t, exp, parent, name, now);
      RmdirStep(t, exp, parent, name, now);
      NamespaceKeepsInv(t, RmdirNode(t, exp, parent, name, now).tables);
  }

  lemma RenameSound(t: Tables, req: Request, now: int)
    requires Inv(t) && Tree(t) && req.Rename?
    ensures Sound(t, Execute(t, req, now))
  {
    hide Execute;
    hide CreateNode;
    hide LinkNode;
    hide UnlinkNode;
    hide RmdirNode;
    hide ImportNode;
    hide Inv;
    hide Tree;
    hide NamespaceStep;
    hide RenameNode;
    Dispatch(t, req, now);
    var Rename(op, on, eo, np, nn, en, nr) := req;
    RenameKeepsTree(t, op, on, eo, np, nn, en, nr, now);
    NamespaceKeepsInv(t, RenameNode(t, op, on, eo, np, nn, en, nr, now).tables);
  }

  lemma HandleSound(t: Tables, req: Request, now: int)
    requires Inv(t) && (req.OpenInode? || req.CloseInode? || req.RecoverSession?)
    ensures Sound(t, Execute(t, req, now))
  {
    hide Execute;
    hide Tree;
    hide NamespaceStep;
    hide FilesOk;
    hide Fenced;
    hide OpenNode;
    hide CloseNode;
    hide RecoverNode;
    Dispatch(t, req, now);
    match req
    case OpenInode(session, id) => OpenKeepsTree(t, session, id); NamespaceKeepsInv(t, Execute(t, req, now).0);
    case CloseInode(session, id) => CloseKeepsTree(t, session, id); NamespaceKeepsInv(t, Execute(t, req, now).0);
    case RecoverSession(session) => RecoverKeepsTree(t, session); NamespaceKeepsInv(t, Execute(t, req, now).0);
  }

  lemma DataSound(t: Tables, req: Request, now: int)
    requires Inv(t) && Admissible(t, req)
    requires req.ImportExternal? || req.SetXattr? || req.RemoveXattr? || req.PutInodeCas? || req.PutManifest?
             || req.CommitInodeManifest? || req.CommitReserved? || req.BeginFlush? || req.CommitFlush? || req.FailFlush?
    ensures Sound(t, Execute(t, req, now))
  {
    hide Execute;
    hide CreateNode;
    hide LinkNode;
    hide UnlinkNode;
    hide RmdirNode;
    hide RenameNode;
    hide Inv;
    hide ImportNode;
    hide SetXattrNode;
    hide RemoveXattrNode;
    hide PutInodeCasNode;
    hide PutManifestNode;
    hide CommitUnreservedNode;
    hide CommitReservedNode;
    hide BeginFlushNode;
    hide CommitFlushNode;
    hide FailFlushNode;
    hide BuiltFromRead;
    hide ImportTemplate;
    Dispatch(t, req, now);
    match req
    case ImportExternal(parent, name, template, m, exp) => ImportKeepsInv(t, exp, parent, name, template, m, now);
    case SetXattr(exp, id, name, value, mode) => SetXattrKeepsInv(t, exp, id, name, value, mode, now);
    case RemoveXattr(exp, id, name) => RemoveXattrKeepsInv(t, exp, id, name, now);
    case PutInodeCas(exp, inode) => CasKeepsInv(t, exp, inode);
    case PutManifest(m) => PutManifestKeepsInv(t, m);
    case CommitInodeManifest(exp, inode, m) => CommitUnreservedKeepsInv(t, exp, inode, m);
    case CommitReserved(ticket, exp, inode, m) => CommitReservedKeepsInv(t, ticket, exp, inode, m);
    case BeginFlush(exp, id, intent) => BeginFlushKeepsInv(t, exp, id, intent);
    case CommitFlush(exp, id, flushId, published) => CommitFlushKeepsInv(t, exp, id, flushId, published);
    case FailFlush(exp, id, flushId, message) => FailFlushKeepsInv(t, exp, id, flushId, message);
  }

  lemma CollectorSound(t: Tables, req: Request, now: int)
    requires Inv(t)
    requires MultiChunk(req) || req.ReserveChunks? || req.AbortReservation? || req.ExpireReservations?
             || req.TombstoneBatch?
    ensures Inv(Execute(t, req, now).0) && (!MultiChunk(req) ==> Sound(t, Execute(t, req, now)))
  {
    hide Execute;
    hide Inv;
    hide ReserveNode;
    hide ExpireNode;
    hide TombstoneNode;
    hide FinalizeNode;
    hide InitializeNode;
    hide AcknowledgeNode;
    hide TombstonesOnly;
    Dispatch(t, req, now);
    match req
    case ReserveChunks(ticket, id, exp, chunks, expires) => ReserveKeepsInv(t, ticket, id, exp, chunks, expires);
    case AbortReservation(ticket) => DropReservationsKeepsInv(t, {ticket});
    case ExpireReservations(cutoff, max) => ExpireKeepsInv(t, cutoff, max);
    case TombstoneBatch(candidates) => TombstoneKeepsInv(t, candidates);
    case FinalizeTombstones(chunks) =>
      FinalizeOnly(t, chunks);
      TombstonesOnlyKeepsInv(t, FinalizeNode(t, chunks).tables);
    case InitializeTargets(chunks, targets) =>
      InitializeOnly(t, chunks, targets);
      TombstonesOnlyKeepsInv(t, InitializeNode(t, chunks, targets).tables);
    case AcknowledgeDeletes(deleted) =>
      AcknowledgeOnly(t, deleted);
      TombstonesOnlyKeepsInv(t, AcknowledgeNode(t, deleted).tables);
  }

  /**
   Every request keeps the invariant, and one that fails leaves every table as
   it was although the transaction around it is committed.
   */
  lemma ExecuteSound(t: Tables, req: Request, now: int)
    requires Inv(t) && Admissible(t, req)
    ensures Inv(Execute(t, req, now).0)
    ensures Execute(t, req, now).1.Failed? && !MultiChunk(req) ==> Execute(t, req, now).0 == t
  {
    assert Tree(t);
    hide Inv;
    hide Execute;
    hide Admissible;
    hide Tree;
    if req.Create? || req.MakeSymlink? || req.Link? {
      AddingSound(t, req, now);
    } else if req.Unlink? || req.Rmdir? {
      RemovingSound(t, req, now);
    } else if req.Rename? {
      RenameSound(t, req, now);
    } else if req.OpenInode? || req.CloseInode? || req.RecoverSession? {
      HandleSound(t, req, now);
    } else if MultiChunk(req) || req.ReserveChunks? || req.AbortReservation? || req.ExpireReservations?
              || req.TombstoneBatch? {
      CollectorSound(t, req, now);
    } else {
      DataSound(t, req, now);
    }
  }
}
