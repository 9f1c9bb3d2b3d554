/**
 Whole runs of the metadata state machine.
 */
module Runs {
  import opened Types
  import opened MetaTables
  import opened Namespace
  import opened NamespaceOps
  import opened Admission
  import opened FileState
  import opened Fencing
  import opened DataOps
  import opened StateMachine
  import opened Versions

  datatype Entry = Entry(req: Request, now: int)

  /** `s[k+1]` is what the k-th entry makes of `s[k]`. */
  ghost predicate IsRun(s: seq<Tables>, log: seq<Entry>) {
    && |s| == |log| + 1
    && forall k | 0 <= k < |log| :: StepAt(s, log, k)
  }

  ghost predicate StepAt(s: seq<Tables>, log: seq<Entry>, k: nat)
    requires k < |log| && k + 1 < |s|
  {
    && Admissible(s[k], log[k].req)
    && s[k+1] == Execute(s[k], log[k].req, log[k].now).0
  }

  /** The invariant holds in every state of every run. */
  lemma {:induction false} RunKeepsInv(s: seq<Tables>, log: seq<Entry>, k: nat)
    requires IsRun(s, log) && Inv(s[0]) && k < |s|
    ensures Inv(s[k])
    decreases k
  {
    hide Inv;
    if k > 0 {
      RunKeepsInv(s, log, k - 1);
      assert StepAt(s, log, k - 1);
      ExecuteSound(s[k-1], log[k-1].req, log[k-1].now);
    }
  }

  lemma {:induction false} RunEvolves(s: seq<Tables>, log: seq<Entry>, a: nat, b: nat)
    requires IsRun(s, log) && Inv(s[0]) && a <= b < |s|
    ensures Evolves(s[a], s[b])
    decreases b
  {
    hide Inv;
    hide Evolves;
    if a == b {
      EvolvesSelf(s[a]);
    } else {
      RunEvolves(s, log, a, b - 1);
      RunKeepsInv(s, log, a);
      RunKeepsInv(s, log, b - 1);
      assert StepAt(s, log, b - 1);
      ExecuteEvolves(s[b-1], log[b-1].req, log[b-1].now);
      InvIds(s[a]);
      EvolvesTrans(s[a], s[b-1], s[b]);
    }
  }

  /** Two states that agree on an inode's generation agree on its record, entries and attributes. */
  lemma GenerationIsVersion(s: seq<Tables>, log: seq<Entry>, a: nat, b: nat, i: InodeId)
    requires IsRun(s, log) && Inv(s[0]) && a < |s| && b < |s| && SameVersion(s[a], s[b], i)
    ensures s[a].inodes[i] == s[b].inodes[i]
    ensures forall n: string :: SameRow(s[a].dentries, s[b].dentries, (i, n))
    ensures forall n: string :: SameRow(s[a].xattrs, s[b].xattrs, (i, n))
  {
    hide Inv;
    if a <= b {
      RunEvolves(s, log, a, b);
    } else {
      RunEvolves(s, log, b, a);
      assert forall n: string :: SameRow(s[b].dentries, s[a].dentries, (i, n));
      assert forall n: string :: SameRow(s[b].xattrs, s[a].xattrs, (i, n));
    }
  }

  /**
   A commit computed from an earlier read is, whenever it passes the generation
   check, computed from the current record: nothing that happened in between is lost.
   */
  lemma CommitSeesCurrent(s: seq<Tables>, log: seq<Entry>, a: nat, b: nat, i: InodeId, next: Inode, m: Manifest)
    requires IsRun(s, log) && Inv(s[0]) && a <= b < |s| && i in s[a].inodes
    requires DataCommit(s[a].inodes[i], next, m)
    ensures BuiltFromRead(s[b], s[a].inodes[i].generation, next, m)
  {
    hide Inv;
    hide DataCommit;
    RunKeepsInv(s, log, a);
    InvIds(s[a]);
    CommitIdentity(s[a].inodes[i], next, m);
    if i in s[b].inodes && s[b].inodes[i].generation == s[a].inodes[i].generation {
      GenerationIsVersion(s, log, a, b, i);
    }
  }

  // -------------------------------------------------------- open handles

  lemma AddingKeepsPresence(t: Tables, req: Request, now: int)
    requires req.Create? || req.MakeSymlink? || req.Link? || req.ImportExternal?
    ensures Execute(t, req, now).0.presences == t.presences
  {
    hide Execute;
    hide UnlinkNode;
    hide RmdirNode;
    hide RenameNode;
    Dispatch(t, req, now);
  }

  lemma RemovingKeepsPresence(t: Tables, req: Request, now: int, p: Presence)
    requires Ids(t) && p in t.presences && p.0 in t.inodes && t.inodes[p.0].fileType == Regular
    requires req.Unlink? || req.Rmdir?
    ensures p in Execute(t, req, now).0.presences
  {
    Dispatch(t, req, now);
    hide Execute;
    hide CreateNode;
    hide LinkNode;
    hide RenameNode;
    hide ImportNode;
    assert HasPresence(t.presences, p.0);
    hide HasPresence;
    hide HasChildren;
    match req
    case Unlink(parent, name, exp) => assert p in UnlinkNode(t, exp, parent, name, now).tables.presences;
    case Rmdir(parent, name, exp) => assert p in RmdirNode(t, exp, parent, name, now).tables.presences;
  }

  /** An open file is stored, and its chunks carry no tombstone. */
  lemma PresenceMeans(t: Tables, p: Presence)
    requires Tree(t) && p in t.presences
    ensures Ids(t) && p.0 in t.inodes && t.inodes[p.0].fileType == Regular
  {
    hide Grounded;
    hide Counted;
    hide Rooted;
    TreeIds(t);
  }

  lemma HeldFile(t: Tables, i: InodeId)
    requires Fenced(t) && i in t.inodes && t.inodes[i].manifestId.Some?
    ensures t.inodes[i].manifestId.value in t.manifests
    ensures LocalChunks(t.manifests[t.inodes[i].manifestId.value]) !! t.tombstones.Keys
  {
    hide LocalChunks;
  }

  lemma ClearKeepsPresence(t: Tables, key: DentryKey, now: int, p: Presence)
    requires p in t.presences && Ids(t) && p.0 in t.inodes && t.inodes[p.0].fileType == Regular
    ensures p in ClearDestination(t, key, now).tables.presences
  {
    assert HasPresence(t.presences, p.0);
  }

  lemma RenameKeepsPresence(t: Tables, oldParent: InodeId, oldName: string, expOld: Option<nat>,
                            newParent: InodeId, newName: string, expNew: Option<nat>, noReplace: bool, now: int,
                            p: Presence)
    requires Tree(t) && p in t.presences
    ensures p in RenameNode(t, oldParent, oldName, expOld, newParent, newName, expNew, noReplace, now).tables.presences
  {
    hide Tree;
    hide RenameMove;
    hide RenameNode;
    hide Ids;
    PresenceMeans(t, p);
    RenameIsMove(t, oldParent, oldName, expOld, newParent, newName, expNew, noReplace, now);
    var oldKey, newKey := (oldParent, oldName), (newParent, newName);
    if oldKey in t.dentries && t.dentries[oldKey] in t.inodes {
      MoveKeepsPresence(t, t.inodes[t.dentries[oldKey]], oldKey, expOld, newKey, expNew, now, p);
    }
  }

  lemma MoveKeepsPresence(t: Tables, source: Inode, oldKey: DentryKey, expOld: Option<nat>,
                          newKey: DentryKey, expNew: Option<nat>, now: int, p: Presence)
    requires Ids(t) && p in t.presences && p.0 in t.inodes && t.inodes[p.0].fileType == Regular
    ensures p in RenameMove(t, source, oldKey, expOld, newKey, expNew, now).tables.presences
  {
    hide ClearDestination;
    var t2 := BumpBoth(t, oldKey.0, expOld, newKey.0, expNew, now);
    if t2.Ok? {
      BumpBothShape(t, oldKey.0, expOld, newKey.0, expNew, now);
      ClearKeepsPresence(t2.value, newKey, now, p);
    }
  }

  lemma HandleKeepsPresence(t: Tables, req: Request, now: int, p: Presence)
    requires p in t.presences
    requires req.OpenInode? || req.CloseInode? || req.RecoverSession?
    requires req != CloseInode(p.1, p.0) && req != RecoverSession(p.1)
    ensures p in Execute(t, req, now).0.presences
  {
    hide Execute;
    Dispatch(t, req, now);
    match req
    case OpenInode(_, _) =>
    case CloseInode(session, id) =>
      assert p in t.presences - {(id, session)};
      assert HasPresence(t.presences - {(id, session)}, p.0);
    case RecoverSession(session) =>
      var stale := set q | q in t.presences && q.1 == session;
      assert p in t.presences - stale;
      assert HasPresence(t.presences - stale, p.0);
  }

  /** Requests that never touch the presence table. */
  lemma OtherKeepsPresence(t: Tables, req: Request, now: int)
    requires req.SetXattr? || req.RemoveXattr? || req.PutInodeCas? || req.PutManifest?
             || req.CommitInodeManifest? || req.CommitReserved? || req.BeginFlush? || req.CommitFlush? || req.FailFlush?
             || req.ReserveChunks? || req.AbortReservation? || req.ExpireReservations? || req.TombstoneBatch?
             || MultiChunk(req)
    ensures Execute(t, req, now).0.presences == t.presences
  {
    hide Execute;
    hide FinalizeNode;
    hide InitializeNode;
    hide AcknowledgeNode;
    hide ExpireNode;
    hide LocalChunks;
    hide HeldChunks;
    hide ReservedChunks;
    hide HeldManifests;
    hide TotalBytes;
    hide ValidAcl;
    hide ValidXattrName;
    Dispatch(t, req, now);
    match req
    case FinalizeTombstones(chunks) => FinalizeOnly(t, chunks);
    case InitializeTargets(chunks, targets) => InitializeOnly(t, chunks, targets);
    case AcknowledgeDeletes(deleted) => AcknowledgeOnly(t, deleted);
    case ExpireReservations(cutoff, max) => ExpireOnly(t, cutoff, max);
    case _ =>
  }

  /** A handle lasts until it is closed or its session is recovered, whatever else happens. */
  lemma PresenceStays(t: Tables, req: Request, now: int, p: Presence)
    requires Inv(t) && p in t.presences
    requires req != CloseInode(p.1, p.0) && req != RecoverSession(p.1)
    ensures p in Execute(t, req, now).0.presences
  {
    assert Tree(t);
    hide Inv;
    hide Tree;
    if req.Rename? {
      hide RenameNode;
      var Rename(op, on, eo, np, nn, en, nr) := req;
      RenameKeepsPresence(t, op, on, eo, np, nn, en, nr, now, p);
    } else {
      hide Execute;
      if req.Create? || req.MakeSymlink? || req.Link? || req.ImportExternal? {
        AddingKeepsPresence(t, req, now);
      } else if req.Unlink? || req.Rmdir? {
        PresenceMeans(t, p);
        RemovingKeepsPresence(t, req, now, p);
      } else if req.OpenInode? || req.CloseInode? || req.RecoverSession? {
        HandleKeepsPresence(t, req, now, p);
      } else {
        OtherKeepsPresence(t, req, now);
      }
    }
  }

  lemma {:induction false} PresenceLasts(s: seq<Tables>, log: seq<Entry>, a: nat, b: nat, p: Presence)
    requires IsRun(s, log) && Inv(s[0]) && a <= b < |s| && p in s[a].presences
    requires forall k | a <= k < b :: log[k].req != CloseInode(p.1, p.0) && log[k].req != RecoverSession(p.1)
    ensures p in s[b].presences
    decreases b
  {
    hide Inv;
    hide Execute;
    if a < b {
      PresenceLasts(s, log, a, b - 1, p);
      RunKeepsInv(s, log, b - 1);
      assert StepAt(s, log, b - 1);
      PresenceStays(s[b-1], log[b-1].req, log[b-1].now, p);
    }
  }

  /** Between open and close the file stays stored and none of its chunks is tombstoned. */
  lemma OpenFileSurvives(s: seq<Tables>, log: seq<Entry>, a: nat, b: nat, p: Presence)
    requires IsRun(s, log) && Inv(s[0]) && a <= b < |s| && p in s[a].presences
    requires forall k | a <= k < b :: log[k].req != CloseInode(p.1, p.0) && log[k].req != RecoverSession(p.1)
    ensures p in s[b].presences && p.0 in s[b].inodes && s[b].inodes[p.0].fileType == Regular
    ensures s[b].inodes[p.0].manifestId.Some? ==>
              && s[b].inodes[p.0].manifestId.value in s[b].manifests
              && LocalChunks(s[b].manifests[s[b].inodes[p.0].manifestId.value]) !! s[b].tombstones.Keys
  {
    hide Inv;
    hide Execute;
    hide LocalChunks;
    hide IsRun;
    hide Tree;
    hide Fenced;
    PresenceLasts(s, log, a, b, p);
    RunKeepsInv(s, log, b);
    InvParts(s[b]);
    PresenceMeans(s[b], p);
    if s[b].inodes[p.0].manifestId.Some? { HeldFile(s[b], p.0); }
  }

  lemma InvParts(t: Tables)
    requires Inv(t)
    ensures Tree(t) && Fenced(t)
  {
    hide Tree;
    hide Fenced;
  }
}
