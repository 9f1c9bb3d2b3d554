/**
 While a flush intent is recorded the flushed head cannot move.
 */
module FlushRuns {
  import opened Types
  import opened MetaTables
  import opened NamespaceOps
  import opened Admission
  import opened FileState
  import opened DataOps
  import opened StateMachine
  import opened Versions
  import opened Runs

  /** Requests that may change the data of inode `i`. */
  predicate DataRequestFor(req: Request, i: InodeId) {
    match req
    case CommitInodeManifest(_, inode, _) => inode.id == i
    case CommitReserved(_, _, inode, _) => inode.id == i
    case BeginFlush(_, id, _) => id == i
    case CommitFlush(_, id, _, _) => id == i
    case FailFlush(_, id, _, _) => id == i
    case _ => false
  }

  ghost predicate ContentKept(t: Tables, t': Tables, i: InodeId) {
    i in t.inodes && i in t'.inodes ==> ContentOf(t'.inodes[i]) == ContentOf(t.inodes[i])
  }

  lemma RecordContent(t: Tables, req: Request, now: int, i: InodeId)
    requires IdsBelow(t) && (req.SetXattr? || req.RemoveXattr? || req.PutInodeCas?)
    ensures ContentKept(t, Execute(t, req, now).0, i)
  {
    hide Execute;
    hide TotalBytes;
    hide ValidAcl;
    hide ValidXattrName;
    Dispatch(t, req, now);
  }

  lemma BeginContent(t: Tables, expected: nat, id: InodeId, intent: FlushIntent, i: InodeId)
    requires IdsBelow(t) && id != i
    ensures ContentKept(t, BeginFlushNode(t, expected, id, intent).tables, i)
  {
    hide DeriveLabel;
  }

  lemma FailContent(t: Tables, expected: nat, id: InodeId, flushId: FlushId, message: string, i: InodeId)
    requires IdsBelow(t) && id != i
    ensures ContentKept(t, FailFlushNode(t, expected, id, flushId, message).tables, i)
  {
    hide DeriveLabel;
  }

  lemma FinishContent(t: Tables, expected: nat, id: InodeId, flushId: FlushId, published: UfsObject, i: InodeId)
    requires IdsBelow(t) && id != i
    ensures ContentKept(t, CommitFlushNode(t, expected, id, flushId, published).tables, i)
  {
    hide DeriveLabel;
    hide CleanManifest;
  }

  lemma FlushContent(t: Tables, req: Request, now: int, i: InodeId)
    requires IdsBelow(t) && (req.BeginFlush? || req.CommitFlush? || req.FailFlush?) && req.id != i
    ensures ContentKept(t, Execute(t, req, now).0, i)
  {
    hide Execute;
    hide IdsBelow;
    hide ContentKept;
    hide BeginFlushNode;
    hide CommitFlushNode;
    hide FailFlushNode;
    Dispatch(t, req, now);
    match req
    case BeginFlush(exp, id, intent) => BeginContent(t, exp, id, intent, i);
    case CommitFlush(exp, id, flushId, published) => FinishContent(t, exp, id, flushId, published, i);
    case FailFlush(exp, id, flushId, message) => FailContent(t, exp, id, flushId, message, i);
  }

  lemma CommitContent(t: Tables, req: Request, now: int, i: InodeId)
    requires IdsBelow(t) && (req.CommitInodeManifest? || req.CommitReserved?) && req.inode.id != i
    ensures ContentKept(t, Execute(t, req, now).0, i)
  {
    hide Execute;
    hide LocalChunks;
    Dispatch(t, req, now);
  }

  lemma ImportContent(t: Tables, req: Request, now: int, i: InodeId)
    requires IdsBelow(t) && req.ImportExternal? && Admissible(t, req)
    ensures ContentKept(t, Execute(t, req, now).0, i)
  {
    hide Execute;
    hide CreateNode;
    hide LinkNode;
    hide UnlinkNode;
    hide RmdirNode;
    hide RenameNode;
    hide ImportNode;
    hide ImportTemplate;
    Dispatch(t, req, now);
    ImportShape(t, req.expParent, req.parent, req.name, req.template, req.imported, now);
  }

  lemma StepContent(t: Tables, t': Tables, i: InodeId)
    requires NamespaceStep(t, t')
    ensures ContentKept(t, t', i)
  {
    hide NewcomersBare;
    hide ReservationsFollow;
  }

  lemma SameRowsContent(t: Tables, t': Tables, i: InodeId)
    requires SameRows(t, t')
    ensures ContentKept(t, t', i)
  {
    hide ManifestsEvolve;
  }

  /** File data changes only through requests addressed to that file. */
  lemma ContentChangesOnlyByData(t: Tables, req: Request, now: int, i: InodeId)
    requires Inv(t) && Admissible(t, req) && !DataRequestFor(req, i)
    ensures ContentKept(t, Execute(t, req, now).0, i)
  {
    hide Inv;
    hide Namespace.Tree;
    hide IdsBelow;
    hide Ids;
    hide Execute;
    hide Admissible;
    hide NamespaceStep;
    hide SameRows;
    hide RowsEvolve;
    hide ContentKept;
    InvIds(t);
    InvTree(t);
    var t' := Execute(t, req, now).0;
    if req.ImportExternal? {
      ImportContent(t, req, now, i);
    } else if req.Rename? || IsHandle(req) {
      HandleEvolves(t, req, now);
      StepContent(t, t', i);
    } else if IsName(req) {
      NamespaceEvolves(t, req, now);
      StepContent(t, t', i);
    } else if IsFlush(req) {
      FlushContent(t, req, now, i);
    } else if IsCommit(req) {
      CommitContent(t, req, now, i);
    } else if IsCollector(req) || req.PutManifest? {
      CollectorRows(t, req, now);
      SameRowsContent(t, t', i);
    } else {
      RecordContent(t, req, now, i);
    }
  }

  /** A recorded intent blocks commits. */
  lemma CommitBlocked(t: Tables, req: Request, i: InodeId)
    requires IsCommit(req) && req.inode.id == i && i in t.inodes && t.inodes[i].flushIntent.Some?
    ensures ExecuteCommit(t, req).0 == t
  {
    hide LocalChunks;
    hide Ordered;
  }

  /** A recorded intent is kept, or resolved by its own commit or failure. */
  ghost predicate KeptOrResolved(t: Tables, t': Tables, i: InodeId) {
    t' == t || (i in t'.inodes && t'.inodes[i].flushIntent.None?)
  }

  lemma BeginBlocked(t: Tables, expected: nat, i: InodeId, intent: FlushIntent)
    requires i in t.inodes && t.inodes[i].flushIntent.Some?
    ensures BeginFlushNode(t, expected, i, intent).tables == t
  {
  }

  lemma CommitResolves(t: Tables, expected: nat, i: InodeId, flushId: FlushId, published: UfsObject)
    requires IdsBelow(t) && i in t.inodes
    ensures KeptOrResolved(t, CommitFlushNode(t, expected, i, flushId, published).tables, i)
  {
    hide DeriveLabel;
    hide CleanManifest;
  }

  lemma FailResolves(t: Tables, expected: nat, i: InodeId, flushId: FlushId, message: string)
    requires IdsBelow(t) && i in t.inodes
    ensures KeptOrResolved(t, FailFlushNode(t, expected, i, flushId, message).tables, i)
  {
    hide DeriveLabel;
  }

  lemma FlushBlocked(t: Tables, req: Request, i: InodeId)
    requires IdsBelow(t) && IsFlush(req) && req.id == i && i in t.inodes && t.inodes[i].flushIntent.Some?
    ensures KeptOrResolved(t, ExecuteFlush(t, req).0, i)
  {
    hide IdsBelow;
    hide BeginFlushNode;
    hide CommitFlushNode;
    hide FailFlushNode;
    match req
    case BeginFlush(exp, id, intent) => BeginBlocked(t, exp, id, intent);
    case CommitFlush(exp, id, flushId, published) => CommitResolves(t, exp, id, flushId, published);
    case FailFlush(exp, id, flushId, message) => FailResolves(t, exp, id, flushId, message);
  }

  /** No request moves the head of a file while its intent stays recorded. */
  lemma FrozenStep(t: Tables, req: Request, now: int, i: InodeId)
    requires Inv(t) && Admissible(t, req) && i in t.inodes && t.inodes[i].flushIntent.Some?
    requires i in Execute(t, req, now).0.inodes && Execute(t, req, now).0.inodes[i].flushIntent.Some?
    ensures ContentOf(Execute(t, req, now).0.inodes[i]) == ContentOf(t.inodes[i])
  {
    hide Inv;
    hide Execute;
    hide ExecuteCommit;
    hide ExecuteFlush;
    hide Admissible;
    hide IdsBelow;
    InvIds(t);
    Dispatch(t, req, now);
    if IsCommit(req) && req.inode.id == i {
      CommitBlocked(t, req, i);
    } else if IsFlush(req) && req.id == i {
      FlushBlocked(t, req, i);
    } else {
      ContentChangesOnlyByData(t, req, now, i);
    }
  }

  /** From recording an intent to resolving it, the file's data is the snapshot. */
  lemma {:induction false} FrozenRun(s: seq<Tables>, log: seq<Entry>, a: nat, b: nat, i: InodeId)
    requires IsRun(s, log) && Inv(s[0]) && a <= b < |s|
    requires forall k | a <= k <= b :: i in s[k].inodes && s[k].inodes[i].flushIntent.Some?
    ensures ContentOf(s[b].inodes[i]) == ContentOf(s[a].inodes[i])
    ensures s[b].inodes[i].headGen == s[a].inodes[i].flushIntent.value.snapshotGen
    decreases b
  {
    hide Execute;
    hide Inv;
    if a < b {
      FrozenRun(s, log, a, b - 1, i);
      RunKeepsInv(s, log, b - 1);
      assert StepAt(s, log, b - 1);
      FrozenStep(s[b-1], log[b-1].req, log[b-1].now, i);
    } else {
      RunKeepsInv(s, log, a);
      IntentIsHead(s[a], i);
    }
  }

  lemma IntentIsHead(t: Tables, i: InodeId)
    requires Inv(t) && i in t.inodes && t.inodes[i].flushIntent.Some?
    ensures t.inodes[i].headGen == t.inodes[i].flushIntent.value.snapshotGen
    ensures t.inodes[i].fileType == Regular && t.inodes[i].fields.Some? && t.inodes[i].fields.value.dataState == Dirty
  {
    assert FileOk(t.inodes[i], t.manifests);
    hide Inv;
  }

  /** Completing a flush never takes the conflict branch, in any reachable state. */
  lemma FlushCommitsClean(t: Tables, expected: nat, id: InodeId, flushId: FlushId, published: UfsObject)
    requires Inv(t)
    ensures var o := CommitFlushNode(t, expected, id, flushId, published);
            o.result.Ok? ==>
              && o.result.value.fields.value.dataState == UfsClean && o.result.value.flushIntent.None?
              && o.result.value.headGen == o.result.value.ufsGen == t.inodes[id].headGen
              && o.result.value.size == t.inodes[id].size
  {
    InvIds(t);
    if id in t.inodes {
      assert FileOk(t.inodes[id], t.manifests);
      hide Inv;
      CommitFlushOk(t, expected, id, flushId, published);
    }
  }
}
