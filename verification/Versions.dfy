/**
 A generation is a true version: as long as an inode keeps its generation, its
 record, its attributes and - for a directory - its entries are the same.
 */
module Versions {
  import opened Types
  import opened MetaTables
  import opened Namespace
  import opened NamespaceOps
  import opened Admission
  import opened DataOps
  import opened StateMachine

  /** Records advance by generation and ids are not reused. */
  ghost predicate RecordsEvolve(t: Tables, t': Tables) {
    && t.nextInode <= t'.nextInode
    && (forall i | i in t'.inodes && i !in t.inodes :: t.nextInode <= i)
    && (forall i | i in t.inodes && i in t'.inodes :: Advances(t.inodes[i], t'.inodes[i]))
  }

  /** A stored manifest never changes and its id is not reused. */
  ghost predicate ManifestsEvolve(t: Tables, t': Tables) {
    && t.nextManifest <= t'.nextManifest
    && (forall k | k in t'.manifests && k !in t.manifests :: t.nextManifest <= k)
    && (forall k | k in t.manifests && k in t'.manifests :: t'.manifests[k] == t.manifests[k])
  }

  predicate SameRow<V(==)>(m: map<(InodeId, string), V>, m': map<(InodeId, string), V>, key: (InodeId, string)) {
    if key in m then key in m' && m'[key] == m[key] else key !in m'
  }

  /** The inode is stored in both states, at the same generation. */
  predicate SameVersion(t: Tables, t': Tables, i: InodeId) {
    i in t.inodes && i in t'.inodes && t.inodes[i].generation == t'.inodes[i].generation
  }

  /** Entries and attributes of an inode are part of its version. */
  ghost predicate RowsEvolve(t: Tables, t': Tables) {
    && (forall key: DentryKey | SameVersion(t, t', key.0) :: SameRow(t.dentries, t'.dentries, key))
    && (forall key: XattrKey | SameVersion(t, t', key.0) :: SameRow(t.xattrs, t'.xattrs, key))
  }

  ghost predicate Evolves(t: Tables, t': Tables) {
    RecordsEvolve(t, t') && ManifestsEvolve(t, t') && RowsEvolve(t, t')
  }

  ghost predicate IdsBelow(t: Tables) {
    && (forall i | i in t.inodes :: t.inodes[i].id == i && i < t.nextInode)
    && (forall k | k in t.manifests :: k < t.nextManifest)
  }

  lemma RecordsTrans(t: Tables, u: Tables, v: Tables)
    requires IdsBelow(t) && RecordsEvolve(t, u) && RecordsEvolve(u, v)
    ensures RecordsEvolve(t, v)
    ensures forall i | SameVersion(t, v, i) :: SameVersion(t, u, i) && SameVersion(u, v, i)
  {
  }

  lemma EvolvesTrans(t: Tables, u: Tables, v: Tables)
    requires IdsBelow(t) && Evolves(t, u) && Evolves(u, v)
    ensures Evolves(t, v)
  {
    hide RecordsEvolve;
    hide SameVersion;
    RecordsTrans(t, u, v);
  }

  lemma EvolvesSelf(t: Tables)
    ensures Evolves(t, t)
  {
  }

  lemma StepRecords(t: Tables, t': Tables)
    requires NamespaceStep(t, t')
    ensures RecordsEvolve(t, t') && ManifestsEvolve(t, t')
  {
  }

  lemma InvIds(t: Tables)
    requires Inv(t)
    ensures IdsBelow(t) && Ids(t)
  {
    hide Tree;
    TreeIds(t);
  }

  lemma InvTree(t: Tables)
    requires Inv(t)
    ensures Tree(t)
  {
    hide Tree;
  }

  // ------------------------------------------------------------------ rows

  /** Only entries of directories that got a new generation changed. */
  ghost predicate NamesChanged(t: Tables, t': Tables, keys: set<DentryKey>) {
    && (forall key: DentryKey | key !in keys :: SameRow(t.dentries, t'.dentries, key))
    && (forall key: DentryKey | key in keys :: !SameVersion(t, t', key.0))
    && (forall key: XattrKey | key.0 in t.inodes && key.0 in t'.inodes :: SameRow(t.xattrs, t'.xattrs, key))
  }

  lemma NamesChangedRows(t: Tables, t': Tables, keys: set<DentryKey>)
    requires NamesChanged(t, t', keys)
    ensures RowsEvolve(t, t')
  {
    hide SameRow;
  }

  lemma BumpOne(t: Tables, parent: InodeId, expected: Option<nat>, now: int)
    requires BumpParent(t, parent, expected, now).Ok?
    ensures var t' := BumpParent(t, parent, expected, now).value;
            && parent in t.inodes && t' == t.(inodes := t.inodes[parent := t'.inodes[parent]])
            && t'.inodes[parent].generation == t.inodes[parent].generation + 1
            && t'.inodes[parent].id == t.inodes[parent].id
  {
  }

  lemma CreateRows(t: Tables, expected: Option<nat>, parent: InodeId, name: string, fileType: FileType,
                   mode: nat, uid: nat, gid: nat, target: Option<string>, now: int)
    requires IdsBelow(t)
    ensures RowsEvolve(t, CreateNode(t, expected, parent, name, fileType, mode, uid, gid, target, now).tables)
  {
    var o := CreateNode(t, expected, parent, name, fileType, mode, uid, gid, target, now);
    if o.result.Ok? { NamesChangedRows(t, o.tables, {(parent, name)}); }
  }

  lemma LinkRows(t: Tables, expected: Option<nat>, id: InodeId, parent: InodeId, name: string, now: int)
    requires IdsBelow(t)
    ensures RowsEvolve(t, LinkNode(t, expected, id, parent, name, now).tables)
  {
    var o := LinkNode(t, expected, id, parent, name, now);
    if o.result.Ok? {
      BumpOne(t, parent, expected, now);
      NamesChangedRows(t, o.tables, {(parent, name)});
    }
  }

  lemma RemoveLinkRows(t: Tables, child: Inode, now: int)
    requires IdsBelow(t) && child.id in t.inodes && t.inodes[child.id] == child
    ensures var t' := RemoveLink(t, child, now).tables;
            && (forall k: XattrKey | k.0 in t'.inodes :: SameRow(t.xattrs, t'.xattrs, k))
            && t'.dentries == t.dentries && t'.inodes.Keys <= t.inodes.Keys
            && (forall i | i in t'.inodes :: t'.inodes[i].generation >= t.inodes[i].generation)
  {
  }

  lemma UnlinkRows(t: Tables, expected: Option<nat>, parent: InodeId, name: string, now: int)
    requires IdsBelow(t)
    ensures RowsEvolve(t, UnlinkNode(t, expected, parent, name, now).tables)
  {
    var key := (parent, name);
    var t' := UnlinkNode(t, expected, parent, name, now).tables;
    if t' != t {
      BumpOne(t, parent, expected, now);
      var t1 := BumpParent(t, parent, expected, now).value.(dentries := t.dentries - {key});
      RemoveLinkRows(t1, t.inodes[t.dentries[key]], now);
      hide RemoveLink;
      NamesChangedRows(t, t', {key});
    }
  }

  lemma RmdirRows(t: Tables, expected: Option<nat>, parent: InodeId, name: string, now: int)
    requires IdsBelow(t)
    ensures RowsEvolve(t, RmdirNode(t, expected, parent, name, now).tables)
  {
    hide RowsEvolve;
    hide HasChildren;
    hide BumpParent;
    EvolvesSelf(t);
    var key := (parent, name);
    var o := RmdirNode(t, expected, parent, name, now);
    if o.result.Ok? {
      BumpOne(t, parent, expected, now);
      NamesChangedRows(t, o.tables, {key});
    }
  }

  lemma ClearRows(t: Tables, key: DentryKey, now: int)
    requires IdsBelow(t)
    ensures var t' := ClearDestination(t, key, now).tables;
            && (forall k: XattrKey | k.0 in t'.inodes :: SameRow(t.xattrs, t'.xattrs, k))
            && t'.dentries == t.dentries - {key} && t'.inodes.Keys <= t.inodes.Keys
            && (forall i | i in t'.inodes :: t'.inodes[i].generation >= t.inodes[i].generation)
  {
  }

  lemma BothBumped(t: Tables, a: InodeId, expA: Option<nat>, b: InodeId, expB: Option<nat>, now: int)
    requires IdsBelow(t) && BumpBoth(t, a, expA, b, expB, now).Ok?
    ensures var t' := BumpBoth(t, a, expA, b, expB, now).value;
            && t' == t.(inodes := t'.inodes) && t'.inodes.Keys == t.inodes.Keys && IdsBelow(t')
            && a in t.inodes && b in t.inodes
            && t'.inodes[a].generation > t.inodes[a].generation && t'.inodes[b].generation > t.inodes[b].generation
            && (forall i | i in t'.inodes :: t'.inodes[i].generation >= t.inodes[i].generation)
  {
    hide BumpParent;
    BumpOne(t, a, expA, now);
    if a != b { BumpOne(BumpParent(t, a, expA, now).value, b, expB, now); }
  }

  lemma MoveRows(t: Tables, source: Inode, oldKey: DentryKey, expOld: Option<nat>,
                 newKey: DentryKey, expNew: Option<nat>, now: int)
    requires Tree(t) && IdsBelow(t) && MoveReady(t, source, oldKey, newKey)
    requires !Mismatch(t.inodes[oldKey.0], expOld) && !Mismatch(t.inodes[newKey.0], expNew)
    ensures RowsEvolve(t, RenameMove(t, source, oldKey, expOld, newKey, expNew, now).tables)
  {
    hide Tree;
    hide RowsEvolve;
    hide NamespaceStep;
    hide ClearDestination;
    hide RenameMove;
    hide MoveReady;
    hide BumpBoth;
    hide SameRow;
    SourceApart(t, source, oldKey, newKey);
    var t3 := MoveMiddle(t, source, oldKey, expOld, newKey, expNew, now);
    BothBumped(t, oldKey.0, expOld, newKey.0, expNew, now);
    var t2 := BumpBoth(t, oldKey.0, expOld, newKey.0, expNew, now).value;
    ClearRows(t2, newKey, now);
    var t' := RenameMove(t, source, oldKey, expOld, newKey, expNew, now).tables;
    MovedNames(t, t2, t3, t', source, oldKey, newKey);
    NamesChangedRows(t, t', {oldKey, newKey});
  }

  lemma MovedNames(t: Tables, t2: Tables, t3: Tables, t': Tables, source: Inode, oldKey: DentryKey, newKey: DentryKey)
    requires t2 == t.(inodes := t2.inodes) && t2.inodes.Keys == t.inodes.Keys
    requires oldKey.0 in t.inodes && t2.inodes[oldKey.0].generation > t.inodes[oldKey.0].generation
    requires newKey.0 in t.inodes && t2.inodes[newKey.0].generation > t.inodes[newKey.0].generation
    requires source.id != oldKey.0 && source.id != newKey.0
    requires forall k: XattrKey | k.0 in t3.inodes :: SameRow(t2.xattrs, t3.xattrs, k)
    requires t3.dentries == t2.dentries - {newKey} && t3.inodes.Keys <= t2.inodes.Keys
    requires forall i | i in t3.inodes :: t3.inodes[i].generation >= t2.inodes[i].generation
    requires source.id in t'.inodes && source.id in t3.inodes
    requires t'.inodes == t3.inodes[source.id := t'.inodes[source.id]] && t'.xattrs == t3.xattrs
    requires t'.dentries == (t3.dentries - {oldKey})[newKey := source.id]
    ensures NamesChanged(t, t', {oldKey, newKey})
  {
  }

  lemma RenameRows(t: Tables, oldParent: InodeId, oldName: string, expOld: Option<nat>,
                   newParent: InodeId, newName: string, expNew: Option<nat>, noReplace: bool, now: int)
    requires Tree(t) && IdsBelow(t)
    ensures RowsEvolve(t, RenameNode(t, oldParent, oldName, expOld, newParent, newName, expNew, noReplace, now).tables)
  {
    hide Tree;
    hide IdsBelow;
    hide RowsEvolve;
    hide RenameNode;
    hide RenameMove;
    hide MoveReady;
    hide Grounded;
    EvolvesSelf(t);
    TreeIds(t);
    RenameIsMove(t, oldParent, oldName, expOld, newParent, newName, expNew, noReplace, now);
    if RenameNode(t, oldParent, oldName, expOld, newParent, newName, expNew, noReplace, now).tables != t {
      RenameReady(t, oldParent, oldName, expOld, newParent, newName, expNew, noReplace, now);
      var oldKey := (oldParent, oldName);
      MoveRows(t, t.inodes[t.dentries[oldKey]], oldKey, expOld, (newParent, newName), expNew, now);
    }
  }

  lemma DeleteRows(t: Tables, dead: set<InodeId>)
    ensures RowsEvolve(t, DeleteInodes(t, dead))
  {
    NamesChangedRows(t, DeleteInodes(t, dead), {});
  }

  // ------------------------------------------------------- kinds of request

  /** One record got a new version; only its own attributes may have changed with it. */
  ghost predicate NewVersion(t: Tables, t': Tables, next: Inode) {
    && next.id in t.inodes && t'.inodes == t.inodes[next.id := next]
    && next.generation > t.inodes[next.id].generation
    && t'.dentries == t.dentries && t'.nextInode == t.nextInode
    && (forall key: XattrKey | key.0 != next.id :: SameRow(t.xattrs, t'.xattrs, key))
    && ManifestsEvolve(t, t')
  }

  lemma NewVersionEvolves(t: Tables, t': Tables, next: Inode)
    requires NewVersion(t, t', next)
    ensures Evolves(t, t')
  {
    hide ManifestsEvolve;
  }

  lemma StoreEvolves(t: Tables, m: Manifest)
    requires IdsBelow(t)
    ensures ManifestsEvolve(t, StoreManifest(t, m)) && ManifestsEvolve(t, t)
  {
  }

  lemma XattrEvolves(t: Tables, req: Request, now: int)
    requires IdsBelow(t) && (req.SetXattr? || req.RemoveXattr? || req.PutInodeCas?)
    ensures Evolves(t, Execute(t, req, now).0)
  {
    hide Execute;
    hide Evolves;
    Dispatch(t, req, now);
    EvolvesSelf(t);
    var step := Execute(t, req, now);
    if step.1.InodeResponse? { NewVersionEvolves(t, step.0, step.1.inode); }
  }

  lemma CommitEvolves(t: Tables, expected: nat, inode: Inode, m: Manifest)
    requires IdsBelow(t) && BuiltFromRead(t, expected, inode, m)
    ensures Evolves(t, CommitManifestNode(t, expected, inode, m).tables)
  {
    hide Evolves;
    hide LocalChunks;
    EvolvesSelf(t);
    var o := CommitManifestNode(t, expected, inode, m);
    if o.result.Ok? {
      StoreEvolves(t, m);
      hide ManifestsEvolve;
      NewVersionEvolves(t, o.tables, o.result.value);
    }
  }

  lemma BeginFlushEvolves(t: Tables, expected: nat, id: InodeId, intent: FlushIntent)
    requires IdsBelow(t)
    ensures Evolves(t, BeginFlushNode(t, expected, id, intent).tables)
  {
    hide Evolves;
    EvolvesSelf(t);
    var o := BeginFlushNode(t, expected, id, intent);
    if o.result.Ok? { NewVersionEvolves(t, o.tables, o.result.value); }
  }

  lemma FailFlushEvolves(t: Tables, expected: nat, id: InodeId, flushId: FlushId, message: string)
    requires IdsBelow(t)
    ensures Evolves(t, FailFlushNode(t, expected, id, flushId, message).tables)
  {
    hide Evolves;
    EvolvesSelf(t);
    var o := FailFlushNode(t, expected, id, flushId, message);
    if o.result.Ok? { NewVersionEvolves(t, o.tables, o.result.value); }
  }

  lemma CommitFlushEvolves(t: Tables, expected: nat, id: InodeId, flushId: FlushId, published: UfsObject)
    requires IdsBelow(t)
    ensures Evolves(t, CommitFlushNode(t, expected, id, flushId, published).tables)
  {
    hide Evolves;
    EvolvesSelf(t);
    var o := CommitFlushNode(t, expected, id, flushId, published);
    if o.result.Ok? {
      StoreEvolves(t, CleanManifest(t.inodes[id], t.inodes[id].flushIntent.value, published));
      hide ManifestsEvolve;
      NewVersionEvolves(t, o.tables, o.result.value);
    }
  }

  lemma FlushEvolves(t: Tables, req: Request, now: int)
    requires IdsBelow(t) && (req.BeginFlush? || req.CommitFlush? || req.FailFlush?)
    ensures Evolves(t, Execute(t, req, now).0)
  {
    hide Execute;
    hide Evolves;
    hide IdsBelow;
    hide BeginFlushNode;
    hide CommitFlushNode;
    hide FailFlushNode;
    Dispatch(t, req, now);
    match req
    case BeginFlush(exp, id, intent) => BeginFlushEvolves(t, exp, id, intent);
    case CommitFlush(exp, id, flushId, published) => CommitFlushEvolves(t, exp, id, flushId, published);
    case FailFlush(exp, id, flushId, message) => FailFlushEvolves(t, exp, id, flushId, message);
  }

  lemma ImportEvolves(t: Tables, expected: Option<nat>, parent: InodeId, name: string, template: Inode,
                      manifest: Option<Manifest>, now: int)
    requires IdsBelow(t) && ImportTemplate(template, manifest)
    ensures Evolves(t, ImportNode(t, expected, parent, name, template, manifest, now).tables)
  {
    hide ImportNode;
    EvolvesSelf(t);
    ImportShape(t, expected, parent, name, template, manifest, now);
    var o := ImportNode(t, expected, parent, name, template, manifest, now);
    if o.result.Ok? {
      BumpOne(t, parent, expected, now);
      hide BumpParent;
      NamesChangedRows(t, o.tables, {(parent, name)});
      hide RowsEvolve;
    }
  }

  lemma NamespaceEvolves(t: Tables, req: Request, now: int)
    requires IdsBelow(t) && Tree(t)
    requires req.Create? || req.MakeSymlink? || req.Link? || req.Unlink? || req.Rmdir?
    ensures RowsEvolve(t, Execute(t, req, now).0) && NamespaceStep(t, Execute(t, req, now).0)
  {
    hide Execute;
    hide RenameNode;
    hide ImportNode;
    hide Tree;
    hide IdsBelow;
    hide Ids;
    hide Grounded;
    hide RowsEvolve;
    hide NamespaceStep;
    hide CreateNode;
    hide LinkNode;
    hide UnlinkNode;
    hide RmdirNode;
    Dispatch(t, req, now);
    TreeIds(t);
    StepSelf(t);
    EvolvesSelf(t);
    match req
    case Create(parent, name, ft, mode, uid, gid, exp) =>
      CreateRows(t, exp, parent, name, ft, mode, uid, gid, None, now);
      CreateStep(t, exp, parent, name, ft, mode, uid, gid, None, now);
    case MakeSymlink(parent, name, target, uid, gid, exp) =>
      CreateRows(t, exp, parent, name, Symlink, 0x1ff, uid, gid, Some(target), now);
      CreateStep(t, exp, parent, name, Symlink, 0x1ff, uid, gid, Some(target), now);
    case Link(id, parent, name, exp) =>
      LinkRows(t, exp, id, parent, name, now);
      LinkStep(t, exp, id, parent, name, now);
    case Unlink(parent, name, exp) =>
      UnlinkRows(t, exp, parent, name, now);
      UnlinkStep(t, exp, parent, name, now);
    case Rmdir(parent, name, exp) =>
      RmdirRows(t, exp, parent, name, now);
      RmdirStep(t, exp, parent, name, now);
  }

  lemma HandleEvolves(t: Tables, req: Request, now: int)
    requires Tree(t) && (req.Rename? || req.OpenInode? || req.CloseInode? || req.RecoverSession?) && IdsBelow(t)
    ensures RowsEvolve(t, Execute(t, req, now).0) && NamespaceStep(t, Execute(t, req, now).0)
  {
    hide Execute;
    hide Tree;
    hide RowsEvolve;
    hide NamespaceStep;
    hide RenameNode;
    hide ReapUnopened;
    Dispatch(t, req, now);
    EvolvesSelf(t);
    match req
    case Rename(op, on, eo, np, nn, en, nr) =>
      RenameRows(t, op, on, eo, np, nn, en, nr, now);
      RenameKeepsTree(t, op, on, eo, np, nn, en, nr, now);
    case OpenInode(session, id) =>
      OpenKeepsTree(t, session, id);
      RowsByTables(t, t, OpenNode(t, session, id).tables);
    case CloseInode(session, id) =>
      CloseKeepsTree(t, session, id);
      var t1 := t.(presences := t.presences - {(id, session)});
      ReapRows(t1, {id});
      RowsByTables(t, t1, CloseNode(t, session, id).tables);
    case RecoverSession(session) =>
      RecoverKeepsTree(t, session);
      var stale := set p | p in t.presences && p.1 == session;
      var t1 := t.(presences := t.presences - stale);
      ReapRows(t1, set p | p in stale :: p.0);
      RowsByTables(t, t1, RecoverNode(t, session).tables);
  }

  lemma ReapRows(t: Tables, ids: set<InodeId>)
    ensures RowsEvolve(t, ReapUnopened(t, ids))
  {
    hide DeleteInodes;
    hide RowsEvolve;
    DeleteRows(t, set i | i in ids && i in t.inodes && t.inodes[i].linkCount == 0 && !HasPresence(t.presences, i));
  }

  lemma RowsByTables(t: Tables, t1: Tables, t': Tables)
    requires t1 == t.(presences := t1.presences)
    requires RowsEvolve(t1, t') || t' == t.(presences := t'.presences)
    ensures RowsEvolve(t, t')
  {
    assert forall i :: SameVersion(t, t', i) <==> SameVersion(t1, t', i);
    hide SameVersion;
  }

  /** Records, entries and attributes stay as they are. */
  lemma RowsKept(t: Tables, t': Tables)
    requires SameRows(t, t')
    ensures Evolves(t, t')
  {
    hide ManifestsEvolve;
  }

  ghost predicate SameRows(t: Tables, t': Tables) {
    && t'.inodes == t.inodes && t'.dentries == t.dentries && t'.xattrs == t.xattrs && t'.nextInode == t.nextInode
    && ManifestsEvolve(t, t')
  }

  lemma CollectorTables(t: Tables, t': Tables)
    requires t' == t.(reservations := t'.reservations, tombstones := t'.tombstones)
    ensures SameRows(t, t')
  {
  }

  lemma TombstoneRows(t: Tables, candidates: set<ChunkId>)
    ensures SameRows(t, TombstoneNode(t, candidates).0)
  {
  }

  lemma ReserveRows(t: Tables, ticket: Ticket, id: InodeId, expected: nat, chunks: set<ChunkId>, expiresAt: nat)
    ensures SameRows(t, ReserveNode(t, ticket, id, expected, chunks, expiresAt).tables)
  {
  }

  lemma PutManifestRows(t: Tables, m: Manifest)
    requires IdsBelow(t)
    ensures SameRows(t, PutManifestNode(t, m).tables)
  {
  }

  lemma CollectorRows(t: Tables, req: Request, now: int)
    requires MultiChunk(req) || req.ReserveChunks? || req.AbortReservation? || req.ExpireReservations?
             || req.TombstoneBatch? || req.PutManifest?
    requires IdsBelow(t)
    ensures SameRows(t, Execute(t, req, now).0)
  {
    hide Execute;
    hide IdsBelow;
    hide SameRows;
    hide FinalizeNode;
    hide InitializeNode;
    hide AcknowledgeNode;
    hide ExpireNode;
    hide TombstoneNode;
    hide ReserveNode;
    hide PutManifestNode;
    Dispatch(t, req, now);
    match req
    case FinalizeTombstones(chunks) => FinalizeOnly(t, chunks); CollectorTables(t, FinalizeNode(t, chunks).tables);
    case InitializeTargets(chunks, targets) =>
      InitializeOnly(t, chunks, targets);
      CollectorTables(t, InitializeNode(t, chunks, targets).tables);
    case AcknowledgeDeletes(deleted) =>
      AcknowledgeOnly(t, deleted);
      CollectorTables(t, AcknowledgeNode(t, deleted).tables);
    case ExpireReservations(cutoff, max) =>
      ExpireOnly(t, cutoff, max);
      CollectorTables(t, ExpireNode(t, cutoff, max));
    case AbortReservation(ticket) => CollectorTables(t, t.(reservations := t.reservations - {ticket}));
    case TombstoneBatch(candidates) => TombstoneRows(t, candidates);
    case ReserveChunks(ticket, id, exp, chunks, expires) => ReserveRows(t, ticket, id, exp, chunks, expires);
    case PutManifest(m) => PutManifestRows(t, m);
  }

  lemma CommitStepEvolves(t: Tables, req: Request, now: int)
    requires IdsBelow(t) && (req.CommitInodeManifest? || req.CommitReserved?) && Admissible(t, req)
    ensures Evolves(t, Execute(t, req, now).0)
  {
    hide Execute;
    hide Evolves;
    hide IdsBelow;
    hide BuiltFromRead;
    hide CommitManifestNode;
    hide LocalChunks;
    Dispatch(t, req, now);
    EvolvesSelf(t);
    CommitEvolves(t, req.expected, req.inode, req.manifest);
    if req.CommitReserved? {
      DropTicket(t, CommitManifestNode(t, req.expected, req.inode, req.manifest).tables, req.ticket);
    }
  }

  /** Every request moves records, manifests, entries and attributes forward by version. */
  lemma ExecuteEvolves(t: Tables, req: Request, now: int)
    requires Inv(t) && Admissible(t, req)
    ensures Evolves(t, Execute(t, req, now).0)
  {
    InvIds(t);
    assert Tree(t);
    hide Inv;
    hide Tree;
    hide IdsBelow;
    hide Ids;
    hide RowsEvolve;
    hide RecordsEvolve;
    hide ManifestsEvolve;
    hide NamespaceStep;
    hide Execute;
    hide Admissible;
    var t' := Execute(t, req, now).0;
    if req.CommitInodeManifest? || req.CommitReserved? {
      CommitStepEvolves(t, req, now);
    } else if req.Create? || req.MakeSymlink? || req.Link? || req.Unlink? || req.Rmdir? {
      NamespaceEvolves(t, req, now);
      StepRecords(t, t');
    } else if req.Rename? || req.OpenInode? || req.CloseInode? || req.RecoverSession? {
      HandleEvolves(t, req, now);
      StepRecords(t, t');
    } else if req.SetXattr? || req.RemoveXattr? || req.PutInodeCas? {
      XattrEvolves(t, req, now);
    } else if req.BeginFlush? || req.CommitFlush? || req.FailFlush? {
      FlushEvolves(t, req, now);
    } else if req.ImportExternal? {
      ImportStepEvolves(t, req, now);
    } else {
      CollectorRows(t, req, now);
      RowsKept(t, t');
    }
  }

  lemma ImportStepEvolves(t: Tables, req: Request, now: int)
    requires IdsBelow(t) && req.ImportExternal? && Admissible(t, req)
    ensures Evolves(t, Execute(t, req, now).0)
  {
    hide Execute;
    hide CreateNode;
    hide LinkNode;
    hide UnlinkNode;
    hide RmdirNode;
    hide RenameNode;
    hide Evolves;
    hide ImportNode;
    Dispatch(t, req, now);
    ImportEvolves(t, req.expParent, req.parent, req.name, req.template, req.imported, now);
  }

  lemma DropTicket(t: Tables, t': Tables, ticket: Ticket)
    requires Evolves(t, t')
    ensures Evolves(t, t'.(reservations := t'.reservations - {ticket}))
  {
    var u := t'.(reservations := t'.reservations - {ticket});
    assert forall i :: SameVersion(t, t', i) <==> SameVersion(t, u, i);
  }
}
