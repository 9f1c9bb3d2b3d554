/**
 Import, attribute, commit and flush requests: what each keeps, and that a
 request that fails has changed nothing.
 */
module DataOps {
  import opened Types
  import opened MetaTables
  import opened Namespace
  import opened NamespaceOps
  import opened Admission
  import opened FileState
  import opened Fencing

  /** Everything the replicated tables keep. */
  ghost predicate Inv(t: Tables) {
    Tree(t) && FilesOk(t) && Fenced(t)
  }

  lemma InvStored(t: Tables)
    requires Inv(t)
    ensures Stored(t)
  {
  }

  /** A namespace change keeps the rest of the invariant. */
  lemma NamespaceKeepsInv(t: Tables, t': Tables)
    requires Inv(t) && Tree(t') && NamespaceStep(t, t')
    ensures Inv(t')
  {
    hide Tree;
    NamespaceKeepsFiles(t, t');
    NamespaceKeepsFence(t, t');
  }

  // ----------------------------------------------------- record updates

  /** A new version of a record that touches neither data nor names. */
  lemma RecordKeepsInv(t: Tables, t': Tables, next: Inode)
    requires Inv(t) && next.id in t.inodes
    requires ContentOf(next) == ContentOf(t.inodes[next.id]) && next.linkCount == t.inodes[next.id].linkCount
    requires Advances(t.inodes[next.id], next)
    requires t' == t.(inodes := t.inodes[next.id := next], xattrs := t'.xattrs)
    ensures Inv(t')
  {
    hide Tree;
    hide FilesOk;
    hide Fenced;
    StepUpdate(t, next);
    SameShapeTree(t, t');
    NamespaceKeepsInv(t, t');
  }

  lemma SetXattrKeepsInv(t: Tables, expected: nat, id: InodeId, name: string, value: seq<byte>, mode: XattrMode,
                         now: int)
    requires Inv(t)
    ensures var o := SetXattrNode(t, expected, id, name, value, mode, now);
            Inv(o.tables) && (o.result.Err? ==> o.tables == t)
  {
    TreeIds(t);
    hide Inv;
    var o := SetXattrNode(t, expected, id, name, value, mode, now);
    if o.result.Ok? { RecordKeepsInv(t, o.tables, o.result.value); }
  }

  lemma RemoveXattrKeepsInv(t: Tables, expected: nat, id: InodeId, name: string, now: int)
    requires Inv(t)
    ensures var o := RemoveXattrNode(t, expected, id, name, now);
            Inv(o.tables) && (o.result.Err? ==> o.tables == t)
  {
    TreeIds(t);
    hide Inv;
    var o := RemoveXattrNode(t, expected, id, name, now);
    if o.result.Ok? { RecordKeepsInv(t, o.tables, o.result.value); }
  }

  lemma CasKeepsInv(t: Tables, expected: nat, inode: Inode)
    requires Inv(t)
    ensures var o := PutInodeCasNode(t, expected, inode);
            Inv(o.tables) && (o.result.Err? ==> o.tables == t)
  {
    hide Inv;
    var o := PutInodeCasNode(t, expected, inode);
    if o.result.Ok? { RecordKeepsInv(t, o.tables, inode); }
  }

  // ------------------------------------------------------------ new heads

  /** Switching a file to a new head. */
  lemma HeadKeepsInv(t: Tables, t': Tables, next: Inode)
    requires Inv(t) && next.id in t.inodes && t'.inodes == t.inodes[next.id := next]
    requires next.fileType == t.inodes[next.id].fileType && next.linkCount == t.inodes[next.id].linkCount
    requires t'.dentries == t.dentries && t'.presences == t.presences && t'.nextInode == t.nextInode
    requires ManifestsKept(t, t') && FileOk(next, t'.manifests) && Fenced(t')
    ensures Inv(t')
  {
    hide FilesOk;
    hide FileOk;
    hide Fenced;
    hide ManifestsKept;
    hide Tree;
    HeadShape(t, t', next);
    SameShapeTree(t, t');
    ReplaceKeepsFiles(t, t', next);
  }

  lemma HeadShape(t: Tables, t': Tables, next: Inode)
    requires Tree(t) && next.id in t.inodes && t'.inodes == t.inodes[next.id := next]
    requires next.fileType == t.inodes[next.id].fileType && next.linkCount == t.inodes[next.id].linkCount
    requires t'.dentries == t.dentries && t'.presences == t.presences && t'.nextInode == t.nextInode
    ensures SameShape(t, t')
  {
    hide Tree;
    TreeIds(t);
  }

  lemma StoreKeepsManifests(t: Tables, m: Manifest)
    requires Fenced(t)
    ensures ManifestsKept(t, StoreManifest(t, m))
  {
  }

  /** The data path's record is consistent with the manifest committed beside it. */
  lemma DataCommitOk(cur: Inode, next: Inode, m: Manifest, manifests: map<ManifestId, Manifest>, id: ManifestId)
    requires DataCommit(cur, next, m) && FileOk(cur, manifests) && cur.flushIntent.None?
    ensures FileOk(next.(manifestId := Some(id)), manifests[id := m])
  {
  }

  lemma CommitKeepsInv(t: Tables, expected: nat, inode: Inode, m: Manifest)
    requires Inv(t) && BuiltFromRead(t, expected, inode, m) && LocalChunks(m) !! t.tombstones.Keys
    ensures var o := CommitManifestNode(t, expected, inode, m);
            && Inv(o.tables) && (o.result.Err? ==> o.tables == t)
            && (o.result.Ok? ==> NewHead(t, o.tables, o.result.value, m) && DataCommit(t.inodes[inode.id], inode, m))
  {
    hide Tree;
    hide Fenced;
    hide LocalChunks;
    hide FileOk;
    hide DataCommit;
    var o := CommitManifestNode(t, expected, inode, m);
    if o.result.Ok? {
      CommitIdentity(t.inodes[inode.id], inode, m);
      DataCommitOk(t.inodes[inode.id], inode, m, t.manifests, t.nextManifest);
      StoreKeepsManifests(t, m);
      NewHeadKeepsFence(t, o.tables, o.result.value, m);
      HeadKeepsInv(t, o.tables, o.result.value);
    }
  }

  lemma CommitIdentity(cur: Inode, next: Inode, m: Manifest)
    requires DataCommit(cur, next, m)
    ensures next.id == cur.id && next.fileType == cur.fileType && next.linkCount == cur.linkCount
  {
  }

  lemma CommitUnreservedKeepsInv(t: Tables, expected: nat, inode: Inode, m: Manifest)
    requires Inv(t) && BuiltFromRead(t, expected, inode, m)
    ensures var o := CommitUnreservedNode(t, expected, inode, m);
            Inv(o.tables) && (o.result.Err? ==> o.tables == t)
  {
    hide Inv;
    if LocalChunks(m) == {} { CommitKeepsInv(t, expected, inode, m); }
  }

  /** Taking the ticket away with the commit. */
  lemma DropReservationsKeepsInv(t: Tables, tickets: set<Ticket>)
    requires Inv(t)
    ensures Inv(t.(reservations := t.reservations - tickets))
  {
    hide FilesOk;
    hide LocalChunks;
    hide Linked;
    hide Rooted;
    hide Fenced;
    var t' := t.(reservations := t.reservations - tickets);
    DropKeepsFence(t, t');
    SameShapeTree(t, t');
    UnchangedKeepsFiles(t, t');
  }

  lemma CommitReservedKeepsInv(t: Tables, ticket: Ticket, expected: nat, inode: Inode, m: Manifest)
    requires Inv(t) && BuiltFromRead(t, expected, inode, m)
    ensures var o := CommitReservedNode(t, ticket, expected, inode, m);
            Inv(o.tables) && (o.result.Err? ==> o.tables == t)
  {
    assert ReservedApart(t);
    hide Inv;
    hide BuiltFromRead;
    if ticket in t.reservations && LocalChunks(m) == t.reservations[ticket].chunks {
      CommitKeepsInv(t, expected, inode, m);
      var o := CommitManifestNode(t, expected, inode, m);
      DropReservationsKeepsInv(o.tables, {ticket});
    }
  }

  // ---------------------------------------------------------------- flush

  lemma BeginFlushOk(t: Tables, expected: nat, id: InodeId, intent: FlushIntent)
    requires id in t.inodes && FileOk(t.inodes[id], t.manifests)
    ensures var o := BeginFlushNode(t, expected, id, intent);
            o.result.Ok? ==> FileOk(o.result.value, t.manifests)
  {
  }

  lemma FailFlushOk(t: Tables, expected: nat, id: InodeId, flushId: FlushId, message: string)
    requires id in t.inodes && FileOk(t.inodes[id], t.manifests)
    ensures var o := FailFlushNode(t, expected, id, flushId, message);
            o.result.Ok? ==> FileOk(o.result.value, t.manifests)
  {
  }

  /** A flush commits cleanly: the head cannot have moved since the intent was recorded. */
  lemma CommitFlushOk(t: Tables, expected: nat, id: InodeId, flushId: FlushId, published: UfsObject)
    requires id in t.inodes && FileOk(t.inodes[id], t.manifests) && t.inodes[id].id == id
    ensures var o := CommitFlushNode(t, expected, id, flushId, published);
            o.result.Ok? ==>
              && FileOk(o.result.value, o.tables.manifests)
              && o.result.value.fields.value.dataState == UfsClean
              && o.result.value.headGen == o.result.value.ufsGen == t.inodes[id].headGen
              && o.result.value.size == t.inodes[id].size
  {
  }

  lemma BeginFlushKeepsInv(t: Tables, expected: nat, id: InodeId, intent: FlushIntent)
    requires Inv(t)
    ensures var o := BeginFlushNode(t, expected, id, intent);
            Inv(o.tables) && (o.result.Err? ==> o.tables == t)
  {
    hide Tree;
    hide Fenced;
    hide FileOk;
    TreeIds(t);
    var o := BeginFlushNode(t, expected, id, intent);
    if o.result.Ok? {
      BeginFlushOk(t, expected, id, intent);
      RecordKeepsFence(t, o.tables, o.result.value);
      HeadKeepsInv(t, o.tables, o.result.value);
    }
  }

  lemma FailFlushKeepsInv(t: Tables, expected: nat, id: InodeId, flushId: FlushId, message: string)
    requires Inv(t)
    ensures var o := FailFlushNode(t, expected, id, flushId, message);
            Inv(o.tables) && (o.result.Err? ==> o.tables == t)
  {
    hide Tree;
    hide Fenced;
    hide FileOk;
    TreeIds(t);
    var o := FailFlushNode(t, expected, id, flushId, message);
    if o.result.Ok? {
      FailFlushOk(t, expected, id, flushId, message);
      RecordKeepsFence(t, o.tables, o.result.value);
      HeadKeepsInv(t, o.tables, o.result.value);
    }
  }

  lemma CommitFlushKeepsInv(t: Tables, expected: nat, id: InodeId, flushId: FlushId, published: UfsObject)
    requires Inv(t)
    ensures var o := CommitFlushNode(t, expected, id, flushId, published);
            Inv(o.tables) && (o.result.Err? ==> o.tables == t)
  {
    hide Tree;
    hide Fenced;
    hide FileOk;
    hide LocalChunks;
    TreeIds(t);
    var o := CommitFlushNode(t, expected, id, flushId, published);
    if o.result.Ok? {
      CommitFlushOk(t, expected, id, flushId, published);
      CommitFlushShape(t, expected, id, flushId, published);
      var m := CleanManifest(t.inodes[id], t.inodes[id].flushIntent.value, published);
      StoreKeepsManifests(t, m);
      if o.result.value.manifestId.None? {
        RecordKeepsFence(t, o.tables, o.result.value);
      } else {
        NewHeadKeepsFence(t, o.tables, o.result.value, m);
      }
      HeadKeepsInv(t, o.tables, o.result.value);
    }
  }

  /** Either the file is empty and lets go of its manifest, or it switches to one object range. */
  lemma CommitFlushShape(t: Tables, expected: nat, id: InodeId, flushId: FlushId, published: UfsObject)
    requires FilesOk(t) && Ids(t)
    requires CommitFlushNode(t, expected, id, flushId, published).result.Ok?
    ensures var o := CommitFlushNode(t, expected, id, flushId, published);
            var m := CleanManifest(t.inodes[id], t.inodes[id].flushIntent.value, published);
            && o.tables.dentries == t.dentries && o.tables.presences == t.presences && o.tables.nextInode == t.nextInode
            && o.tables.reservations == t.reservations && o.result.value.id == id
            && o.result.value.fileType == t.inodes[id].fileType && o.result.value.linkCount == t.inodes[id].linkCount
            && (if t.inodes[id].size == 0
                then o.tables == t.(inodes := t.inodes[id := o.result.value]) && o.result.value.manifestId.None?
                else NewHead(t, o.tables, o.result.value, m) && o.tables.manifests == StoreManifest(t, m).manifests)
  {
    assert FileOk(t.inodes[id], t.manifests);
  }

  // --------------------------------------------------------------- import

  lemma ImportRecordOk(template: Inode, manifest: Option<Manifest>, id: InodeId, k: ManifestId,
                       manifests: map<ManifestId, Manifest>)
    requires ImportTemplate(template, manifest)
    ensures manifest.None? ==> FileOk(template.(id := id, manifestId := None), manifests)
    ensures manifest.Some? ==>
              FileOk(template.(id := id, manifestId := Some(k), size := manifest.value.size),
                     manifests[k := manifest.value.(inode := id)])
  {
  }

  /** The tables after the parent is bumped and the imported manifest is stored. */
  lemma ImportMiddle(t: Tables, t1: Tables, manifest: Option<Manifest>, next: Tables)
    requires Inv(t) && SameShape(t, t1) && NamespaceStep(t, t1)
    requires next == (if manifest.Some? then StoreManifest(t1, manifest.value) else t1)
    ensures Inv(next) && ManifestsKept(t1, next)
  {
    hide Tree;
    hide FileOk;
    SameShapeTree(t, t1);
    NamespaceKeepsInv(t, t1);
    SameShapeTree(t1, next);
    UnchangedKeepsFiles(t1, next);
  }

  /** A record whose manifest names no local chunk cannot break the fence. */
  lemma AttachKeepsFence(t: Tables, t': Tables, inode: Inode)
    requires Fenced(t) && inode.id !in t.inodes && t'.inodes == t.inodes[inode.id := inode]
    requires t' == t.(inodes := t'.inodes, dentries := t'.dentries, nextInode := t'.nextInode)
    requires inode.manifestId.Some? ==>
               inode.manifestId.value in t.manifests && LocalChunks(t.manifests[inode.manifestId.value]) == {}
    ensures Fenced(t')
  {
    hide LocalChunks;
  }

  lemma AttachKeepsInv(t: Tables, t': Tables, key: DentryKey, inode: Inode)
    requires Inv(t) && Attach(t, t', key, inode) && FileOk(inode, t.manifests)
    requires t' == t.(inodes := t'.inodes, dentries := t'.dentries, nextInode := t'.nextInode)
    requires inode.manifestId.Some? ==>
               inode.manifestId.value in t.manifests && LocalChunks(t.manifests[inode.manifestId.value]) == {}
    ensures Inv(t')
  {
    hide Tree;
    hide FileOk;
    hide LocalChunks;
    hide Fenced;
    hide Grounded;
    TreeIds(t);
    AttachTree(t, t', key, inode);
    AttachKeepsFence(t, t', inode);
    ReplaceKeepsFiles(t, t', inode);
  }

  /** The bumped parent and the stored manifest, before the record is attached. */
  function ImportStored(t: Tables, manifest: Option<Manifest>): Tables {
    if manifest.Some? then StoreManifest(t, manifest.value.(inode := t.nextInode)) else t
  }

  function ImportRecord(t: Tables, template: Inode, manifest: Option<Manifest>): Inode {
    if manifest.Some? then template.(id := t.nextInode, manifestId := Some(t.nextManifest), size := manifest.value.size)
    else template.(id := t.nextInode, manifestId := None)
  }

  /** A template is always in order, so its import either goes through or changes nothing. */
  lemma ImportShape(t: Tables, expected: Option<nat>, parent: InodeId, name: string, template: Inode,
                    manifest: Option<Manifest>, now: int)
    requires ImportTemplate(template, manifest)
    ensures var o := ImportNode(t, expected, parent, name, template, manifest, now);
            if o.result.Err? then o.tables == t
            else
              && BumpParent(t, parent, expected, now).Ok? && (parent, name) !in t.dentries
              && (var t2 := ImportStored(BumpParent(t, parent, expected, now).value, manifest);
                  o.tables == t2.(nextInode := t.nextInode + 1,
                                  inodes := t2.inodes[t.nextInode := ImportRecord(t, template, manifest)],
                                  dentries := t2.dentries[(parent, name) := t.nextInode]))
  {
  }

  lemma NoLocalChunk(template: Inode, manifest: Option<Manifest>, id: InodeId)
    requires ImportTemplate(template, manifest)
    ensures manifest.Some? ==> LocalChunks(manifest.value.(inode := id)) == {}
    ensures template.linkCount > 0 && (template.fileType != Directory ==> template.linkCount == 1)
  {
  }

  lemma ImportKeepsInv(t: Tables, expected: Option<nat>, parent: InodeId, name: string, template: Inode,
                       manifest: Option<Manifest>, now: int)
    requires Inv(t) && ImportTemplate(template, manifest)
    ensures var o := ImportNode(t, expected, parent, name, template, manifest, now);
            Inv(o.tables) && (o.result.Err? ==> o.tables == t)
  {
    TreeIds(t);
    ImportShape(t, expected, parent, name, template, manifest, now);
    hide Inv;
    hide FileOk;
    hide ImportNode;
    hide LocalChunks;
    var o := ImportNode(t, expected, parent, name, template, manifest, now);
    if o.result.Ok? {
      var t1 := BumpParent(t, parent, expected, now).value;
      StepBump(t, parent, expected, now);
      BumpShape(t, parent, expected, now);
      var t2 := ImportStored(t1, manifest);
      ImportMiddle(t, t1, if manifest.Some? then Some(manifest.value.(inode := t.nextInode)) else None, t2);
      hide NamespaceStep;
      hide SameShape;
      hide ManifestsKept;
      ImportRecordOk(template, manifest, t.nextInode, t.nextManifest, t.manifests);
      NoLocalChunk(template, manifest, t.nextInode);
      hide ImportTemplate;
      AttachKeepsInv(t2, o.tables, (parent, name), ImportRecord(t, template, manifest));
    }
  }

  /** Whatever record it carries, an import with a manifest that can be received goes through or changes nothing. */
  lemma ImportAtomic(t: Tables, expected: Option<nat>, parent: InodeId, name: string, template: Inode,
                     manifest: Option<Manifest>, now: int)
    requires manifest.Some? ==> IsTree(manifest.value.extents)
    ensures var o := ImportNode(t, expected, parent, name, template, manifest, now);
            o.result.Err? ==> o.tables == t
  {
  }
}
