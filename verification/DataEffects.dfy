/**
 What the requests for file data do in a store that satisfies the invariant: when
 each one succeeds, what it makes of the file, and that it leaves every other alone.
 */
module DataEffects {
  import opened Types
  import opened MetaTables
  import opened Namespace
  import opened NamespaceOps
  import opened NamespaceEffects
  import opened Admission
  import opened FileState
  import opened DataOps
  import opened Versions
  import opened Extents

  /** Only the record of `id` differs. */
  ghost predicate OnlyRecord(t: Tables, t': Tables, id: InodeId) {
    id in t.inodes && id in t'.inodes && t' == t.(inodes := t.inodes[id := t'.inodes[id]])
  }

  /** The file is at the generation the caller expects. */
  predicate Current(t: Tables, id: InodeId, expected: nat) {
    id in t.inodes && t.inodes[id].generation == expected
  }

  /** Why it is not. */
  function StaleError(t: Tables, id: InodeId, expected: nat): FluxError {
    if id !in t.inodes then NotFound else CasFailed(expected, t.inodes[id].generation)
  }

  predicate Dirtied(i: Inode) {
    i.fields.Some? && i.fields.value.backing == UfsBacked && i.fields.value.dataState == Dirty
  }

  /** Type, owner, mode, times, links, size and head are the same, and the generation is the next. */
  predicate SameHead(a: Inode, b: Inode) {
    && b.id == a.id && b.fileType == a.fileType && b.mode == a.mode && b.uid == a.uid && b.gid == a.gid
    && b.times == a.times && b.linkCount == a.linkCount && b.symlinkTarget == a.symlinkTarget
    && b.size == a.size && b.headGen == a.headGen && b.generation == a.generation + 1
  }

  /** So are the manifest and what is known of the backing object. */
  predicate SameBacking(a: Inode, b: Inode) {
    b.manifestId == a.manifestId && b.ufs == a.ufs && b.ufsGen == a.ufsGen && b.ufsBaseVersion == a.ufsBaseVersion
  }

  /** Backing mode and origin are the same. */
  predicate SameOrigin(a: Inode, b: Inode) {
    && a.fields.Some? && b.fields.Some?
    && b.fields.value.backing == a.fields.value.backing && b.fields.value.origin == a.fields.value.origin
  }

  lemma RecordOk(t: Tables, id: InodeId)
    requires Inv(t) && id in t.inodes
    ensures FileOk(t.inodes[id], t.manifests) && t.inodes[id].id == id
  {
    InvIds(t);
  }

  // --------------------------------------------------------------- commits

  /** The head is switched: one more manifest under a fresh id, and the given record with it. */
  ghost predicate HeadSwitched(t: Tables, t': Tables, inode: Inode, m: Manifest, next: Inode) {
    && t.nextManifest !in t.manifests && next == inode.(manifestId := Some(t.nextManifest))
    && t' == t.(inodes := t.inodes[inode.id := next], manifests := t.manifests[t.nextManifest := m],
                nextManifest := t.nextManifest + 1, reservations := t'.reservations)
  }

  /** A reserved commit needs exactly its ticket; it switches the head and uses the ticket up. */
  lemma CommitEffect(t: Tables, ticket: Ticket, expected: nat, inode: Inode, m: Manifest)
    requires Inv(t)
    ensures var o := CommitReservedNode(t, ticket, expected, inode, m);
            && (o.result.Ok? <==>
                  && ticket in t.reservations && t.reservations[ticket].inode == inode.id == m.inode
                  && t.reservations[ticket].expectedGeneration == expected
                  && t.reservations[ticket].chunks == LocalChunks(m)
                  && Current(t, inode.id, expected) && t.inodes[inode.id].flushIntent.None? && Ordered(m.extents))
            && (o.result.Ok? ==>
                  && HeadSwitched(t, o.tables, inode, m, o.result.value)
                  && o.tables.reservations == t.reservations - {ticket})
            && (o.result.Err? ==>
                  && o.tables == t
                  && o.result.error ==
                     if ticket !in t.reservations then Busy
                     else if t.reservations[ticket].inode != inode.id
                             || t.reservations[ticket].expectedGeneration != expected
                             || t.reservations[ticket].chunks != LocalChunks(m) || m.inode != inode.id then InvalidArg
                     else if !Current(t, inode.id, expected) then StaleError(t, inode.id, expected)
                     else if t.inodes[inode.id].flushIntent.Some? then Busy else InvalidArg)
  {
    hide Inv;
    hide LocalChunks;
    hide Ordered;
    InvIds(t);
  }

  /** A commit without a ticket is for manifests without local chunks. */
  lemma CommitUnreservedEffect(t: Tables, expected: nat, inode: Inode, m: Manifest)
    requires Inv(t)
    ensures var o := CommitUnreservedNode(t, expected, inode, m);
            && (o.result.Ok? <==>
                  && (forall e | e in m.extents :: !e.Local?) && m.inode == inode.id
                  && Current(t, inode.id, expected) && t.inodes[inode.id].flushIntent.None? && Ordered(m.extents))
            && (o.result.Ok? ==>
                  HeadSwitched(t, o.tables, inode, m, o.result.value) && o.tables.reservations == t.reservations)
            && (o.result.Err? ==>
                  && o.tables == t
                  && o.result.error ==
                     if (exists e | e in m.extents :: e.Local?) || m.inode != inode.id then InvalidArg
                     else if !Current(t, inode.id, expected) then StaleError(t, inode.id, expected)
                     else if t.inodes[inode.id].flushIntent.Some? then Busy else InvalidArg)
  {
    hide Inv;
    hide Ordered;
    InvIds(t);
    NoLocal(m);
    hide LocalChunks;
  }

  lemma NoLocal(m: Manifest)
    ensures LocalChunks(m) == {} <==> forall e | e in m.extents :: !e.Local?
  {
    if e :| e in m.extents && e.Local? { LocalMeans(m, e.chunk); }
    if c :| c in LocalChunks(m) { LocalMeans(m, c); }
  }

  /** What the chunks of a manifest are. */
  lemma LocalMeans(m: Manifest, c: ChunkId)
    ensures c in LocalChunks(m) <==> exists e | e in m.extents :: e.Local? && e.chunk == c
  {
    if e :| e in m.extents && e.Local? && e.chunk == c {
      var i :| 0 <= i < |m.extents| && m.extents[i] == e;
    }
  }

  /** A manifest in order is stored under the next id; any other is refused. */
  lemma PutManifestEffect(t: Tables, m: Manifest)
    ensures var o := PutManifestNode(t, m);
            if forall i, j | 0 <= i < j < |m.extents| :: m.extents[i].End() <= m.extents[j].offset
            then && o.result == Ok(t.nextManifest)
                 && o.tables == t.(manifests := t.manifests[t.nextManifest := m], nextManifest := t.nextManifest + 1)
            else o == Outcome(t, Err(InvalidArg))
  {
    SortedIffOrdered(m.extents);
  }

  // ----------------------------------------------------------------- flush

  /** An intent is recorded exactly for a dirty file at the head it was made for, and nothing else changes. */
  lemma BeginFlushEffect(t: Tables, expected: nat, id: InodeId, intent: FlushIntent)
    requires Inv(t)
    ensures var o := BeginFlushNode(t, expected, id, intent);
            && (o.result.Ok? <==>
                  && Current(t, id, expected) && t.inodes[id].fileType == Regular && Dirtied(t.inodes[id])
                  && t.inodes[id].headGen == intent.snapshotGen && t.inodes[id].flushIntent.None?)
            && (o.result.Ok? ==>
                  var i := o.result.value;
                  && OnlyRecord(t, o.tables, id) && o.tables.inodes[id] == i
                  && SameHead(t.inodes[id], i) && SameBacking(t.inodes[id], i) && SameOrigin(t.inodes[id], i)
                  && i.fields.value.dataState == Dirty && i.fields.value.opState == Flushing(intent)
                  && i.flushIntent == Some(intent) && i.lastError.None? && i.locality == LabelFlushing)
            && (o.result.Err? ==>
                  && o.tables == t
                  && o.result.error ==
                     if !Current(t, id, expected) then StaleError(t, id, expected)
                     else if t.inodes[id].fileType != Regular then IsDirectory
                     else if !Dirtied(t.inodes[id]) then InvalidArg
                     else if t.inodes[id].headGen != intent.snapshotGen
                     then CasFailed(intent.snapshotGen, t.inodes[id].headGen) else Busy)
  {
    hide Inv;
    hide ManifestOk;
    hide CleanOk;
    if id in t.inodes { RecordOk(t, id); }
  }

  /** The intent recorded for the file is this one. */
  predicate Intends(t: Tables, id: InodeId, flushId: FlushId)
    requires id in t.inodes
  {
    t.inodes[id].flushIntent.Some? && t.inodes[id].flushIntent.value.flushId == flushId
  }

  /** The recorded intent alone lets a flush commit; the file is then clean at its head and pins the new object. */
  lemma CommitFlushEffect(t: Tables, expected: nat, id: InodeId, flushId: FlushId, published: UfsObject)
    requires Inv(t)
    ensures var o := CommitFlushNode(t, expected, id, flushId, published);
            && (o.result.Ok? <==> Current(t, id, expected) && Intends(t, id, flushId))
            && (o.result.Ok? ==>
                  var a, i := t.inodes[id], o.result.value;
                  && o.tables == t.(inodes := t.inodes[id := i], manifests := o.tables.manifests,
                                    nextManifest := o.tables.nextManifest)
                  && SameHead(a, i) && SameOrigin(a, i) && i.flushIntent.None? && i.lastError.None?
                  && i.ufs == Some(published) && i.ufsGen == a.headGen
                  && i.ufsBaseVersion == Some(if published.etag.Some? then EtagVersion(published.etag.value)
                                              else DigestVersion(a.flushIntent.value.targetDigest))
                  && i.fields.value.dataState == UfsClean && i.fields.value.opState == Idle
                  && i.locality == (if i.fields.value.origin == Imported then LabelExternal else LabelClean))
            && (o.result.Err? ==>
                  && o.tables == t
                  && o.result.error == if !Current(t, id, expected) then StaleError(t, id, expected) else Busy)
  {
    hide Inv;
    hide ManifestOk;
    hide CleanOk;
    hide CleanManifest;
    if id in t.inodes { RecordOk(t, id); }
  }

  /** The manifest of a committed flush: one range over the whole new object, or none for an empty file. */
  lemma CommitFlushManifest(t: Tables, expected: nat, id: InodeId, flushId: FlushId, published: UfsObject)
    requires Inv(t) && CommitFlushNode(t, expected, id, flushId, published).result.Ok?
    ensures var o, a := CommitFlushNode(t, expected, id, flushId, published), t.inodes[id];
            var i := o.result.value;
            if a.size == 0
            then i.manifestId.None? && o.tables.manifests == t.manifests && o.tables.nextManifest == t.nextManifest
            else
              && i.manifestId == Some(t.nextManifest) && i.ufsBaseVersion.Some?
              && o.tables.nextManifest == t.nextManifest + 1
              && o.tables.manifests == t.manifests[t.nextManifest :=
                   Manifest(id, a.headGen, a.size, [UfsRange(0, a.size, published.key, i.ufsBaseVersion.value, 0)])]
  {
    hide Inv;
    hide ManifestOk;
    hide CleanOk;
    RecordOk(t, id);
  }

  /** Giving up leaves the head and its backing as they were, marked as in conflict with the reason given. */
  lemma FailFlushEffect(t: Tables, expected: nat, id: InodeId, flushId: FlushId, message: string)
    requires Inv(t)
    ensures var o := FailFlushNode(t, expected, id, flushId, message);
            && (o.result.Ok? <==> Current(t, id, expected) && Intends(t, id, flushId))
            && (o.result.Ok? ==>
                  var i := o.result.value;
                  && OnlyRecord(t, o.tables, id) && o.tables.inodes[id] == i
                  && SameHead(t.inodes[id], i) && SameBacking(t.inodes[id], i) && SameOrigin(t.inodes[id], i)
                  && i.flushIntent.None? && i.lastError == Some(message) && i.locality == LabelConflict
                  && i.fields.value.dataState == DirtyConflict && i.fields.value.opState == Idle)
            && (o.result.Err? ==>
                  && o.tables == t
                  && o.result.error == if !Current(t, id, expected) then StaleError(t, id, expected) else Busy)
  {
    hide Inv;
    hide ManifestOk;
    hide CleanOk;
    if id in t.inodes { RecordOk(t, id); }
  }

  // ---------------------------------------------------------------- labels

  /** What the label shown to users means, in every state that satisfies the invariant. */
  lemma LabelMeans(t: Tables, id: InodeId)
    requires Inv(t) && id in t.inodes
    ensures var i := t.inodes[id];
            && i.fields.Some?
            && (i.locality == LabelEphemeral <==> i.fields.value.backing == EphemeralMount)
            && (i.locality == LabelFlushing <==> i.flushIntent.Some?)
            && (i.locality == LabelConflict <==> i.fields.value.dataState == DirtyConflict)
            && (i.locality == LabelDirty <==> i.fields.value.dataState == Dirty && i.flushIntent.None?)
            && (i.locality == LabelClean <==>
                  i.fields.value.dataState == UfsClean && i.fields.value.origin == FluxCreated)
            && (i.locality == LabelExternal <==>
                  i.fields.value.dataState == UfsClean && i.fields.value.origin == Imported)
            && (i.fields.value.dataState == UfsClean ==> i.headGen == i.ufsGen)
            && (i.fields.value.dataState == Dirty || i.fields.value.dataState == DirtyConflict ==> i.headGen > i.ufsGen)
  {
    hide Inv;
    hide ManifestOk;
    hide CleanOk;
    RecordOk(t, id);
  }
}
