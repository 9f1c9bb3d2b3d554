/**
 The data path feeds the write protocol: whatever a write or truncation prepares
 is a commit the collection-safety theorem covers.
 */
module WriteProtocol {
  import opened Types
  import opened MetaTables
  import opened Admission
  import opened DataPath
  import opened GcWorld

  lemma StagedOrHeld(m: Manifest, base: Option<Manifest>, staged: map<ChunkId, seq<byte>>)
    requires ChunksFrom(m.extents, ExtentsOf(base), staged)
    ensures LocalChunks(m) <= staged.Keys + BaseChunks(base)
  {
    forall c | c in LocalChunks(m) ensures c in staged.Keys + BaseChunks(base) {
      var k :| 0 <= k < |m.extents| && m.extents[k].Local? && m.extents[k].chunk == c;
      if c !in staged {
        var j :| 0 <= j < |ExtentsOf(base)| && ExtentsOf(base)[j].Local? && ExtentsOf(base)[j].chunk == c;
        assert base.value.extents[j].Local?;
      }
    }
  }

  /** A prepared change may be reserved, put and committed. */
  lemma ChangeIsPreparable(w: World, n: nat, hash: seq<byte> -> ChunkId, cur: Inode, b: Backing, c: Change,
                           want: seq<byte>)
    requires n in w.writers && w.writers[n] == Looked(cur)
    requires cur.manifestId.Some? ==> cur.manifestId.value in w.t.manifests
    requires ChangesTo(hash, cur, ReadBase(w.t, cur), b, c, want)
    ensures Enabled(w, Prepare(n, c.next, c.m, c.staged.Keys))
  {
    hide LocalChunks;
    hide DataCommit;
    hide ChunksFrom;
    StagedOrHeld(c.m, ReadBase(w.t, cur), c.staged);
  }

  /** With its ticket live and the record unchanged, the server takes the commit a write or truncation prepares. */
  lemma ChangeIsAccepted(t: Tables, ticket: Ticket, hash: seq<byte> -> ChunkId, cur: Inode, base: Option<Manifest>,
                         b: Backing, c: Change, want: seq<byte>)
    requires ChangesTo(hash, cur, base, b, c, want)
    requires cur.id in t.inodes && t.inodes[cur.id].generation == cur.generation && t.inodes[cur.id].flushIntent.None?
    requires ticket in t.reservations && t.reservations[ticket].inode == cur.id
    requires t.reservations[ticket].expectedGeneration == cur.generation
    requires t.reservations[ticket].chunks == LocalChunks(c.m)
    ensures var o := CommitReservedNode(t, ticket, cur.generation, c.next, c.m);
            && o.result.Ok? && cur.id in o.tables.inodes && ticket !in o.tables.reservations
            && o.tables.inodes[cur.id] == c.next.(manifestId := Some(t.nextManifest))
            && t.nextManifest in o.tables.manifests && o.tables.manifests[t.nextManifest] == c.m
  {
    hide LocalChunks;
    hide Ordered;
    hide ChunksFrom;
    hide HeadOk;
    hide Addressed;
    hide Image;
    ChangeIsTree(hash, cur, base, b, c, want);
  }
}
