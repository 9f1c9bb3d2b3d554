/**
 The garbage-collection fence: a tombstoned chunk is neither referenced by a
 manifest some inode holds nor covered by a reservation, held manifests exist,
 and no reservation outlives its inode.
 */
module Fencing {
  import opened Types
  import opened MetaTables
  import opened NamespaceOps

  /** Held manifests exist and manifest ids are handed out in ascending order. */
  ghost predicate Stored(t: Tables) {
    && (forall i | i in t.inodes && t.inodes[i].manifestId.Some? :: t.inodes[i].manifestId.value in t.manifests)
    && (forall k | k in t.manifests :: k < t.nextManifest)
  }

  ghost predicate Ticketed(t: Tables) {
    forall k | k in t.reservations :: t.reservations[k].inode in t.inodes
  }

  /** No tombstone lies on a chunk that an inode holds. */
  ghost predicate HeldApart(t: Tables) {
    forall i | i in t.inodes && t.inodes[i].manifestId.Some? && t.inodes[i].manifestId.value in t.manifests ::
      LocalChunks(t.manifests[t.inodes[i].manifestId.value]) !! t.tombstones.Keys
  }

  /** No tombstone lies on a reserved chunk. */
  ghost predicate ReservedApart(t: Tables) {
    forall k | k in t.reservations :: t.reservations[k].chunks !! t.tombstones.Keys
  }

  ghost predicate Fenced(t: Tables) {
    Stored(t) && Ticketed(t) && HeldApart(t) && ReservedApart(t)
  }

  /** The fence in terms of the chunk sets the collector computes. */
  lemma FenceIsDisjointness(t: Tables)
    ensures HeldApart(t) <==> HeldChunks(t) !! t.tombstones.Keys
    ensures ReservedApart(t) <==> ReservedChunks(t) !! t.tombstones.Keys
  {
    if HeldChunks(t) !! t.tombstones.Keys {
      forall i | i in t.inodes && t.inodes[i].manifestId.Some? && t.inodes[i].manifestId.value in t.manifests
        ensures LocalChunks(t.manifests[t.inodes[i].manifestId.value]) !! t.tombstones.Keys
      {
        HeldIncludes(t, i);
      }
    }
    if HeldApart(t) {
      forall c | c in HeldChunks(t) ensures c !in t.tombstones {
        var k :| k in t.manifests && k in HeldManifests(t) && c in LocalChunks(t.manifests[k]);
        var i :| i in t.inodes && t.inodes[i].manifestId == Some(k);
      }
    }
    if ReservedChunks(t) !! t.tombstones.Keys {
      forall k | k in t.reservations ensures t.reservations[k].chunks !! t.tombstones.Keys {
        ReservedIncludes(t, k);
      }
    }
  }

  lemma HeldIncludes(t: Tables, i: InodeId)
    requires i in t.inodes && t.inodes[i].manifestId.Some? && t.inodes[i].manifestId.value in t.manifests
    ensures t.inodes[i].manifestId.value in HeldManifests(t)
    ensures LocalChunks(t.manifests[t.inodes[i].manifestId.value]) <= HeldChunks(t)
  {
    var k := t.inodes[i].manifestId.value;
    assert k in HeldManifests(t);
    forall c | c in LocalChunks(t.manifests[k]) ensures c in HeldChunks(t) {
    }
  }

  lemma ReservedIncludes(t: Tables, k: Ticket)
    requires k in t.reservations
    ensures t.reservations[k].chunks <= ReservedChunks(t)
  {
    forall c | c in t.reservations[k].chunks ensures c in ReservedChunks(t) {
    }
  }

  // -------------------------------------------------------- kinds of change

  lemma NamespaceKeepsFence(t: Tables, t': Tables)
    requires Fenced(t) && NamespaceStep(t, t')
    ensures Fenced(t')
  {
    hide Bare;
    forall i | i in t'.inodes && t'.inodes[i].manifestId.Some?
      ensures i in t.inodes && t.inodes[i].manifestId == t'.inodes[i].manifestId
    {
      if i !in t.inodes { assert Bare(t'.inodes[i]); NoManifest(t'.inodes[i]); }
    }
  }

  lemma NoManifest(i: Inode)
    requires Bare(i)
    ensures i.manifestId.None?
  {
  }

  /** Switching an inode to a newly stored manifest whose chunks carry no tombstone. */
  ghost predicate NewHead(t: Tables, t': Tables, next: Inode, m: Manifest) {
    && t'.inodes == t.inodes[next.id := next]
    && t'.manifests == t.manifests[t.nextManifest := m] && t'.nextManifest == t.nextManifest + 1
    && next.manifestId == Some(t.nextManifest) && LocalChunks(m) !! t.tombstones.Keys
    && t'.tombstones == t.tombstones
  }

  lemma NewHeadKeepsFence(t: Tables, t': Tables, next: Inode, m: Manifest)
    requires Fenced(t) && NewHead(t, t', next, m)
    requires t'.reservations.Keys <= t.reservations.Keys
    requires forall k | k in t'.reservations :: t'.reservations[k] == t.reservations[k]
    ensures Fenced(t')
  {
    hide LocalChunks;
  }

  /** Replacing a record without changing which manifest it holds, or letting go of it. */
  lemma RecordKeepsFence(t: Tables, t': Tables, next: Inode)
    requires Fenced(t) && t' == t.(inodes := t.inodes[next.id := next], xattrs := t'.xattrs)
    requires next.manifestId.None? || (next.id in t.inodes && next.manifestId == t.inodes[next.id].manifestId)
    ensures Fenced(t')
  {
    hide LocalChunks;
  }

  /** Dropping reservations, or finalizing tombstones, only weakens what must stay apart. */
  lemma DropKeepsFence(t: Tables, t': Tables)
    requires Fenced(t) && t' == t.(reservations := t'.reservations, tombstones := t'.tombstones)
    requires t'.tombstones.Keys <= t.tombstones.Keys && t'.reservations.Keys <= t.reservations.Keys
    requires forall k | k in t'.reservations :: t'.reservations[k] == t.reservations[k]
    ensures Fenced(t')
  {
    hide LocalChunks;
  }

  /** A reservation is only taken while none of its chunks carries a tombstone. */
  lemma ReserveKeepsFence(t: Tables, ticket: Ticket, id: InodeId, expected: nat, chunks: set<ChunkId>, expiresAt: nat)
    requires Fenced(t)
    ensures var o := ReserveNode(t, ticket, id, expected, chunks, expiresAt);
            Fenced(o.tables) && (o.result.Err? ==> o.tables == t)
  {
    hide LocalChunks;
    var o := ReserveNode(t, ticket, id, expected, chunks, expiresAt);
    if o.tables != t {
      forall c | c in chunks ensures c !in t.tombstones {
        assert c in t.tombstones ==> c in chunks * t.tombstones.Keys;
      }
    }
  }

  /** Tombstoning spares what is held or reserved, and drops only manifests nobody holds. */
  lemma TombstoneKeepsFence(t: Tables, candidates: set<ChunkId>)
    requires Fenced(t)
    ensures Fenced(TombstoneNode(t, candidates).0)
  {
    hide LocalChunks;
    var t' := TombstoneNode(t, candidates).0;
    forall i | i in t.inodes && t.inodes[i].manifestId.Some? ensures t.inodes[i].manifestId.value in t'.manifests {
      HeldIncludes(t, i);
    }
    forall i | i in t.inodes && t.inodes[i].manifestId.Some?
      ensures LocalChunks(t'.manifests[t.inodes[i].manifestId.value]) !! t'.tombstones.Keys
    {
      HeldIncludes(t, i);
    }
    forall k | k in t.reservations ensures t.reservations[k].chunks !! t'.tombstones.Keys {
      ReservedIncludes(t, k);
    }
  }
}
