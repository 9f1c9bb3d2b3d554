/**
 What the requests of writers' reservations and of the collector do, in terms of
 the tables before and after: which tickets and tombstones go, stay and appear.
 */
module CollectorEffects {
  import opened Types
  import opened Expiry
  import opened MetaTables
  import opened Replay

  // ---------------------------------------------------------- reservations

  /**
   A reservation is granted exactly to a writer of the current generation for chunks
   none of which is tombstoned, under a ticket that is new or stands for the very same.
   */
  lemma ReserveEffect(t: Tables, ticket: Ticket, id: InodeId, expected: nat, chunks: set<ChunkId>, expiresAt: nat)
    ensures var o := ReserveNode(t, ticket, id, expected, chunks, expiresAt);
            && (o.result.Ok? <==>
                  && id in t.inodes && t.inodes[id].generation == expected
                  && (forall c | c in chunks :: c !in t.tombstones)
                  && (ticket in t.reservations ==>
                        t.reservations[ticket] == Reservation(id, expected, chunks, expiresAt)))
            && o.tables == t.(reservations := o.tables.reservations)
            && (o.result.Ok? ==>
                  o.tables.reservations == t.reservations[ticket := Reservation(id, expected, chunks, expiresAt)])
            && (o.result.Err? ==>
                  && o.tables == t
                  && o.result.error == if id !in t.inodes then NotFound
                                       else if t.inodes[id].generation != expected
                                       then CasFailed(expected, t.inodes[id].generation)
                                       else if exists c | c in chunks :: c in t.tombstones then Busy
                                       else AlreadyExists)
  {
    if c :| c in chunks && c in t.tombstones { assert c in chunks * t.tombstones.Keys; }
    if ticket in t.reservations && t.reservations[ticket] == Reservation(id, expected, chunks, expiresAt) {
      assert t.reservations[ticket := Reservation(id, expected, chunks, expiresAt)] == t.reservations;
    }
  }

  function Deadlines(rs: map<Ticket, Reservation>): map<Ticket, nat> {
    map k | k in rs :: rs[k].expiresAt
  }

  /**
   Expiry drops tickets whose deadline has passed, as many as allowed, in the order
   of their deadlines and then of their numbers, and alters none.
   */
  ghost predicate Expires(rs: map<Ticket, Reservation>, cutoff: nat, max: nat, rs': map<Ticket, Reservation>) {
    && (forall k | k in rs' :: k in rs && rs'[k] == rs[k])
    && (forall k | k in rs && k !in rs' :: rs[k].expiresAt <= cutoff)
    && (var due := set k | k in rs && rs[k].expiresAt <= cutoff;
        |rs.Keys - rs'.Keys| == if |due| <= max then |due| else max)
    && (forall a, b | a in rs && a !in rs' && b in rs' && rs[b].expiresAt <= cutoff ::
          rs[a].expiresAt < rs[b].expiresAt || (rs[a].expiresAt == rs[b].expiresAt && a < b))
  }

  lemma ExpireEffect(t: Tables, cutoff: nat, max: nat)
    ensures var t' := ExpireNode(t, cutoff, max);
            t' == t.(reservations := t'.reservations) && Expires(t.reservations, cutoff, max, t'.reservations)
  {
    hide ExpireNode;
    hide Expires;
    hide OldestGone;
    hide EnoughGone;
    ExpireDrops(t, cutoff, max);
    ExpiresIs(t.reservations, cutoff, max, ExpireNode(t, cutoff, max).reservations);
  }

  lemma ExpiresIs(rs: map<Ticket, Reservation>, cutoff: nat, max: nat, rs': map<Ticket, Reservation>)
    requires forall k | k in rs' :: k in rs && rs'[k] == rs[k]
    requires OldestGone(Deadlines(rs), cutoff, rs'.Keys) && EnoughGone(Deadlines(rs), cutoff, max, rs'.Keys)
    ensures Expires(rs, cutoff, max, rs')
  {
    var ex := Deadlines(rs);
    assert ex.Keys == rs.Keys;
    assert (set k | k in rs && rs[k].expiresAt <= cutoff) == Due(ex, cutoff);
    forall k | k in rs && k !in rs' ensures rs[k].expiresAt <= cutoff { assert ex[k] <= cutoff; }
    forall a, b | a in rs && a !in rs' && b in rs' && rs[b].expiresAt <= cutoff
      ensures rs[a].expiresAt < rs[b].expiresAt || (rs[a].expiresAt == rs[b].expiresAt && a < b)
    {
      assert Older(ex, a, b);
    }
  }

  lemma {:induction false} ExpireDrops(t: Tables, cutoff: nat, max: nat)
    ensures var t', ex := ExpireNode(t, cutoff, max), Deadlines(t.reservations);
            && t' == t.(reservations := t'.reservations)
            && (forall k | k in t'.reservations :: k in t.reservations && t'.reservations[k] == t.reservations[k])
            && OldestGone(ex, cutoff, t'.reservations.Keys) && EnoughGone(ex, cutoff, max, t'.reservations.Keys)
    decreases max
  {
    hide ExpireNode;
    hide ExpiresBefore;
    hide OldestGone;
    hide EnoughGone;
    hide Deadlines;
    var ex := Deadlines(t.reservations);
    DeadlinesAre(t, cutoff);
    if max == 0 || ExpiredTickets(t, cutoff) == {} {
      NothingExpires(t, cutoff, max);
      NothingGone(ex, cutoff, max);
    } else {
      var k := OldestExists(t, ExpiredTickets(t, cutoff));
      ExpireStep(t, cutoff, max, k);
      var t1 := t.(reservations := t.reservations - {k});
      ExpireDrops(t1, cutoff, max - 1);
      DeadlinesWithout(t.reservations, k);
      forall j | j in Due(ex, cutoff) && j != k ensures Older(ex, k, j) { OlderIs(t, k, j); }
      OneMoreGone(ex, cutoff, max, k, ExpireNode(t1, cutoff, max - 1).reservations.Keys);
    }
  }

  lemma NothingExpires(t: Tables, cutoff: nat, max: nat)
    requires max == 0 || ExpiredTickets(t, cutoff) == {}
    ensures ExpireNode(t, cutoff, max) == t
  {
  }

  lemma DeadlinesAre(t: Tables, cutoff: nat)
    ensures Deadlines(t.reservations).Keys == t.reservations.Keys
    ensures ExpiredTickets(t, cutoff) == Due(Deadlines(t.reservations), cutoff)
  {
  }

  lemma DeadlinesWithout(rs: map<Ticket, Reservation>, k: Ticket)
    ensures Deadlines(rs - {k}) == Deadlines(rs) - {k}
  {
  }

  lemma OlderIs(t: Tables, k: Ticket, j: Ticket)
    requires k in t.reservations && j in t.reservations && k != j && ExpiresBefore(t, k, j)
    ensures Older(Deadlines(t.reservations), k, j)
  {
  }

  // ------------------------------------------------------------ tombstones

  /** Some inode's manifest refers to the chunk, or some reservation does. */
  ghost predicate Needed(t: Tables, c: ChunkId) {
    || (exists i, e | i in t.inodes && t.inodes[i].manifestId.Some? && t.inodes[i].manifestId.value in t.manifests
                      && e in t.manifests[t.inodes[i].manifestId.value].extents :: e.Local? && e.chunk == c)
    || (exists k | k in t.reservations :: c in t.reservations[k].chunks)
  }

  lemma NeededIs(t: Tables, c: ChunkId)
    ensures Needed(t, c) <==> c in HeldChunks(t) || c in ReservedChunks(t)
  {
    if c in HeldChunks(t) {
      var k :| k in t.manifests && k in HeldManifests(t) && c in LocalChunks(t.manifests[k]);
      var i :| i in t.inodes && t.inodes[i].manifestId == Some(k);
      var j :| 0 <= j < |t.manifests[k].extents| && t.manifests[k].extents[j].Local?
               && t.manifests[k].extents[j].chunk == c;
      assert t.manifests[k].extents[j] in t.manifests[k].extents;
    }
    if i, e :| i in t.inodes && t.inodes[i].manifestId.Some? && t.inodes[i].manifestId.value in t.manifests
               && e in t.manifests[t.inodes[i].manifestId.value].extents && e.Local? && e.chunk == c {
      var k := t.inodes[i].manifestId.value;
      var j :| 0 <= j < |t.manifests[k].extents| && t.manifests[k].extents[j] == e;
      assert c in LocalChunks(t.manifests[k]) && k in HeldManifests(t);
    }
  }

  /**
   A batch puts a fresh tombstone exactly on the candidates nothing needs, leaves the
   other tombstones alone, and drops exactly the manifests no inode has.
   */
  lemma TombstoneEffect(t: Tables, candidates: set<ChunkId>)
    ensures var (t', tombstoned, removed) := TombstoneNode(t, candidates);
            && t' == t.(manifests := t'.manifests, tombstones := t'.tombstones)
            && (forall c :: c in tombstoned <==> c in candidates && !Needed(t, c))
            && (forall c :: c in t'.tombstones <==> c in t.tombstones || c in tombstoned)
            && (forall c | c in t'.tombstones ::
                  t'.tombstones[c] == if c in tombstoned then Tombstone(false, {}) else t.tombstones[c])
            && (forall k :: k in t'.manifests <==>
                  k in t.manifests && exists i | i in t.inodes :: t.inodes[i].manifestId == Some(k))
            && (forall k | k in t'.manifests :: t'.manifests[k] == t.manifests[k])
            && removed == |t.manifests| - |t'.manifests|
  {
    hide HeldChunks;
    hide ReservedChunks;
    hide Needed;
    forall c ensures Needed(t, c) <==> c in HeldChunks(t) || c in ReservedChunks(t) { NeededIs(t, c); }
  }

  predicate Finished(t: Tables, c: ChunkId) {
    c in t.tombstones && t.tombstones[c].initialized && t.tombstones[c].pending == {}
  }

  function Firsts<T>(s: seq<T>, k: nat): set<T>
    requires k <= |s|
  {
    set j | 0 <= j < k :: s[j]
  }

  lemma FirstsTail<T>(s: seq<T>, k: nat)
    requires k < |s|
    ensures Firsts(s, k + 1) == Firsts(s[1..], k) + {s[0]}
  {
    forall x | x in Firsts(s[1..], k) + {s[0]} ensures x in Firsts(s, k + 1) {
      if x != s[0] {
        var j :| 0 <= j < k && s[1..][j] == x;
        assert s[j+1] == x;
      }
    }
    forall x | x in Firsts(s, k + 1) ensures x in Firsts(s[1..], k) + {s[0]} {
      var j :| 0 <= j < k + 1 && s[j] == x;
      if j > 0 { assert s[1..][j-1] == x; }
    }
  }

  /**
   Finalizing removes finished tombstones up to the first one that is missing or not
   finished; it succeeds exactly when there is none such, and then all are gone.
   */
  lemma {:induction false} FinalizeEffect(t: Tables, chunks: seq<ChunkId>) returns (k: nat)
    ensures k <= |chunks| && (forall c | c in Firsts(chunks, k) :: Finished(t, c))
    ensures var o := FinalizeNode(t, chunks);
            && o.tables == t.(tombstones := t.tombstones - Firsts(chunks, k))
            && (o.result.Ok? <==> k == |chunks|)
            && (k < |chunks| ==>
                  && (chunks[k] in Firsts(chunks, k) || !Finished(t, chunks[k]))
                  && o.result == if chunks[k] in t.tombstones && chunks[k] !in Firsts(chunks, k) then Err(Busy)
                                 else Err(NotFound))
    decreases |chunks|
  {
    if chunks == [] || !Finished(t, chunks[0]) {
      k := 0;
      assert Firsts(chunks, 0) == {};
      assert t.tombstones - {} == t.tombstones;
    } else {
      var t1 := t.(tombstones := t.tombstones - {chunks[0]});
      var j := FinalizeEffect(t1, chunks[1..]);
      k := j + 1;
      FirstsTail(chunks, j);
      assert t1.tombstones - Firsts(chunks[1..], j) == t.tombstones - Firsts(chunks, k);
    }
  }

  /** Recording targets reaches every tombstone without any, up to the first chunk that has no tombstone. */
  lemma {:induction false} InitializeEffect(t: Tables, chunks: seq<ChunkId>, targets: set<TargetId>) returns (k: nat)
    ensures k <= |chunks| && (forall c | c in Firsts(chunks, k) :: c in t.tombstones)
    ensures var o := InitializeNode(t, chunks, targets);
            && o.tables == t.(tombstones := o.tables.tombstones) && o.tables.tombstones.Keys == t.tombstones.Keys
            && (forall c | c in t.tombstones ::
                  o.tables.tombstones[c] == if c in Firsts(chunks, k) && !t.tombstones[c].initialized
                                            then Tombstone(true, targets) else t.tombstones[c])
            && (o.result.Ok? <==> k == |chunks|)
            && (k < |chunks| ==> chunks[k] !in t.tombstones && o.result == Err(NotFound))
    decreases |chunks|
  {
    if chunks == [] || chunks[0] !in t.tombstones {
      k := 0;
      assert Firsts(chunks, 0) == {};
    } else {
      var s := t.tombstones[chunks[0]];
      var t1 := t.(tombstones := if s.initialized then t.tombstones
                                 else t.tombstones[chunks[0] := Tombstone(true, targets)]);
      var j := InitializeEffect(t1, chunks[1..], targets);
      k := j + 1;
      FirstsTail(chunks, j);
    }
  }

  /** Acknowledging takes exactly the reported targets off, up to the first chunk that does not wait for any. */
  lemma {:induction false} AcknowledgeEffect(t: Tables, deleted: seq<(ChunkId, TargetId)>) returns (k: nat)
    ensures k <= |deleted|
    ensures forall d | d in Firsts(deleted, k) :: d.0 in t.tombstones && t.tombstones[d.0].initialized
    ensures var o := AcknowledgeNode(t, deleted);
            && o.tables == t.(tombstones := o.tables.tombstones) && o.tables.tombstones.Keys == t.tombstones.Keys
            && (forall c | c in t.tombstones ::
                  && o.tables.tombstones[c].initialized == t.tombstones[c].initialized
                  && forall x :: x in o.tables.tombstones[c].pending <==>
                                   x in t.tombstones[c].pending && (c, x) !in Firsts(deleted, k))
            && (o.result.Ok? <==> k == |deleted|)
            && (k < |deleted| ==>
                  && (deleted[k].0 !in t.tombstones || !t.tombstones[deleted[k].0].initialized)
                  && o.result == if deleted[k].0 in t.tombstones then Err(Busy) else Err(NotFound))
    decreases |deleted|
  {
    if deleted == [] || deleted[0].0 !in t.tombstones || !t.tombstones[deleted[0].0].initialized {
      k := 0;
      assert Firsts(deleted, 0) == {};
    } else {
      var s := t.tombstones[deleted[0].0];
      var t1 := t.(tombstones := t.tombstones[deleted[0].0 := s.(pending := s.pending - {deleted[0].1})]);
      var j := AcknowledgeEffect(t1, deleted[1..]);
      k := j + 1;
      FirstsTail(deleted, j);
    }
  }
}
