/**
 Why the collector must be alone and its failed deletes must not come late:
 deletions are made from an earlier listing of tombstones, so a second collector,
 or a delete still on its way, may hit a chunk after it was finalized and a
 writer has committed it again.
 */
module GcTwoCollectors {
  import opened Types
  import opened MetaTables
  import opened Namespace
  import opened NamespaceOps
  import opened Admission
  import opened FileState
  import opened Fencing
  import opened DataOps
  import opened StateMachine
  import opened GcWorld
  import opened GcSafety
  import opened GcTheorem

  /**
   Collector 0 is about to delete the tombstoned chunk `c`, stored only on `x`, and
   writer `n` is about to store `c` afresh for a file nobody else touches.
   */
  ghost predicate Collision(w: World, n: nat, c: ChunkId, x: TargetId) {
    && w.stored.Keys == {x}
    && w.t.tombstones == map[c := Tombstone(true, {x})]
    && 0 in w.runners && w.runners[0] == Deleting(map[c := {x}], {})
    && n in w.writers && w.writers[n].Prepared?
    && (var v := w.writers[n];
        && v.staged == {c} && v.m.extents == [Local(0, 1, c)]
        && v.cur.id in w.t.inodes && w.t.inodes[v.cur.id] == v.cur && v.cur.flushIntent.None?
        && v.next.id == v.cur.id && v.m.inode == v.cur.id)
  }

  /** The step is a second delete of `c`: another collector's, or one still on its way. */
  ghost predicate SecondDelete(w: World, c: ChunkId, x: TargetId, e: Event) {
    || (e == Late(c, x) && (c, x) in w.late)
    || (e.Delete? && e.r != 0 && e == Delete(e.r, c, x) && e.r in w.runners
        && w.runners[e.r] == Deleting(map[c := {x}], {}))
  }

  lemma OneChunk(m: Manifest, c: ChunkId)
    requires m.extents == [Local(0, 1, c)]
    ensures LocalChunks(m) == {c} && Ordered(m.extents)
  {
    assert m.extents[0].Local?;
  }

  lemma DeleteStep(w: World, c: ChunkId, x: TargetId, now: int)
    requires x in w.stored && 0 in w.runners && w.runners[0] == Deleting(map[c := {x}], {})
    ensures Enabled(w, Delete(0, c, x))
    ensures Apply(w, Delete(0, c, x), now)
            == w.(stored := w.stored[x := w.stored[x] - {c}],
                  runners := w.runners[0 := Deleting(map[c := {x}], {(c, x)})])
  {
    assert {} + {(c, x)} == {(c, x)};
  }

  lemma AcknowledgeStep(w: World, c: ChunkId, x: TargetId, now: int)
    requires w.t.tombstones == map[c := Tombstone(true, {x})]
    requires 0 in w.runners && w.runners[0] == Deleting(map[c := {x}], {(c, x)})
    ensures Enabled(w, Acknowledge(0, [(c, x)]))
    ensures Apply(w, Acknowledge(0, [(c, x)]), now)
            == w.(t := w.t.(tombstones := map[c := Tombstone(true, {})]),
                  runners := w.runners[0 := Acknowledged(map[c := {x}], {(c, x)})])
  {
    hide Execute;
    AcknowledgeOne(w.t, c, x, now);
  }

  lemma FinalizeStep(w: World, c: ChunkId, x: TargetId, now: int)
    requires w.t.tombstones == map[c := Tombstone(true, {})]
    requires 0 in w.runners && w.runners[0] == Acknowledged(map[c := {x}], {(c, x)})
    ensures Enabled(w, Finalize(0, [c]))
    ensures Apply(w, Finalize(0, [c]), now) == w.(t := w.t.(tombstones := map[]), runners := w.runners - {0})
  {
    hide Execute;
    FinalizeOne(w.t, c, now);
  }

  /** The first collector deletes, acknowledges and finalizes. */
  lemma FirstCollector(w: World, n: nat, c: ChunkId, x: TargetId, now: int) returns (ws: seq<World>, es: seq<Stamped>)
    requires Collision(w, n, c, x)
    ensures IsGcRun(ws, es) && |es| == 3 && ws[0] == w && OnlyRunnerZero(es)
    ensures ws[3] == w.(stored := w.stored[x := w.stored[x] - {c}], runners := w.runners - {0},
                        t := w.t.(tombstones := map[]))
  {
    hide Apply;
    hide Enabled;
    var e0, e1, e2 := Delete(0, c, x), Acknowledge(0, [(c, x)]), Finalize(0, [c]);
    DeleteStep(w, c, x, now);
    var w1 := Apply(w, e0, now);
    AcknowledgeStep(w1, c, x, now);
    var w2 := Apply(w1, e1, now);
    FinalizeStep(w2, c, x, now);
    var w3 := Apply(w2, e2, now);
    assert w2.runners - {0} == w.runners - {0};
    ws, es := [w, w1, w2, w3], [Stamped(e0, now), Stamped(e1, now), Stamped(e2, now)];
  }

  ghost predicate OnlyRunnerZero(es: seq<Stamped>) {
    forall k | 0 <= k < |es| :: ByOneRunner(es[k].event)
  }

  lemma AcknowledgeOne(t: Tables, c: ChunkId, x: TargetId, now: int)
    requires t.tombstones == map[c := Tombstone(true, {x})]
    ensures Execute(t, AcknowledgeDeletes([(c, x)]), now)
            == (t.(tombstones := map[c := Tombstone(true, {})]), Empty)
  {
    var t1 := t.(tombstones := map[c := Tombstone(true, {})]);
    assert {x} - {x} == {};
    assert t.tombstones[c := Tombstone(true, {})] == t1.tombstones;
    assert AcknowledgeNode(t1, []) == Outcome(t1, Ok(()));
    assert [(c, x)][1..] == [];
  }

  lemma FinalizeOne(t: Tables, c: ChunkId, now: int)
    requires t.tombstones == map[c := Tombstone(true, {})]
    ensures Execute(t, FinalizeTombstones([c]), now) == (t.(tombstones := map[]), Empty)
  {
    assert t.tombstones - {c} == map[];
    assert FinalizeNode(t.(tombstones := map[]), []) == Outcome(t.(tombstones := map[]), Ok(()));
    assert [c][1..] == [];
  }

  lemma ReserveStep(w: World, n: nat, c: ChunkId, ticket: Ticket, now: int)
    requires w.t.tombstones == map[] && ticket !in w.used && ticket !in w.t.reservations
    requires n in w.writers && w.writers[n].Prepared? && LocalChunks(w.writers[n].m) == {c}
    requires w.writers[n].cur.id in w.t.inodes && w.t.inodes[w.writers[n].cur.id] == w.writers[n].cur
    ensures Enabled(w, Reserve(n, ticket, 0))
    ensures var v := w.writers[n];
            Apply(w, Reserve(n, ticket, 0), now)
            == w.(t := w.t.(reservations :=
                              w.t.reservations[ticket := Reservation(v.cur.id, v.cur.generation, {c}, 0)]),
                  used := w.used + {ticket},
                  writers := w.writers[n := Holding(v.cur, v.next, v.m, v.staged, ticket, {})])
  {
    hide Execute;
    hide LocalChunks;
    ReserveOne(w.t, ReserveRequest(w.writers[n], ticket, 0), now);
  }

  lemma PutStep(w: World, n: nat, c: ChunkId, x: TargetId, now: int)
    requires w.stored.Keys == {x} && n in w.writers && w.writers[n].Holding?
    requires w.writers[n].staged == {c} && w.writers[n].done == {}
    ensures Enabled(w, Put(n, c, {x}, true))
    ensures Apply(w, Put(n, c, {x}, true), now)
            == w.(stored := map[x := w.stored[x] + {c}], writers := w.writers[n := w.writers[n].(done := {c})])
  {
    assert (map y | y in w.stored :: if y in {x} then w.stored[y] + {c} else w.stored[y])
           == map[x := w.stored[x] + {c}];
    assert {} + {c} == {c};
  }

  /** The writer reserves, puts and commits; all of it is allowed. */
  lemma WriterCommits(w: World, n: nat, c: ChunkId, x: TargetId, ticket: Ticket, now: int)
    returns (ws: seq<World>, es: seq<Stamped>)
    requires w.t.tombstones == map[] && w.stored.Keys == {x} && ticket !in w.used && ticket !in w.t.reservations
    requires n in w.writers && w.writers[n].Prepared?
    requires var v := w.writers[n];
             && v.staged == {c} && v.m.extents == [Local(0, 1, c)]
             && v.cur.id in w.t.inodes && w.t.inodes[v.cur.id] == v.cur && v.cur.flushIntent.None?
             && v.next.id == v.cur.id && v.m.inode == v.cur.id
    ensures IsGcRun(ws, es) && |es| == 3 && ws[0] == w && OnlyRunnerZero(es)
    ensures ws[3].stored == map[x := w.stored[x] + {c}] && ws[3].runners == w.runners && ws[3].late == w.late
    ensures c in HeldChunks(ws[3].t)
  {
    var v := w.writers[n];
    OneChunk(v.m, c);
    hide LocalChunks;
    hide HeldChunks;
    var e0, e1, e2 := Reserve(n, ticket, 0), Put(n, c, {x}, true), Commit(n);
    ReserveStep(w, n, c, ticket, now);
    var w1 := Apply(w, e0, now);
    PutStep(w1, n, c, x, now);
    var w2 := Apply(w1, e1, now);
    assert Enabled(w2, e2);
    CommitOne(w2.t, CommitRequest(w2.writers[n]), c, now);
    hide Execute;
    var w3 := Apply(w2, e2, now);
    ws, es := [w, w1, w2, w3], [Stamped(e0, now), Stamped(e1, now), Stamped(e2, now)];
    hide Enabled;
    hide Apply;
  }

  lemma ReserveOne(t: Tables, req: Request, now: int)
    requires req.ReserveChunks? && t.tombstones == map[] && req.ticket !in t.reservations
    requires req.id in t.inodes && t.inodes[req.id].generation == req.expected
    ensures Execute(t, req, now) ==
            (t.(reservations := t.reservations[req.ticket :=
                  Reservation(req.id, req.expected, req.chunkIds, req.expiresAt)]), Empty)
  {
    hide Execute;
    Dispatch(t, req, now);
    assert req.chunkIds * t.tombstones.Keys == {};
  }

  lemma CommitOne(t: Tables, req: Request, c: ChunkId, now: int)
    requires req.CommitReserved? && req.manifest.extents == [Local(0, 1, c)] && req.manifest.inode == req.inode.id
    requires req.inode.id in t.inodes && t.inodes[req.inode.id].generation == req.expected
    requires t.inodes[req.inode.id].flushIntent.None?
    requires req.ticket in t.reservations
    requires t.reservations[req.ticket].inode == req.inode.id
    requires t.reservations[req.ticket].expectedGeneration == req.expected && t.reservations[req.ticket].chunks == {c}
    ensures c in HeldChunks(Execute(t, req, now).0)
  {
    Dispatch(t, req, now);
    hide Execute;
    OneChunk(req.manifest, c);
    var o := CommitReservedNode(t, req.ticket, req.expected, req.inode, req.manifest);
    assert o.tables.inodes[req.inode.id].manifestId == Some(t.nextManifest);
    assert o.tables.manifests[t.nextManifest] == req.manifest;
    assert Execute(t, req, now).0 == o.tables;
    hide Execute;
    hide CommitReservedNode;
    HeldIncludes(o.tables, req.inode.id);
  }

  /** From every such collision a run of enabled steps that ends in the second delete loses a chunk an inode holds. */
  lemma SecondDeleteLosesChunk(w: World, n: nat, c: ChunkId, x: TargetId, e: Event, ticket: Ticket, now: int)
    returns (ws: seq<World>, es: seq<Stamped>)
    requires Collision(w, n, c, x) && SecondDelete(w, c, x, e) && ticket !in w.used && ticket !in w.t.reservations
    ensures IsGcRun(ws, es) && ws[0] == w && !Safe(ws[|es|])
    ensures e.Late? ==> OnlyRunnerZero(es)
  {
    hide HeldChunks;
    var ws1, es1 := FirstCollector(w, n, c, x, now);
    var ws2, es2 := WriterCommits(ws1[3], n, c, x, ticket, now);
    Joined(ws1, es1, ws2, es2);
    LastDelete(ws2[3], c, x, e, now);
    Extended(ws1 + ws2[1..], es1 + es2, e, now);
    ws, es := ws1 + ws2[1..] + [Apply(ws2[3], e, now)], es1 + es2 + [Stamped(e, now)];
  }

  lemma LastDelete(w: World, c: ChunkId, x: TargetId, e: Event, now: int)
    requires w.stored.Keys == {x} && c in HeldChunks(w.t) && SecondDelete(w, c, x, e)
    ensures Enabled(w, e) && !Safe(Apply(w, e, now))
  {
    hide HeldChunks;
    assert Enabled(w, e);
    var w' := Apply(w, e, now);
    assert w'.stored == map[x := w.stored[x] - {c}] && w'.t == w.t;
    assert !Placed(w'.stored, c);
  }

  // ----------------------------------------------------- from a fresh store

  function CreateFile(): Request {
    Create(ROOT_INODE, "f", Regular, 0, 0, 0, None)
  }

  /** A store with one empty file. */
  ghost function FileStore(now: int): Tables {
    Execute(EmptyStore(now), CreateFile(), now).0
  }

  lemma OneFile(now: int)
    ensures var t := FileStore(now);
            && t.tombstones == map[] && t.manifests == map[] && t.reservations == map[]
            && 2 in t.inodes && t.inodes[2] == FreshInode(2, Regular, 0, 0, 0, None, now)
  {
    var e := EmptyStore(now);
    assert e.xattrs == map[];
    assert !BadName("f");
  }

  lemma OneByte(cur: Inode, next: Inode, m: Manifest, c: ChunkId)
    requires cur.fileType == Regular && cur.fields.Some? && cur.fields.value.backing == EphemeralMount
    requires cur.fields.value.dataState == Ephemeral
    requires m == Manifest(cur.id, cur.headGen + 1, 1, [Local(0, 1, c)])
    requires next == cur.(generation := cur.generation + 1, headGen := cur.headGen + 1, size := 1,
                          fields := Some(Mutated(cur.fields.value)), locality := LabelEphemeral)
    ensures DataCommit(cur, next, m)
  {
  }

  lemma MarkOne(t: Tables, c: ChunkId, now: int)
    requires t.tombstones == map[] && t.manifests == map[] && t.reservations == map[]
    ensures Execute(t, TombstoneBatch({c}), now).0 == t.(tombstones := map[c := Tombstone(false, {})])
  {
    hide Execute;
    Dispatch(t, TombstoneBatch({c}), now);
    assert HeldChunks(t) == {} && ReservedChunks(t) == {} && KeptManifests(t) == map[];
    assert {c} - {} - {} == {c};
    assert map[] + FreshTombstones({c}) == map[c := Tombstone(false, {})];
  }

  lemma InitializeOne(t: Tables, c: ChunkId, x: TargetId, now: int)
    requires t.tombstones == map[c := Tombstone(false, {})]
    ensures Execute(t, InitializeTargets([c], {x}), now) == (t.(tombstones := map[c := Tombstone(true, {x})]), Empty)
  {
    hide Execute;
    Dispatch(t, InitializeTargets([c], {x}), now);
    var t' := t.(tombstones := map[c := Tombstone(true, {x})]);
    assert t.tombstones[c := Tombstone(true, {x})] == t'.tombstones;
    assert [c][1..] == [];
    assert InitializeNode(t', [], {x}) == Outcome(t', Ok(()));
  }

  lemma InitializeNone(t: Tables, x: TargetId, now: int)
    ensures Execute(t, InitializeTargets([], {x}), now) == (t, Empty)
  {
    hide Execute;
    Dispatch(t, InitializeTargets([], {x}), now);
  }

  /** A file is created and a collector marks, lists and initializes the chunk somebody left behind. */
  lemma ChunkIsListed(c: ChunkId, x: TargetId, now: int) returns (ws: seq<World>, es: seq<Stamped>)
    ensures IsGcRun(ws, es) && ws[0] == StartWorld(map[x := {c}], now) && OnlyRunnerZero(es)
    ensures ws[|es|] == World(FileStore(now).(tombstones := map[c := Tombstone(true, {x})]), map[x := {c}], map[],
                              map[0 := Deleting(map[c := {x}], {})], {}, {})
  {
    hide Execute;
    var w0 := StartWorld(map[x := {c}], now);
    var w1 := w0.(t := FileStore(now));
    OneFile(now);
    var t2 := w1.t.(tombstones := map[c := Tombstone(false, {})]);
    MarkOne(w1.t, c, now);
    var w3 := w1.(t := t2, runners := map[0 := Listed(map[c := Tombstone(false, {})])]);
    InitializeOne(t2, c, x, now);
    hide FileStore;
    FirstSteps(w0, w1, t2, w3, c, now);
    ListedInitializes(w3, c, x, now);
    var w4 := Apply(w3, Initialize(0, [c], {x}), now);
    ws := [w0, w1, w1.(t := t2), w3, w4];
    es := [Stamped(Other(CreateFile()), now), Stamped(Mark(0, {c}), now), Stamped(List(0, {c}), now),
           Stamped(Initialize(0, [c], {x}), now)];
    hide Enabled;
    hide Apply;
  }

  lemma FirstSteps(w0: World, w1: World, t2: Tables, w3: World, c: ChunkId, now: int)
    requires w0.runners == map[] && w1 == w0.(t := Execute(w0.t, CreateFile(), now).0)
    requires t2 == Execute(w1.t, TombstoneBatch({c}), now).0 && t2.tombstones == map[c := Tombstone(false, {})]
    requires w3 == w1.(t := t2, runners := map[0 := Listed(map[c := Tombstone(false, {})])])
    ensures Enabled(w0, Other(CreateFile())) && Apply(w0, Other(CreateFile()), now) == w1
    ensures Enabled(w1, Mark(0, {c})) && Apply(w1, Mark(0, {c}), now) == w1.(t := t2)
    ensures Enabled(w1.(t := t2), List(0, {c})) && Apply(w1.(t := t2), List(0, {c}), now) == w3
  {
    hide Execute;
    assert Apply(w1.(t := t2), List(0, {c}), now).runners[0].tombs == map[c := Tombstone(false, {})];
  }

  lemma ListedInitializes(w: World, c: ChunkId, x: TargetId, now: int)
    requires w.runners == map[0 := Listed(map[c := Tombstone(false, {})])]
    requires w.t.tombstones == map[c := Tombstone(false, {})]
    ensures Enabled(w, Initialize(0, [c], {x}))
    ensures Apply(w, Initialize(0, [c], {x}), now)
            == w.(t := w.t.(tombstones := map[c := Tombstone(true, {x})]),
                  runners := map[0 := Deleting(map[c := {x}], {})])
  {
    hide Execute;
    InitializeOne(w.t, c, x, now);
    var tombs := w.runners[0].tombs;
    assert (map k | k in tombs :: if tombs[k].initialized then tombs[k].pending else {x}) == map[c := {x}];
  }

  lemma ListStep(w: World, r: nat, c: ChunkId, x: TargetId, now: int)
    requires w.t.tombstones == map[c := Tombstone(true, {x})] && r !in w.runners
    ensures Enabled(w, List(r, {c}))
    ensures Apply(w, List(r, {c}), now) == w.(runners := w.runners[r := Listed(map[c := Tombstone(true, {x})])])
  {
    hide Execute;
    assert Apply(w, List(r, {c}), now).runners[r].tombs == map[c := Tombstone(true, {x})];
  }

  lemma RecordedStep(w: World, r: nat, c: ChunkId, x: TargetId, now: int)
    requires r in w.runners && w.runners[r] == Listed(map[c := Tombstone(true, {x})])
    ensures Enabled(w, Initialize(r, [], {x}))
    ensures Apply(w, Initialize(r, [], {x}), now) == w.(runners := w.runners[r := Deleting(map[c := {x}], {})])
  {
    hide Execute;
    InitializeNone(w.t, x, now);
    assert Apply(w, Initialize(r, [], {x}), now).runners[r].pending == map[c := {x}];
  }

  /** A collector that finds the targets recorded lists the tombstone and goes to work as well. */
  lemma AnotherLists(w: World, r: nat, c: ChunkId, x: TargetId, now: int) returns (ws: seq<World>, es: seq<Stamped>)
    requires w.t.tombstones == map[c := Tombstone(true, {x})] && r !in w.runners
    ensures IsGcRun(ws, es) && ws[0] == w && (r == 0 ==> OnlyRunnerZero(es))
    ensures ws[|es|] == w.(runners := w.runners[r := Deleting(map[c := {x}], {})])
  {
    hide Enabled;
    hide Apply;
    var e0, e1 := List(r, {c}), Initialize(r, [], {x});
    ListStep(w, r, c, x, now);
    var w1 := Apply(w, e0, now);
    RecordedStep(w1, r, c, x, now);
    var w2 := Apply(w1, e1, now);
    assert w2.runners == w.runners[r := Deleting(map[c := {x}], {})];
    ws, es := [w, w1, w2], [Stamped(e0, now), Stamped(e1, now)];
  }

  /** A delete is sent and its collector vanishes. */
  lemma SentAndGone(w: World, c: ChunkId, x: TargetId, now: int) returns (ws: seq<World>, es: seq<Stamped>)
    requires w.runners == map[0 := Deleting(map[c := {x}], {})] && x in w.stored && w.late == {}
    ensures IsGcRun(ws, es) && ws[0] == w && OnlyRunnerZero(es)
    ensures ws[|es|] == w.(runners := map[], late := {(c, x)})
  {
    hide Execute;
    var w1 := w.(late := {(c, x)});
    assert Enabled(w, Send(0, c, x)) && Apply(w, Send(0, c, x), now) == w1;
    assert w.runners - {0} == map[];
    assert Enabled(w1, RunnerGone(0)) && Apply(w1, RunnerGone(0), now) == w1.(runners := map[]);
    ws, es := [w, w1, w1.(runners := map[])], [Stamped(Send(0, c, x), now), Stamped(RunnerGone(0), now)];
    hide Enabled;
    hide Apply;
  }

  /** A writer looks at the empty file and prepares to store the chunk in it. */
  lemma WriterPrepares(w: World, c: ChunkId, x: TargetId, now: int) returns (ws: seq<World>, es: seq<Stamped>)
    requires 2 in w.t.inodes && w.t.inodes[2] == FreshInode(2, Regular, 0, 0, 0, None, now) && w.writers == map[]
    requires w.stored.Keys == {x} && w.t.tombstones == map[c := Tombstone(true, {x})]
    requires 0 in w.runners && w.runners[0] == Deleting(map[c := {x}], {})
    ensures IsGcRun(ws, es) && ws[0] == w && OnlyRunnerZero(es) && Collision(ws[|es|], 0, c, x)
    ensures ws[|es|] == w.(writers := ws[|es|].writers)
  {
    hide Execute;
    var cur := w.t.inodes[2];
    var m := Manifest(cur.id, cur.headGen + 1, 1, [Local(0, 1, c)]);
    var next := cur.(generation := cur.generation + 1, headGen := cur.headGen + 1, size := 1,
                     fields := Some(Mutated(cur.fields.value)), locality := LabelEphemeral);
    OneByte(cur, next, m, c);
    OneChunk(m, c);
    hide DataCommit;
    hide LocalChunks;
    var e0, e1 := Look(0, 2), Prepare(0, next, m, {c});
    var w1 := w.(writers := map[0 := Looked(cur)]);
    assert Enabled(w, e0) && Apply(w, e0, now) == w1;
    assert Enabled(w1, e1);
    var w2 := Apply(w1, e1, now);
    assert w2 == w.(writers := map[0 := Prepared(cur, None, next, m, {c})]);
    ws, es := [w, w1, w2], [Stamped(e0, now), Stamped(e1, now)];
    hide Enabled;
    hide Apply;
  }

  lemma StillZero(es: seq<Stamped>, ds: seq<Stamped>)
    requires OnlyRunnerZero(es) && OnlyRunnerZero(ds)
    ensures OnlyRunnerZero(es + ds)
  {
  }

  /** With two collectors, a run from a fresh store loses a chunk an inode holds. */
  lemma TwoCollectorsLoseChunk(c: ChunkId, x: TargetId, now: int) returns (ws: seq<World>, es: seq<Stamped>)
    ensures IsGcRun(ws, es) && ws[0] == StartWorld(map[x := {c}], now) && !Safe(ws[|es|])
  {
    hide GcStepAt;
    hide Safe;
    hide Collision;
    OneFile(now);
    var w1, e1 := ChunkIsListed(c, x, now);
    var w2, e2 := AnotherLists(w1[|e1|], 1, c, x, now);
    Joined(w1, e1, w2, e2);
    var w3, e3 := WriterPrepares(w2[|e2|], c, x, now);
    Joined(w1 + w2[1..], e1 + e2, w3, e3);
    var w4, e4 := SecondDeleteLosesChunk(w3[|e3|], 0, c, x, Delete(1, c, x), 0, now);
    Joined(w1 + w2[1..] + w3[1..], e1 + e2 + e3, w4, e4);
    ws, es := w1 + w2[1..] + w3[1..] + w4[1..], e1 + e2 + e3 + e4;
  }

  /** With one collector whose failed delete comes late, so does a run from a fresh store. */
  lemma LateDeleteLosesChunk(c: ChunkId, x: TargetId, now: int) returns (ws: seq<World>, es: seq<Stamped>)
    ensures IsGcRun(ws, es) && ws[0] == StartWorld(map[x := {c}], now) && OnlyRunnerZero(es) && !Safe(ws[|es|])
  {
    hide GcStepAt;
    hide Safe;
    hide Collision;
    hide OnlyRunnerZero;
    OneFile(now);
    var w1, e1 := ChunkIsListed(c, x, now);
    var v, d := SentAndGone(w1[|e1|], c, x, now);
    Joined(w1, e1, v, d);
    StillZero(e1, d);
    var w2, e2 := AnotherLists(v[|d|], 0, c, x, now);
    Joined(w1 + v[1..], e1 + d, w2, e2);
    StillZero(e1 + d, e2);
    var w3, e3 := WriterPrepares(w2[|e2|], c, x, now);
    Joined(w1 + v[1..] + w2[1..], e1 + d + e2, w3, e3);
    StillZero(e1 + d + e2, e3);
    var w4, e4 := SecondDeleteLosesChunk(w3[|e3|], 0, c, x, Late(c, x), 0, now);
    Joined(w1 + v[1..] + w2[1..] + w3[1..], e1 + d + e2 + e3, w4, e4);
    StillZero(e1 + d + e2 + e3, e4);
    ws, es := w1 + v[1..] + w2[1..] + w3[1..] + w4[1..], e1 + d + e2 + e3 + e4;
  }
}
