/**
 A collection pass does its work: a chunk that nothing needs is, after one pass
 whose deletes succeed, on no target and without a tombstone, and nothing else is touched.
 */
module GcReclaim {
  import opened Types
  import opened MetaTables
  import opened CollectorEffects
  import opened GcWorld
  import opened GcSafety
  import opened GcTheorem

  /** Every target without the chunk. */
  function Without(stored: map<TargetId, set<ChunkId>>, c: ChunkId, gone: set<TargetId>): map<TargetId, set<ChunkId>> {
    map x | x in stored :: if x in gone then stored[x] - {c} else stored[x]
  }

  /** The world while collector 0 deletes the chunk from one target after the other. */
  ghost predicate Deletes(w: World, c: ChunkId, gone: set<TargetId>, w': World) {
    && gone <= w.stored.Keys && w'.stored == Without(w.stored, c, gone)
    && 0 in w'.runners && w'.runners[0] == Deleting(map[c := w.stored.Keys], set x | x in gone :: (c, x))
    && w' == w.(stored := w'.stored, runners := w.runners[0 := w'.runners[0]])
  }

  lemma DeleteNext(w: World, c: ChunkId, gone: set<TargetId>, w': World, x: TargetId, now: int)
    requires Deletes(w, c, gone, w') && x in w.stored && x !in gone
    ensures Enabled(w', Delete(0, c, x)) && Deletes(w, c, gone + {x}, Apply(w', Delete(0, c, x), now))
  {
    hide Execute;
    var d := set y | y in gone :: (c, y);
    assert (set y | y in gone + {x} :: (c, y)) == d + {(c, x)};
    assert w'.stored[x := w'.stored[x] - {c}] == Without(w.stored, c, gone + {x});
    assert w'.runners[0 := Deleting(map[c := w.stored.Keys], d + {(c, x)})]
        == w.runners[0 := Deleting(map[c := w.stored.Keys], d + {(c, x)})];
  }

  /** Delete the chunk from all targets, one after the other, and note the order. */
  lemma {:induction false} DeleteEverywhere(w: World, c: ChunkId, gone: set<TargetId>, w': World, now: int)
    returns (ws: seq<World>, es: seq<Stamped>, order: seq<(ChunkId, TargetId)>)
    requires Deletes(w, c, gone, w')
    ensures IsGcRun(ws, es) && ws[0] == w' && Deletes(w, c, w.stored.Keys, ws[|es|])
    ensures forall d :: d in order <==> exists x | x in w.stored && x !in gone :: d == (c, x)
    ensures OwnSteps(es)
    decreases |w.stored.Keys - gone|
  {
    hide Apply;
    hide Enabled;
    hide Deletes;
    if x :| x in w.stored && x !in gone {
      DeleteNext(w, c, gone, w', x, now);
      var next := Apply(w', Delete(0, c, x), now);
      assert w.stored.Keys - (gone + {x}) < w.stored.Keys - gone;
      StrictlyFewer(w.stored.Keys - (gone + {x}), w.stored.Keys - gone);
      var vs, ds, rest := DeleteEverywhere(w, c, gone + {x}, next, now);
      OneStep(w', Delete(0, c, x), now);
      Joined([w', next], [Stamped(Delete(0, c, x), now)], vs, ds);
      ws, es := [w', next] + vs[1..], [Stamped(Delete(0, c, x), now)] + ds;
      order := [(c, x)] + rest;
    } else {
      ws, es, order := [w'], [], [];
      AllGone(w, c, gone, w');
    }
  }

  lemma StrictlyFewer<T>(a: set<T>, b: set<T>)
    requires a < b
    ensures |a| < |b|
  {
    assert b == a + (b - a);
  }

  lemma AllGone(w: World, c: ChunkId, gone: set<TargetId>, w': World)
    requires Deletes(w, c, gone, w') && forall x | x in w.stored :: x in gone
    ensures Deletes(w, c, w.stored.Keys, w')
  {
    assert gone == w.stored.Keys;
  }

  lemma OneStep(w: World, e: Event, now: int)
    requires Enabled(w, e)
    ensures IsGcRun([w, Apply(w, e, now)], [Stamped(e, now)])
  {
    hide Enabled;
    hide Apply;
  }

  // ------------------------------------------------- the steps around them

  lemma MarkOrphan(w: World, c: ChunkId, now: int)
    requires 0 !in w.runners && !Needed(w.t, c)
    ensures Enabled(w, Mark(0, {c}))
    ensures var w' := Apply(w, Mark(0, {c}), now);
            && w' == w.(t := w'.t) && w'.t == w.t.(manifests := w'.t.manifests, tombstones := w'.t.tombstones)
            && w'.t.tombstones == w.t.tombstones[c := Tombstone(false, {})]
  {
    hide Execute;
    hide TombstoneNode;
    hide Needed;
    Dispatch(w.t, TombstoneBatch({c}), now);
    TombstoneEffect(w.t, {c});
    assert Apply(w, Mark(0, {c}), now).t == TombstoneNode(w.t, {c}).0;
  }

  lemma ListOrphan(w: World, c: ChunkId, now: int)
    requires 0 !in w.runners && c in w.t.tombstones && w.t.tombstones[c] == Tombstone(false, {})
    ensures Enabled(w, List(0, {c}))
    ensures Apply(w, List(0, {c}), now) == w.(runners := w.runners[0 := Listed(map[c := Tombstone(false, {})])])
  {
    hide Execute;
    assert Apply(w, List(0, {c}), now).runners[0].tombs == map[c := Tombstone(false, {})];
  }

  lemma InitializeOrphan(w: World, c: ChunkId, targets: set<TargetId>, now: int)
    requires 0 in w.runners && w.runners[0] == Listed(map[c := Tombstone(false, {})])
    requires c in w.t.tombstones && w.t.tombstones[c] == Tombstone(false, {})
    ensures Enabled(w, Initialize(0, [c], targets))
    ensures Apply(w, Initialize(0, [c], targets), now)
            == w.(t := w.t.(tombstones := w.t.tombstones[c := Tombstone(true, targets)]),
                  runners := w.runners[0 := Deleting(map[c := targets], {})])
  {
    hide Execute;
    InitializeTable(w.t, c, targets, now);
    assert Apply(w, Initialize(0, [c], targets), now).runners[0].pending == map[c := targets];
  }

  lemma InitializeTable(t: Tables, c: ChunkId, targets: set<TargetId>, now: int)
    requires c in t.tombstones && t.tombstones[c] == Tombstone(false, {})
    ensures Execute(t, InitializeTargets([c], targets), now)
            == (t.(tombstones := t.tombstones[c := Tombstone(true, targets)]), Empty)
  {
    hide Execute;
    hide InitializeNode;
    Dispatch(t, InitializeTargets([c], targets), now);
    var k := InitializeEffect(t, [c], targets);
    assert k == 1;
    assert Firsts([c], 1) == {c} by { assert [c][0] == c; }
    assert InitializeNode(t, [c], targets).tables.tombstones == t.tombstones[c := Tombstone(true, targets)];
  }

  lemma AcknowledgeOrphan(w: World, c: ChunkId, targets: set<TargetId>, order: seq<(ChunkId, TargetId)>, now: int)
    requires 0 in w.runners && w.runners[0] == Deleting(map[c := targets], set x | x in targets :: (c, x))
    requires c in w.t.tombstones && w.t.tombstones[c] == Tombstone(true, targets)
    requires forall d :: d in order <==> exists x | x in targets :: d == (c, x)
    ensures Enabled(w, Acknowledge(0, order))
    ensures Apply(w, Acknowledge(0, order), now)
            == w.(t := w.t.(tombstones := w.t.tombstones[c := Tombstone(true, {})]),
                  runners := w.runners[0 := Acknowledged(map[c := targets], set x | x in targets :: (c, x))])
  {
    hide Execute;
    hide AcknowledgeNode;
    assert forall d :: d in order <==> d in w.runners[0].deleted;
    Dispatch(w.t, AcknowledgeDeletes(order), now);
    var k := AcknowledgeEffect(w.t, order);
    forall j | 0 <= j < |order| ensures order[j].0 == c { assert order[j] in order; }
    AcknowledgedAll(w.t, AcknowledgeNode(w.t, order).tables, c, targets, order);
  }

  lemma AcknowledgedAll(t: Tables, t': Tables, c: ChunkId, targets: set<TargetId>, order: seq<(ChunkId, TargetId)>)
    requires c in t.tombstones && t.tombstones[c] == Tombstone(true, targets)
    requires forall d :: d in order <==> exists x | x in targets :: d == (c, x)
    requires t' == t.(tombstones := t'.tombstones) && t'.tombstones.Keys == t.tombstones.Keys
    requires forall b | b in t.tombstones ::
               && t'.tombstones[b].initialized == t.tombstones[b].initialized
               && forall x :: x in t'.tombstones[b].pending <==>
                                x in t.tombstones[b].pending && (b, x) !in Firsts(order, |order|)
    ensures t'.tombstones == t.tombstones[c := Tombstone(true, {})]
  {
    forall d ensures d in Firsts(order, |order|) <==> d in order {
      if d in order { var j :| 0 <= j < |order| && order[j] == d; }
    }
    forall b | b in t.tombstones ensures t'.tombstones[b] == t.tombstones[c := Tombstone(true, {})][b] {
      if b == c {
        assert t'.tombstones[b].pending == {};
      } else {
        assert t'.tombstones[b].pending == t.tombstones[b].pending;
      }
    }
  }

  lemma FinalizeOrphan(w: World, c: ChunkId, targets: set<TargetId>, now: int)
    requires 0 in w.runners && w.runners[0] == Acknowledged(map[c := targets], set x | x in targets :: (c, x))
    requires c in w.t.tombstones && w.t.tombstones[c] == Tombstone(true, {})
    ensures Enabled(w, Finalize(0, [c]))
    ensures Apply(w, Finalize(0, [c]), now)
            == w.(t := w.t.(tombstones := w.t.tombstones - {c}), runners := w.runners - {0})
  {
    hide Execute;
    hide FinalizeNode;
    Dispatch(w.t, FinalizeTombstones([c]), now);
    var k := FinalizeEffect(w.t, [c]);
    assert Firsts([c], 0) == {};
    assert k == 1;
    assert Firsts([c], 1) == {c} by { assert [c][0] == c; }
  }

  /** The chunk is on no target and bears no tombstone; other chunks, names and records are as before. */
  ghost predicate Reclaimed(w: World, c: ChunkId, w': World) {
    && w'.stored == Without(w.stored, c, w.stored.Keys) && c !in w'.t.tombstones
    && w'.t.tombstones == w.t.tombstones - {c}
    && w'.t == w.t.(tombstones := w'.t.tombstones, manifests := w'.t.manifests)
    && w'.runners == w.runners && w'.writers == w.writers && w'.used == w.used && w'.late == w.late
  }

  /** The collector marks, lists and initializes the chunk. */
  lemma OrphanIsListed(w: World, c: ChunkId, now: int) returns (ws: seq<World>, es: seq<Stamped>)
    requires 0 !in w.runners && !Needed(w.t, c)
    ensures IsGcRun(ws, es) && ws[0] == w && OwnSteps(es)
    ensures var w' := ws[|es|];
            && w' == w.(t := w'.t, runners := w.runners[0 := Deleting(map[c := w.stored.Keys], {})])
            && w'.t == w.t.(manifests := w'.t.manifests, tombstones := w'.t.tombstones)
            && w'.t.tombstones == w.t.tombstones[c := Tombstone(true, w.stored.Keys)]
  {
    hide Apply;
    hide Enabled;
    hide Needed;
    var e0, e1, e2 := Mark(0, {c}), List(0, {c}), Initialize(0, [c], w.stored.Keys);
    MarkOrphan(w, c, now);
    var w1 := Apply(w, e0, now);
    ListOrphan(w1, c, now);
    var w2 := Apply(w1, e1, now);
    InitializeOrphan(w2, c, w.stored.Keys, now);
    var w3 := Apply(w2, e2, now);
    ws, es := [w, w1, w2, w3], [Stamped(e0, now), Stamped(e1, now), Stamped(e2, now)];
  }

  /** Steps of one collector, none of them a late delete. */
  ghost predicate OwnSteps(es: seq<Stamped>) {
    forall k | 0 <= k < |es| :: ByOneRunner(es[k].event) && !es[k].event.Late?
  }

  /** Once the chunk is gone from every target, the collector acknowledges and finalizes. */
  lemma OrphanIsFinalized(w: World, c: ChunkId, targets: set<TargetId>, order: seq<(ChunkId, TargetId)>, now: int)
    returns (ws: seq<World>, es: seq<Stamped>)
    requires 0 in w.runners && w.runners[0] == Deleting(map[c := targets], set x | x in targets :: (c, x))
    requires c in w.t.tombstones && w.t.tombstones[c] == Tombstone(true, targets)
    requires forall d :: d in order <==> exists x | x in targets :: d == (c, x)
    ensures IsGcRun(ws, es) && ws[0] == w && OwnSteps(es)
    ensures ws[|es|] == w.(t := w.t.(tombstones := w.t.tombstones - {c}), runners := w.runners - {0})
  {
    hide Apply;
    hide Enabled;
    var e0, e1 := Acknowledge(0, order), Finalize(0, [c]);
    AcknowledgeOrphan(w, c, targets, order, now);
    var w1 := Apply(w, e0, now);
    FinalizeOrphan(w1, c, targets, now);
    var w2 := Apply(w1, e1, now);
    assert w2.t.tombstones == w.t.tombstones - {c} && w2.runners == w.runners - {0};
    ws, es := [w, w1, w2], [Stamped(e0, now), Stamped(e1, now)];
  }

  /** A pass over a chunk nothing needs reclaims it, whatever writers and other collectors are doing. */
  lemma OrphanIsReclaimed(w: World, c: ChunkId, now: int) returns (ws: seq<World>, es: seq<Stamped>)
    requires 0 !in w.runners && !Needed(w.t, c)
    ensures IsGcRun(ws, es) && ws[0] == w && Reclaimed(w, c, ws[|es|]) && OwnSteps(es)
  {
    hide Needed;
    hide GcStepAt;
    hide Deletes;
    hide ByOneRunner;
    var ws1, es1 := OrphanIsListed(w, c, now);
    var w1 := ws1[|es1|];
    DeletesStart(w1, c);
    var ws2, es2, order := DeleteEverywhere(w1, c, {}, w1, now);
    Joined(ws1, es1, ws2, es2);
    DeletesEnd(w1, c, ws2[|es2|]);
    var ws3, es3 := OrphanIsFinalized(ws2[|es2|], c, w.stored.Keys, order, now);
    Joined(ws1 + ws2[1..], es1 + es2, ws3, es3);
    ws, es := ws1 + ws2[1..] + ws3[1..], es1 + es2 + es3;
    assert ws3[|es3|].t.tombstones == w.t.tombstones - {c} && ws3[|es3|].runners == w.runners;
  }

  lemma DeletesStart(w: World, c: ChunkId)
    requires 0 in w.runners && w.runners[0] == Deleting(map[c := w.stored.Keys], {})
    ensures Deletes(w, c, {}, w)
  {
    assert Without(w.stored, c, {}) == w.stored;
    assert (set x: TargetId | x in {} :: (c, x)) == {};
  }

  lemma DeletesEnd(w: World, c: ChunkId, w': World)
    requires Deletes(w, c, w.stored.Keys, w')
    ensures w'.stored == Without(w.stored, c, w.stored.Keys) && w'.t == w.t && w'.writers == w.writers
    ensures 0 in w'.runners && w'.runners == w.runners[0 := w'.runners[0]] && w'.used == w.used && w'.late == w.late
    ensures w'.runners[0] == Deleting(map[c := w.stored.Keys], set x | x in w.stored.Keys :: (c, x))
  {
  }
}
