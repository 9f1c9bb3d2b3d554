/**
 The collection protocol over whole runs.
 */
module GcTheorem {
  import opened Types
  import opened MetaTables
  import opened Namespace
  import opened NamespaceOps
  import opened Admission
  import opened FileState
  import opened Fencing
  import opened DataOps
  import opened StateMachine
  import opened GcWorld
  import opened GcSafety

  datatype Stamped = Stamped(event: Event, now: int)

  ghost predicate IsGcRun(ws: seq<World>, es: seq<Stamped>) {
    && |ws| == |es| + 1
    && forall k | 0 <= k < |es| :: GcStepAt(ws, es, k)
  }

  ghost predicate GcStepAt(ws: seq<World>, es: seq<Stamped>, k: nat)
    requires k < |es| && k + 1 < |ws|
  {
    Enabled(ws[k], es[k].event) && ws[k+1] == Apply(ws[k], es[k].event, es[k].now)
  }

  /** A fresh store over targets that may already hold chunks nobody refers to. */
  function StartWorld(stored: map<TargetId, set<ChunkId>>, now: int): World {
    World(EmptyStore(now), stored, map[], map[], {}, {})
  }

  lemma StartInv(stored: map<TargetId, set<ChunkId>>, now: int)
    ensures WorldInv(StartWorld(stored, now))
  {
    hide Inv;
    EmptyStoreInv(now);
  }

  /**
   With any number of writers and collectors, as long as every delete that reaches a
   target finds its chunk tombstoned, every held chunk is on some target, in every state.
   */
  lemma {:induction false} FencedDeletesAreSafe(ws: seq<World>, es: seq<Stamped>, k: nat)
    requires IsGcRun(ws, es) && k < |ws| && CoreInv(ws[0])
    requires forall j | 0 <= j < |es| :: Harmless(ws[j], es[j].event)
    ensures CoreInv(ws[k]) && Safe(ws[k])
    decreases k
  {
    hide Apply;
    hide Enabled;
    if k > 0 {
      FencedDeletesAreSafe(ws, es, k - 1);
      assert GcStepAt(ws, es, k - 1);
      hide CoreInv;
      StepKeeps(ws[k-1], es[k-1].event, es[k-1].now);
    }
    WorldIsSafe(ws[k]);
  }

  /** No delete of a failed call reaches its target after the tombstone is gone. */
  ghost predicate NoneTooLate(ws: seq<World>, es: seq<Stamped>)
    requires |ws| == |es| + 1
  {
    forall j | 0 <= j < |es| :: es[j].event.Late? ==> Harmless(ws[j], es[j].event)
  }

  /**
   With one collector, any writers, and steps lost or repeated at will, every
   local chunk of every manifest an inode holds is on some target, in every state.
   */
  lemma {:induction false} HeldChunksStayPlaced(ws: seq<World>, es: seq<Stamped>, k: nat)
    requires IsGcRun(ws, es) && k < |ws| && WorldInv(ws[0])
    requires (forall j | 0 <= j < |es| :: ByOneRunner(es[j].event)) && NoneTooLate(ws, es)
    ensures WorldInv(ws[k]) && Safe(ws[k])
    decreases k
  {
    hide Apply;
    hide Enabled;
    hide CoreInv;
    hide RunnerOk;
    hide Harmless;
    if k > 0 {
      HeldChunksStayPlaced(ws, es, k - 1);
      assert GcStepAt(ws, es, k - 1);
      var w, e := ws[k-1], es[k-1].event;
      if e.Delete? {
        OwnDeleteHarmless(w, e);
      } else if !e.Late? {
        NoDelete(w, e);
      }
      StepKeeps(w, e, es[k-1].now);
      RunnerKeeps(w, e, es[k-1].now);
    }
    WorldIsSafe(ws[k]);
  }

  lemma NoDelete(w: World, e: Event)
    requires !e.Delete? && !e.Late?
    ensures Harmless(w, e)
  {
  }

  lemma WorldIsSafe(w: World)
    requires CoreInv(w)
    ensures Safe(w)
  {
  }

  // ---------------------------------------------------------- building runs

  lemma Extended(ws: seq<World>, es: seq<Stamped>, e: Event, now: int)
    requires IsGcRun(ws, es) && Enabled(ws[|es|], e)
    ensures IsGcRun(ws + [Apply(ws[|es|], e, now)], es + [Stamped(e, now)])
  {
    hide Enabled;
    hide Apply;
    var ws', es' := ws + [Apply(ws[|es|], e, now)], es + [Stamped(e, now)];
    forall k | 0 <= k < |es'| ensures GcStepAt(ws', es', k) {
      if k < |es| { assert GcStepAt(ws, es, k); }
    }
  }

  lemma Joined(ws: seq<World>, es: seq<Stamped>, vs: seq<World>, ds: seq<Stamped>)
    requires IsGcRun(ws, es) && IsGcRun(vs, ds) && vs[0] == ws[|es|]
    ensures IsGcRun(ws + vs[1..], es + ds) && (ws + vs[1..])[0] == ws[0] && (ws + vs[1..])[|es + ds|] == vs[|ds|]
  {
    hide Enabled;
    hide Apply;
    var ws', es' := ws + vs[1..], es + ds;
    forall k | 0 <= k < |es'| ensures GcStepAt(ws', es', k) {
      if k < |es| {
        assert GcStepAt(ws, es, k);
      } else {
        assert GcStepAt(vs, ds, k - |es|);
        assert ws'[k] == vs[k - |es|] && ws'[k+1] == vs[k - |es| + 1];
      }
    }
  }
}
