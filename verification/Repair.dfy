/**
 Catch-up repair: walk the merged inventory and copy under-replicated chunks.
 The copies change the inventories that are still being walked.
 */
module Repair {
  import opened Types
  import opened Sets
  import opened Inventory

  /** Inventories only grow, and only by the given chunks. */
  ghost predicate Grows(inv: Inventories, inv': Inventories, added: set<ChunkId>) {
    inv'.Keys == inv.Keys && forall w | w in inv :: inv[w] <= inv'[w] <= inv[w] + added
  }

  lemma GrowsTrans(a: Inventories, b: Inventories, c: Inventories, added: set<ChunkId>)
    requires Grows(a, b, added) && Grows(b, c, added)
    ensures Grows(a, c, added)
  {
  }

  /** Where a chunk should be, as placement answers the n-th time it is asked. */
  type Wants = (nat, ChunkId) -> Result<set<WorkerId>>

  /** Enough replicas on the workers placement answered with. */
  predicate Enough(inv: Inventories, want: Result<set<WorkerId>>, required: nat, c: ChunkId) {
    want.Ok? && |Owners(inv, c) * want.value| >= required
  }

  /** The chunk has the required replicas by one of the answers placement gave in that time. */
  ghost predicate Satisfied(inv: Inventories, want: Wants, since: nat, asked: nat, required: nat, c: ChunkId) {
    exists n: nat | since <= n < asked :: Enough(inv, want(n, c), required, c)
  }

  lemma SatisfiedGrows(inv: Inventories, inv': Inventories, added: set<ChunkId>, want: Wants, since: nat, asked: nat,
                       since': nat, asked': nat, required: nat, c: ChunkId)
    requires Grows(inv, inv', added) && since' <= since && asked <= asked'
    requires Satisfied(inv, want, since, asked, required, c)
    ensures Satisfied(inv', want, since', asked', required, c)
  {
    var n: nat :| since <= n < asked && Enough(inv, want(n, c), required, c);
    SubsetSize(Owners(inv, c) * want(n, c).value, Owners(inv', c) * want(n, c).value);
    assert Enough(inv', want(n, c), required, c);
  }

  /** The inventories with the chunk copied to further workers. */
  function Copied(inv: Inventories, c: ChunkId, onto: set<WorkerId>): Inventories {
    map w | w in inv :: if w in onto then inv[w] + {c} else inv[w]
  }

  /** The `n` smallest members. */
  function Least(s: set<nat>, n: nat): set<nat> {
    set w | w in s && |Below(s, w)| < n
  }

  function Below(s: set<nat>, w: nat): set<nat> {
    set v | v in s && v < w
  }

  /** Every member of `low` is smaller than every other member of `s`. */
  ghost predicate LowIn(low: set<nat>, s: set<nat>) {
    low <= s && forall a, b | a in low && b in s && b !in low :: a < b
  }

  lemma LeastIs(s: set<nat>, low: set<nat>)
    requires LowIn(low, s)
    ensures Least(s, |low|) == low
  {
    forall w | w in s ensures |Below(s, w)| < |low| <==> w in low {
      if w in low {
        forall v | v in Below(s, w) ensures v in low - {w} { assert v !in low ==> w < v; }
        SubsetSize(Below(s, w), low - {w});
      } else {
        forall v | v in low ensures v in Below(s, w) { }
        SubsetSize(low, Below(s, w));
      }
    }
  }

  lemma NextIsLeast(s: set<nat>, low: set<nat>, w: nat, n: nat)
    requires low <= s && w in s && w !in low && (forall b | b in s && b !in low :: w <= b) && |low| < n
    ensures w in Least(s, n)
  {
    forall v | v in Below(s, w) ensures v in low { assert v !in low ==> w <= v; }
    SubsetSize(Below(s, w), low);
  }

  /** Workers are gone through in ascending order; the missing ones among those passed have got the chunk. */
  ghost predicate CopyLoop(healthy: set<WorkerId>, known: set<WorkerId>, desired: set<WorkerId>, todo: set<WorkerId>,
                           onto: set<WorkerId>)
  {
    && todo <= healthy && onto == (healthy - known) * desired - todo
    && |(known + onto) * desired| == |known * desired| + |onto|
    && forall x, y | x in healthy && x !in todo && y in todo :: x < y
  }

  lemma CopyLoopStart(healthy: set<WorkerId>, known: set<WorkerId>, desired: set<WorkerId>)
    ensures CopyLoop(healthy, known, desired, healthy, {}) && known + {} == known
  {
  }

  lemma CopyLoopNext(healthy: set<WorkerId>, known: set<WorkerId>, desired: set<WorkerId>, todo: set<WorkerId>,
                     onto: set<WorkerId>, w: WorkerId)
    requires CopyLoop(healthy, known, desired, todo, onto) && w in todo && forall x | x in todo :: w <= x
    ensures var taken := w !in known + onto && w in desired;
            && CopyLoop(healthy, known, desired, todo - {w}, if taken then onto + {w} else onto)
            && w !in onto && w in healthy && (known + onto) + {w} == known + (onto + {w})
  {
    if w !in known + onto && w in desired {
      assert (known + (onto + {w})) * desired == (known + onto) * desired + {w};
      assert onto + {w} == (healthy - known) * desired - (todo - {w});
    } else {
      assert onto == (healthy - known) * desired - (todo - {w});
    }
  }

  lemma CopyLoopLow(healthy: set<WorkerId>, known: set<WorkerId>, desired: set<WorkerId>, todo: set<WorkerId>,
                    onto: set<WorkerId>)
    requires CopyLoop(healthy, known, desired, todo, onto)
    ensures |(known + onto) * desired| == |known * desired| + |onto| && onto <= (healthy - known) * desired
    ensures todo == {} ==> onto == (healthy - known) * desired
    ensures Least((healthy - known) * desired, |onto|) == onto && |onto| <= |(healthy - known) * desired|
  {
    LeastIs((healthy - known) * desired, onto);
    SubsetSize(onto, (healthy - known) * desired);
  }

  lemma CopyLoopFails(healthy: set<WorkerId>, known: set<WorkerId>, desired: set<WorkerId>, todo: set<WorkerId>,
                      onto: set<WorkerId>, w: WorkerId, need: nat, c: ChunkId, faults: Faults)
    requires CopyLoop(healthy, known, desired, todo, onto) && w in todo && (forall x | x in todo :: w <= x)
    requires w !in known && w in desired && |onto| < need && faults.unwritable(w, c)
    ensures !CopiesLand((healthy - known) * desired, need, c, faults)
  {
    NextIsLeast((healthy - known) * desired, onto, w, need);
  }

  lemma CopyLoopDone(healthy: set<WorkerId>, known: set<WorkerId>, desired: set<WorkerId>, todo: set<WorkerId>,
                     onto: set<WorkerId>, need: nat, c: ChunkId, faults: Faults)
    requires CopyLoop(healthy, known, desired, todo, onto) && |onto| <= need && (todo == {} || |onto| == need)
    requires forall w | w in onto :: !faults.unwritable(w, c)
    ensures var missing := (healthy - known) * desired;
            && (|onto| == need <==> |missing| >= need) && onto <= missing
            && (|onto| == need ==> onto == Least(missing, need) && CopiesLand(missing, need, c, faults))
  {
    CopyLoopLow(healthy, known, desired, todo, onto);
  }

  /** Which remote calls fail. */
  datatype Faults = Faults(unreadable: (WorkerId, ChunkId) -> bool, unwritable: (WorkerId, ChunkId) -> bool)

  /** The first of the known holders can be read. */
  ghost predicate SourceReads(known: set<WorkerId>, c: ChunkId, faults: Faults) {
    exists m | m in known :: (forall x | x in known :: m <= x) && !faults.unreadable(m, c)
  }

  /** The lowest `n` of the workers can be written to. */
  ghost predicate CopiesLand(workers: set<WorkerId>, n: nat, c: ChunkId, faults: Faults) {
    forall w | w in Least(workers, n) :: !faults.unwritable(w, c)
  }

  /**
   A chunk known to be on `known` can be repaired: placement answers, and enough of its
   answer hold the chunk already, or the first of them can be read, enough of the answer
   are healthy, and the missing replicas can be written to the lowest of the others.
   */
  ghost predicate CanRepair(healthy: set<WorkerId>, c: ChunkId, known: set<WorkerId>, want: Result<set<WorkerId>>,
                            required: nat, faults: Faults)
  {
    && want.Ok?
    && (|| |known * want.value| >= required
        || (&& SourceReads(known, c, faults) && |healthy * want.value| >= required
            && CopiesLand((healthy - known) * want.value, required - |known * want.value|, c, faults)))
  }

  /** Placement always names enough healthy workers, and no remote call fails. */
  ghost predicate NoTrouble(healthy: set<WorkerId>, want: Wants, required: nat, faults: Faults) {
    && (forall n: nat, c: ChunkId :: want(n, c).Ok? && |healthy * want(n, c).value| >= required)
    && (forall w: WorkerId, c: ChunkId :: !faults.unreadable(w, c) && !faults.unwritable(w, c))
  }

  lemma NoTroubleRepairs(healthy: set<WorkerId>, c: ChunkId, known: set<WorkerId>, want: Wants, n: nat,
                         required: nat, faults: Faults)
    requires NoTrouble(healthy, want, required, faults) && known != {}
    ensures CanRepair(healthy, c, known, want(n, c), required, faults)
  {
    var m := SomeLeast(known);
    assert SourceReads(known, c, faults);
  }

  lemma EnoughHealthy(healthy: set<WorkerId>, want: Wants, required: nat, faults: Faults)
    requires NoTrouble(healthy, want, required, faults)
    ensures |healthy| >= required
  {
    SubsetSize(healthy * want(0, 0).value, healthy);
  }

  /** How many replicas are missing. */
  function Short(required: nat, placed: nat): nat {
    if placed < required then required - placed else 0
  }

  /** Keys of the universe a worker's cursor has not passed. */
  function Ahead(u: set<ChunkId>, cursor: Cursors, w: WorkerId): set<ChunkId> {
    set k | k in u && (w in cursor ==> cursor[w] < k)
  }

  /** How much of the walk is left: the keys ahead of each worker's cursor, summed over the workers. */
  ghost function Left(u: set<ChunkId>, cursor: Cursors, workers: set<WorkerId>): nat {
    if workers == {} then 0
    else var w :| w in workers; |Ahead(u, cursor, w)| + Left(u, cursor, workers - {w})
  }

  lemma {:induction false} LeftTake(u: set<ChunkId>, cursor: Cursors, workers: set<WorkerId>, v: WorkerId)
    requires v in workers
    ensures Left(u, cursor, workers) == |Ahead(u, cursor, v)| + Left(u, cursor, workers - {v})
    decreases |workers|
  {
    var w :| w in workers && Left(u, cursor, workers) == |Ahead(u, cursor, w)| + Left(u, cursor, workers - {w});
    if w != v {
      LeftTake(u, cursor, workers - {w}, v);
      LeftTake(u, cursor, workers - {v}, w);
      assert workers - {w} - {v} == workers - {v} - {w};
    }
  }

  lemma {:induction false} LeftFalls(u: set<ChunkId>, a: Cursors, b: Cursors, workers: set<WorkerId>)
    requires forall w | w in workers :: Ahead(u, b, w) <= Ahead(u, a, w)
    ensures Left(u, b, workers) <= Left(u, a, workers)
    decreases |workers|
  {
    if workers != {} {
      var w :| w in workers;
      LeftTake(u, a, workers, w);
      LeftTake(u, b, workers, w);
      SubsetSize(Ahead(u, b, w), Ahead(u, a, w));
      LeftFalls(u, a, b, workers - {w});
    }
  }

  /** A page that moves a cursor makes progress, whatever was copied meanwhile. */
  lemma PageProgress(u: set<ChunkId>, inv: Inventories, a: Cursors, b: Cursors, page: map<ChunkId, set<WorkerId>>)
    requires CursorsOk(inv, a, b, page) && page.Keys <= u
    ensures Left(u, b, inv.Keys) <= Left(u, a, inv.Keys)
    ensures page != map[] ==> Left(u, b, inv.Keys) < Left(u, a, inv.Keys)
  {
    forall w | w in inv ensures Ahead(u, b, w) <= Ahead(u, a, w) { assert CursorOk(a, b, page, w); }
    LeftFalls(u, a, b, inv.Keys);
    if page == map[] { return; }
    var w :| w in inv && !SameAt(a, b, w);
    assert CursorOk(a, b, page, w);
    assert b[w] in Ahead(u, a, w) && b[w] !in Ahead(u, b, w);
    LeftTake(u, a, inv.Keys, w);
    LeftTake(u, b, inv.Keys, w);
    LeftFalls(u, a, b, inv.Keys - {w});
    SubsetSize(Ahead(u, b, w), Ahead(u, a, w) - {b[w]});
  }

  /** Each chunk a worker held at the start is still ahead of its cursor or taken care of. */
  ghost predicate Tracked(start: Inventories, inv: Inventories, cursor: Cursors, want: Wants, since: nat,
                          asked: nat, required: nat) {
    forall w, c | w in start && c in start[w] ::
      (w in inv && c in Beyond(inv, cursor, w)) || Satisfied(inv, want, since, asked, required, c)
  }

  lemma TrackedStep(start: Inventories, inv: Inventories, inv': Inventories, a: Cursors, b: Cursors,
                    page: map<ChunkId, set<WorkerId>>, want: Wants, since: nat, asked: nat, asked': nat, required: nat)
    requires Tracked(start, inv, a, want, since, asked, required) && PageOk(inv, a, b, page)
    requires Grows(inv, inv', page.Keys) && asked <= asked'
    requires forall c | c in page :: Satisfied(inv', want, since, asked', required, c)
    ensures Tracked(start, inv', b, want, since, asked', required)
  {
    hide Satisfied;
    forall w, c | w in start && c in start[w]
      ensures (w in inv' && c in Beyond(inv', b, w)) || Satisfied(inv', want, since, asked', required, c)
    {
      if Satisfied(inv, want, since, asked, required, c) {
        SatisfiedGrows(inv, inv', page.Keys, want, since, asked, since, asked', required, c);
      } else if c !in page {
        assert c in Beyond(inv, b, w);
      }
    }
  }

  class Cluster {
    /** Placement; every healthy worker when there is no membership. */
    const want: Wants
    const required: nat
    const faults: Faults
    /** What each healthy worker holds. */
    var inv: Inventories
    var cursor: Cursors
    /** How often placement was asked. */
    var asked: nat

    constructor (want: Wants, required: nat, faults: Faults, inv: Inventories)
      ensures this.want == want && this.required == required && this.faults == faults
      ensures this.inv == inv && cursor == map[]
    {
      this.want, this.required, this.faults := want, required, faults;
      this.inv, this.cursor, this.asked := inv, map[], 0;
    }

    /** Write the chunk to desired workers in ascending order until enough of them hold it. */
    method CopyTo(c: ChunkId, known: set<WorkerId>, desired: set<WorkerId>)
      returns (r: Result<nat>, ghost onto: set<WorkerId>)
      requires known <= Owners(inv, c) && |known * desired| < required
      modifies this`inv
      ensures inv == Copied(old(inv), c, onto) && onto <= (old(inv).Keys - known) * desired
      ensures var missing, need := (old(inv).Keys - known) * desired, required - |known * desired|;
              && (r.Ok? <==> |missing| >= need && CopiesLand(missing, need, c, faults))
              && (r.Ok? ==> onto == Least(missing, need) && r.value == |onto| == need)
      ensures r.Err? ==> r.error == Io
    {
      hide Copied;
      hide Least;
      hide CopyLoop;
      hide CopiesLand;
      hide Owners;
      var holders, copies := known, 0;
      onto := {};
      ghost var healthy, need := inv.Keys, required - |known * desired|;
      CopiedNone(inv, c);
      CopyLoopStart(healthy, known, desired);
      var todo := inv.Keys;
      while todo != {} && |holders * desired| < required
        invariant inv == Copied(old(inv), c, onto) && inv.Keys == healthy && holders == known + onto && copies == |onto|
        invariant CopyLoop(healthy, known, desired, todo, onto) && |onto| <= need
        invariant forall w | w in onto :: !faults.unwritable(w, c)
        decreases |todo|
      {
        var w := LeastOf(todo);
        CopyLoopLow(healthy, known, desired, todo, onto);
        CopyLoopNext(healthy, known, desired, todo, onto, w);
        if w !in holders && w in desired {
          if faults.unwritable(w, c) {
            CopyLoopFails(healthy, known, desired, todo, onto, w, need, c, faults);
            return Err(Io), onto;
          }
          CopiedMore(old(inv), c, onto, w);
          inv := inv[w := inv[w] + {c}];
          holders, onto := holders + {w}, onto + {w};
          copies := copies + 1;
        }
        todo := todo - {w};
      }
      CopyLoopLow(healthy, known, desired, todo, onto);
      CopyLoopDone(healthy, known, desired, todo, onto, need, c, faults);
      r := if |holders * desired| < required then Err(Io) else Ok(copies);
    }

    /** Copy one chunk to workers it should be on until it has enough replicas, and to no more of them. */
    method RepairChunk(c: ChunkId, known: set<WorkerId>) returns (r: Result<nat>, ghost onto: set<WorkerId>)
      requires known <= Owners(inv, c)
      modifies this`inv, this`asked
      ensures asked == old(asked) + 1 && inv == Copied(old(inv), c, onto) && onto <= old(inv).Keys - known
      ensures onto != {} ==> want(old(asked), c).Ok? && onto <= want(old(asked), c).value
      ensures r.Ok? <==> CanRepair(old(inv).Keys, c, known, want(old(asked), c), required, faults)
      ensures r.Err? ==> r.error == if want(old(asked), c).Err? then want(old(asked), c).error else Io
      ensures r.Ok? ==> Enough(inv, want(old(asked), c), required, c)
      ensures r.Ok? ==> r.value == |onto| == Short(required, |known * want(old(asked), c).value|)
    {
      hide Copied;
      hide Enough;
      hide Least;
      hide CanRepair;
      hide SourceReads;
      hide CopiesLand;
      hide Owners;
      onto := {};
      CopiedNone(inv, c);
      var desired := want(asked, c);
      asked := asked + 1;
      if desired.Err? {
        NoAnswer(inv.Keys, c, known, desired, required, faults);
        return Err(desired.error), onto;
      }
      OwnersHealthy(inv, c);
      CanRepairIs(inv.Keys, c, known, desired.value, required, faults);
      EnoughNow(inv, c, known, {}, desired, required);
      if |known * desired.value| >= required {
        return Ok(0), onto;
      }
      if known == {} {
        NoSource(c, faults);
        return Err(Io), onto;
      }
      var source := LeastOf(known);
      SourceIs(known, source, c, faults);
      if faults.unreadable(source, c) {
        return Err(Io), onto;
      }
      r, onto := CopyTo(c, known, desired.value);
      EnoughNow(old(inv), c, known, onto, desired, required);
    }

    /** Repair the chunks of one page, in ascending order. */
    method RepairChunks(page: map<ChunkId, set<WorkerId>>) returns (r: Result<nat>)
      requires forall c | c in page :: page[c] <= Owners(inv, c)
      modifies this`inv, this`asked
      ensures Grows(old(inv), inv, page.Keys) && asked >= old(asked)
      ensures r.Ok? ==> forall c | c in page :: Satisfied(inv, want, old(asked), asked, required, c)
      ensures r.Ok? <==> PageRepairs(old(inv).Keys, page, want, old(asked), required, faults)
    {
      hide Satisfied;
      hide Enough;
      hide Copied;
      hide CanRepair;
      hide PageRepairs;
      hide PageLoop;
      hide Grows;
      hide Owners;
      var todo := page.Keys;
      var copies := 0;
      PageLoopStart(old(inv).Keys, page, want, old(asked), required, faults);
      GrowsSelf(inv, page.Keys);
      while todo != {}
        invariant todo <= page.Keys && Grows(old(inv), inv, page.Keys) && asked >= old(asked)
        invariant PageLoop(old(inv).Keys, page, want, old(asked), required, faults, todo, asked)
        invariant forall c | c in page && c !in todo :: Satisfied(inv, want, old(asked), asked, required, c)
        decreases |todo|
      {
        var c := LeastOf(todo);
        ghost var before, n := inv, asked;
        OwnersGrow(old(inv), inv, page.Keys, c);
        var one, onto := RepairChunk(c, page[c]);
        PageLoopNext(old(inv).Keys, page, want, old(asked), required, faults, todo, n, c);
        CopiedGrows(before, c, onto);
        GrowsMore(before, inv, {c}, page.Keys);
        GrowsTrans(old(inv), before, inv, page.Keys);
        if one.Err? {
          return Err(one.error);
        }
        Answered(inv, want, old(asked), n, required, c);
        forall x | x in page && x !in todo ensures Satisfied(inv, want, old(asked), asked, required, x) {
          SatisfiedGrows(before, inv, {c}, want, old(asked), n, old(asked), asked, required, x);
        }
        copies := copies + one.value;
        todo := todo - {c};
      }
      PageLoopEnd(old(inv).Keys, page, want, old(asked), required, faults, asked);
      r := Ok(copies);
    }

    /** One page of the repair walk. */
    method RepairPass(limit: nat) returns (r: Result<bool>, ghost page: map<ChunkId, set<WorkerId>>)
      modifies this
      ensures r.Ok? <==>
                && |old(inv)| >= required && limit >= 1
                && PageRepairs(old(inv).Keys, page, want, old(asked), required, faults)
      ensures |old(inv)| >= required && limit >= 1 ==> PageOk(old(inv), old(cursor), cursor, page)
      ensures Grows(old(inv), inv, page.Keys) && page.Keys <= AllBeyond(old(inv), old(cursor)) && asked >= old(asked)
      ensures r.Ok? ==>
                && PageOk(old(inv), old(cursor), cursor, page) && CursorsOk(old(inv), old(cursor), cursor, page)
                && (forall c | c in page :: Satisfied(inv, want, old(asked), asked, required, c))
                && (r.value ==> page != map[])
                && (!r.value ==> AllBeyond(old(inv), cursor) == {})
    {
      hide PageRepairs;
      page := map[];
      if |inv| < required {
        return Err(Io), page;
      }
      if limit == 0 {
        return Err(InvalidArg), page;
      }
      var found, next, more := InventoryPage(inv, cursor, limit);
      page := found;
      cursor := next;
      HoldersOwn(inv, old(cursor), next, found);
      var done := RepairChunks(found);
      r := if done.Ok? then Ok(more) else Err(done.error);
    }

    /**
     Walk the whole inventory once. The walk ends although its own copies keep
     appearing in it, and a success means that every chunk any healthy worker
     held at the start has the required replicas.
     */
    method RepairAll() returns (r: Result<()>)
      modifies this
      ensures r.Ok? ==> forall c | c in Universe(old(inv)) :: Satisfied(inv, want, old(asked), asked, required, c)
      ensures Grows(old(inv), inv, Universe(old(inv)))
      ensures NoTrouble(old(inv).Keys, want, required, faults) ==> r.Ok?
    {
      hide NoTrouble;
      hide PageRepairs;
      hide Satisfied;
      hide AllBeyond;
      hide PageOk;
      hide CursorsOk;
      hide Tracked;
      hide Universe;
      hide Grows;
      cursor := map[];
      ghost var u := Universe(inv);
      TrackedStart(inv, want, asked, asked, required);
      var more := true;
      while more
        invariant inv.Keys == old(inv).Keys && Grows(old(inv), inv, u) && asked >= old(asked)
                  && Tracked(old(inv), inv, cursor, want, old(asked), asked, required)
        invariant !more ==> forall c | c in u :: Satisfied(inv, want, old(asked), asked, required, c)
        decreases Left(u, cursor, inv.Keys), more
      {
        ghost var before, at, n := inv, cursor, asked;
        var pass, page := RepairPass(REPAIR_PAGE_SIZE);
        if pass.Err? {
          GrowsWithin(old(inv), before, at, inv, page.Keys);
          if NoTrouble(old(inv).Keys, want, required, faults) {
            PassSucceeds(before, at, cursor, page, want, n, required, faults);
          }
          return Err(pass.error);
        }
        GrowsWithin(old(inv), before, at, inv, page.Keys);
        SinceStart(inv, want, page, old(asked), n, asked, required);
        TrackedStep(old(inv), before, inv, at, cursor, page, want, old(asked), n, asked, required);
        PageProgress(u, before, at, cursor, page);
        if !pass.value {
          WalkDone(old(inv), before, inv, at, cursor, page, want, old(asked), n, asked, required);
        }
        more := pass.value;
      }
      r := Ok(());
    }
  }

  const REPAIR_PAGE_SIZE: nat := 256

  /** Every chunk of the page can be repaired with the answer placement gives for it, in ascending order. */
  ghost predicate PageRepairs(healthy: set<WorkerId>, page: map<ChunkId, set<WorkerId>>, want: Wants, asked: nat,
                              required: nat, faults: Faults)
  {
    forall c | c in page ::
      CanRepair(healthy, c, page[c], want(asked + |Below(page.Keys, c)|, c), required, faults)
  }

  /** The chunks of a page are gone through in ascending order, one question to placement each. */
  ghost predicate PageLoop(healthy: set<WorkerId>, page: map<ChunkId, set<WorkerId>>, want: Wants, asked: nat,
                           required: nat, faults: Faults, todo: set<ChunkId>, n: nat)
  {
    && todo <= page.Keys && n == asked + |page.Keys - todo|
    && (forall x, y | x in page && x !in todo && y in todo :: x < y)
    && forall c | c in page && c !in todo ::
         CanRepair(healthy, c, page[c], want(asked + |Below(page.Keys, c)|, c), required, faults)
  }

  lemma PageLoopStart(healthy: set<WorkerId>, page: map<ChunkId, set<WorkerId>>, want: Wants, asked: nat,
                      required: nat, faults: Faults)
    ensures PageLoop(healthy, page, want, asked, required, faults, page.Keys, asked)
  {
    assert page.Keys - page.Keys == {};
  }

  /** In ascending order, the least one left comes after exactly those gone through. */
  lemma RankIs(keys: set<ChunkId>, todo: set<ChunkId>, c: ChunkId)
    requires todo <= keys && c in todo && (forall x | x in todo :: c <= x)
    requires forall x, y | x in keys && x !in todo && y in todo :: x < y
    ensures Below(keys, c) == keys - todo && |keys - (todo - {c})| == |keys - todo| + 1
    ensures forall x, y | x in keys && x !in todo - {c} && y in todo - {c} :: x < y
  {
    forall v | v in Below(keys, c) ensures v in keys - todo { assert v in todo ==> c <= v; }
    assert keys - (todo - {c}) == (keys - todo) + {c};
    forall x, y | x in keys && x !in todo - {c} && y in todo - {c} ensures x < y {
      if x == c { assert c <= y; } else { assert x !in todo && y in todo; }
    }
  }

  lemma PageLoopNext(healthy: set<WorkerId>, page: map<ChunkId, set<WorkerId>>, want: Wants, asked: nat,
                     required: nat, faults: Faults, todo: set<ChunkId>, n: nat, c: ChunkId)
    requires PageLoop(healthy, page, want, asked, required, faults, todo, n)
    requires c in todo && forall x | x in todo :: c <= x
    ensures CanRepair(healthy, c, page[c], want(n, c), required, faults)
            ==> PageLoop(healthy, page, want, asked, required, faults, todo - {c}, n + 1)
    ensures !CanRepair(healthy, c, page[c], want(n, c), required, faults)
            ==> !PageRepairs(healthy, page, want, asked, required, faults)
  {
    hide CanRepair;
    hide Below;
    RankIs(page.Keys, todo, c);
  }

  lemma PageLoopEnd(healthy: set<WorkerId>, page: map<ChunkId, set<WorkerId>>, want: Wants, asked: nat,
                    required: nat, faults: Faults, n: nat)
    requires PageLoop(healthy, page, want, asked, required, faults, {}, n)
    ensures PageRepairs(healthy, page, want, asked, required, faults)
  {
    hide CanRepair;
  }

  lemma GrowsSelf(inv: Inventories, added: set<ChunkId>)
    ensures Grows(inv, inv, added)
  {
  }

  lemma GrowsMore(inv: Inventories, inv': Inventories, few: set<ChunkId>, many: set<ChunkId>)
    requires Grows(inv, inv', few) && few <= many
    ensures Grows(inv, inv', many)
  {
  }

  lemma OwnersGrow(inv: Inventories, inv': Inventories, added: set<ChunkId>, c: ChunkId)
    requires Grows(inv, inv', added)
    ensures Owners(inv, c) <= Owners(inv', c) && inv'.Keys == inv.Keys
  {
  }

  lemma PassSucceeds(inv: Inventories, a: Cursors, b: Cursors, page: map<ChunkId, set<WorkerId>>, want: Wants,
                     asked: nat, required: nat, faults: Faults)
    requires NoTrouble(inv.Keys, want, required, faults)
    ensures |inv| >= required
    ensures PageOk(inv, a, b, page) ==> PageRepairs(inv.Keys, page, want, asked, required, faults)
  {
    hide CanRepair;
    hide NoTrouble;
    EnoughHealthy(inv.Keys, want, required, faults);
    assert |inv| == |inv.Keys|;
    if PageOk(inv, a, b, page) {
      forall c | c in page
        ensures CanRepair(inv.Keys, c, page[c], want(asked + |Below(page.Keys, c)|, c), required, faults)
      {
        assert c in AllBeyond(inv, a) && page[c] == HoldersOf(inv, a, c);
        var w :| w in inv && c in Beyond(inv, a, w);
        assert w in page[c];
        NoTroubleRepairs(inv.Keys, c, page[c], want, asked + |Below(page.Keys, c)|, required, faults);
      }
    }
  }

  lemma OwnersHealthy(inv: Inventories, c: ChunkId)
    ensures Owners(inv, c) <= inv.Keys
  {
  }

  lemma NoSource(c: ChunkId, faults: Faults)
    ensures !SourceReads({}, c, faults)
  {
  }

  lemma SourceIs(known: set<WorkerId>, m: WorkerId, c: ChunkId, faults: Faults)
    requires m in known && forall x | x in known :: m <= x
    ensures SourceReads(known, c, faults) <==> !faults.unreadable(m, c)
  {
  }

  lemma {:induction false} SomeLeast(s: set<nat>) returns (m: nat)
    requires s != {}
    ensures m in s && forall x | x in s :: m <= x
    decreases |s|
  {
    var y :| y in s;
    m := y;
    if s != {y} {
      var k := SomeLeast(s - {y});
      m := if k < y then k else y;
      forall x | x in s ensures m <= x { if x != y { assert x in s - {y}; } }
    }
  }

  lemma NoAnswer(healthy: set<WorkerId>, c: ChunkId, known: set<WorkerId>, want: Result<set<WorkerId>>, required: nat,
                 faults: Faults)
    requires want.Err?
    ensures !CanRepair(healthy, c, known, want, required, faults)
  {
  }

  lemma CanRepairIs(healthy: set<WorkerId>, c: ChunkId, known: set<WorkerId>, desired: set<WorkerId>, required: nat,
                    faults: Faults)
    requires known <= healthy
    ensures CanRepair(healthy, c, known, Ok(desired), required, faults)
            <==> || |known * desired| >= required
                 || (&& SourceReads(known, c, faults) && |(healthy - known) * desired| >= required - |known * desired|
                     && CopiesLand((healthy - known) * desired, required - |known * desired|, c, faults))
  {
    hide SourceReads;
    hide CopiesLand;
    HealthySplit(healthy, known, desired);
  }

  lemma HealthySplit(healthy: set<WorkerId>, known: set<WorkerId>, desired: set<WorkerId>)
    requires known <= healthy
    ensures |healthy * desired| == |known * desired| + |(healthy - known) * desired|
  {
    assert healthy * desired == known * desired + (healthy - known) * desired;
  }

  lemma HoldersOwn(inv: Inventories, a: Cursors, b: Cursors, page: map<ChunkId, set<WorkerId>>)
    requires PageOk(inv, a, b, page)
    ensures forall c | c in page :: page[c] <= Owners(inv, c)
  {
  }

  lemma TrackedStart(inv: Inventories, want: Wants, since: nat, asked: nat, required: nat)
    ensures Tracked(inv, inv, map[], want, since, asked, required) && Grows(inv, inv, Universe(inv))
  {
    StartBeyond(inv);
  }

  /** Copies stay within the chunks there were at the start. */
  lemma GrowsWithin(start: Inventories, inv: Inventories, cursor: Cursors, inv': Inventories, added: set<ChunkId>)
    requires Grows(start, inv, Universe(start)) && Grows(inv, inv', added) && added <= AllBeyond(inv, cursor)
    ensures added <= Universe(start) && Grows(start, inv', Universe(start)) && inv'.Keys == inv.Keys
  {
    StartBeyond(start);
    forall c | c in added ensures c in Universe(start) {
      var w :| w in inv && c in Beyond(inv, cursor, w);
      if c in start[w] { assert c in Beyond(start, map[], w); }
    }
  }

  /** When nothing is ahead of any cursor, every chunk of the start is taken care of. */
  lemma WalkDone(start: Inventories, inv: Inventories, inv': Inventories, a: Cursors, b: Cursors,
                 page: map<ChunkId, set<WorkerId>>, want: Wants, since: nat, asked: nat, asked': nat, required: nat)
    requires Tracked(start, inv, a, want, since, asked, required) && PageOk(inv, a, b, page)
    requires Grows(inv, inv', page.Keys) && asked <= asked'
    requires forall c | c in page :: Satisfied(inv', want, since, asked', required, c)
    requires AllBeyond(inv, b) == {}
    ensures forall c | c in Universe(start) :: Satisfied(inv', want, since, asked', required, c)
  {
    hide Satisfied;
    StartBeyond(start);
    forall c | c in Universe(start) ensures Satisfied(inv', want, since, asked', required, c) {
      var w :| w in start && c in Beyond(start, map[], w);
      assert c in start[w];
      if Satisfied(inv, want, since, asked, required, c) {
        SatisfiedGrows(inv, inv', page.Keys, want, since, asked, since, asked', required, c);
      } else {
        assert c in Beyond(inv, a, w);
        assert c in Beyond(inv, b, w) ==> c in AllBeyond(inv, b);
        assert c in page;
      }
    }
  }

  /** Answers of one page are answers of the walk. */
  lemma SinceStart(inv: Inventories, want: Wants, page: map<ChunkId, set<WorkerId>>, since: nat, n: nat, asked: nat,
                   required: nat)
    requires since <= n && forall c | c in page :: Satisfied(inv, want, n, asked, required, c)
    ensures forall c | c in page :: Satisfied(inv, want, since, asked, required, c)
  {
    forall c | c in page ensures Satisfied(inv, want, since, asked, required, c) {
      SatisfiedGrows(inv, inv, {}, want, n, asked, since, asked, required, c);
    }
  }

  lemma CopiedNone(inv: Inventories, c: ChunkId)
    ensures inv == Copied(inv, c, {})
  {
  }

  lemma CopiedMore(inv: Inventories, c: ChunkId, onto: set<WorkerId>, w: WorkerId)
    requires w in inv && w !in onto
    ensures var one := Copied(inv, c, onto);
            w in one && one[w := one[w] + {c}] == Copied(inv, c, onto + {w}) && one.Keys == inv.Keys
  {
  }

  /** Known holders and fresh copies on desired workers are replicas. */
  lemma EnoughNow(inv: Inventories, c: ChunkId, known: set<WorkerId>, onto: set<WorkerId>, want: Result<set<WorkerId>>,
                  required: nat)
    requires known <= Owners(inv, c) && want.Ok? && onto <= (inv.Keys - known) * want.value
    ensures |known * want.value| + |onto| >= required ==> Enough(Copied(inv, c, onto), want, required, c)
  {
    assert known * want.value + onto <= Owners(Copied(inv, c, onto), c) * want.value;
    SubsetSize(known * want.value + onto, Owners(Copied(inv, c, onto), c) * want.value);
  }

  lemma CopiedGrows(inv: Inventories, c: ChunkId, onto: set<WorkerId>)
    ensures Grows(inv, Copied(inv, c, onto), {c})
  {
  }

  lemma Answered(inv: Inventories, want: Wants, since: nat, n: nat, required: nat, c: ChunkId)
    requires since <= n && Enough(inv, want(n, c), required, c)
    ensures Satisfied(inv, want, since, n + 1, required, c)
  {
  }
}
