/**
 The request ledger: a request id that was executed keeps its response for the
 retention window, so a retry in the window is answered and not executed again.
 */
module Ledger {
  import opened Types
  import opened MetaTables

  type OpId = nat

  const RETENTION_MS: nat := 24 * 60 * 60 * 1000

  const PRUNE_BATCH: nat := 256

  const SOFT_CAP: nat := 10_000

  datatype Row = Row(created: nat, expires: nat, response: Response)

  datatype Store = Store(t: Tables, ledger: map<OpId, Row>)

  datatype Command = Meta(req: Request) | PruneLedger(cutoff: nat, max: nat)

  /** A log entry: an optional request id, the leader's stamp, and the command. */
  datatype Entry = Entry(op: Option<OpId>, stamp: nat, command: Command)

  function ExpiredOps(ledger: map<OpId, Row>, cutoff: nat): set<OpId> {
    set k | k in ledger && ledger[k].expires <= cutoff
  }

  /** (expiry, id) order, the order in which rows are pruned. */
  predicate RowBefore(ledger: map<OpId, Row>, a: OpId, b: OpId)
    requires a in ledger && b in ledger
  {
    ledger[a].expires < ledger[b].expires || (ledger[a].expires == ledger[b].expires && a <= b)
  }

  /** Drop the `max` oldest expired rows. */
  ghost function Pruned(ledger: map<OpId, Row>, cutoff: nat, max: nat): map<OpId, Row>
    decreases max
  {
    if max == 0 || ExpiredOps(ledger, cutoff) == {} then ledger
    else if k :| k in ExpiredOps(ledger, cutoff)
                 && forall j | j in ExpiredOps(ledger, cutoff) :: RowBefore(ledger, k, j)
    then Pruned(ledger - {k}, cutoff, max - 1)
    else ledger
  }

  /** Rows a command itself prunes. */
  ghost function PrunedBy(ledger: map<OpId, Row>, command: Command): map<OpId, Row> {
    match command
    case PruneLedger(cutoff, max) => Pruned(ledger, cutoff, max)
    case Meta(ExpireReservations(cutoff, max)) => Pruned(ledger, cutoff, max)
    case Meta(_) => ledger
  }

  ghost function Run(t: Tables, command: Command, now: int): (Tables, Response) {
    match command
    case PruneLedger(_, _) => (t, Empty)
    case Meta(req) => Execute(t, req, now)
  }

  predicate Cached(s: Store, e: Entry) {
    e.op.Some? && e.op.value in s.ledger && s.ledger[e.op.value].expires > e.stamp
  }

  /** The request id is new but the ledger is full of rows that are still promised. */
  ghost predicate Full(s: Store, e: Entry) {
    e.op.Some? && !Cached(s, e) && |Pruned(s.ledger, e.stamp, PRUNE_BATCH)| >= SOFT_CAP
  }

  ghost predicate Executes(s: Store, e: Entry) {
    !Cached(s, e) && !Full(s, e)
  }

  /** One log entry against tables and ledger, in one transaction. */
  ghost function Apply(s: Store, e: Entry, now: int): (Store, Response) {
    if Cached(s, e) then (s, s.ledger[e.op.value].response)
    else
      var kept := if e.op.Some? then Pruned(s.ledger, e.stamp, PRUNE_BATCH) else s.ledger;
      if e.op.Some? && |kept| >= SOFT_CAP then (s.(ledger := kept), Failed(Busy))
      else
        var step := Run(s.t, e.command, now);
        var after := PrunedBy(kept, e.command);
        (Store(step.0,
               if e.op.Some? then after[e.op.value := Row(e.stamp, e.stamp + RETENTION_MS, step.1)] else after),
         step.1)
  }

  /**
   An entry whose request id has a row in its window is answered from it and changes
   nothing; one that finds the ledger full is refused and leaves the tables alone; any
   other is executed, and its answer kept for a day under its id if it has one.
   */
  lemma ApplyEffect(s: Store, e: Entry, now: int)
    ensures var (s', reply) := Apply(s, e, now);
            if e.op.Some? && e.op.value in s.ledger && s.ledger[e.op.value].expires > e.stamp
            then s' == s && reply == s.ledger[e.op.value].response
            else
              var kept := if e.op.Some? then Pruned(s.ledger, e.stamp, 256) else s.ledger;
              if e.op.Some? && |kept| >= 10_000 then s' == Store(s.t, kept) && reply == Failed(Busy)
              else
                && (e.command.Meta? ==> (s'.t, reply) == Execute(s.t, e.command.req, now))
                && (e.command.PruneLedger? ==> (s'.t, reply) == (s.t, Empty))
                && (e.op.Some? ==>
                      && e.op.value in s'.ledger
                      && s'.ledger[e.op.value] == Row(e.stamp, e.stamp + 86_400_000, reply))
                && (forall k | k in s'.ledger && (e.op.None? || k != e.op.value) ::
                      k in s.ledger && s'.ledger[k] == s.ledger[k])
  {
    hide Execute;
    hide Pruned;
    if !Cached(s, e) && !Full(s, e) { OthersUnaltered(s, e); }
  }

  lemma OthersUnaltered(s: Store, e: Entry)
    ensures var kept := if e.op.Some? then Pruned(s.ledger, e.stamp, PRUNE_BATCH) else s.ledger;
            forall k | k in PrunedBy(kept, e.command) :: k in s.ledger && PrunedBy(kept, e.command)[k] == s.ledger[k]
  {
    hide Pruned;
    var kept := if e.op.Some? then Pruned(s.ledger, e.stamp, PRUNE_BATCH) else s.ledger;
    PrunedOnlyExpired(s.ledger, e.stamp, PRUNE_BATCH);
    match e.command {
      case PruneLedger(cutoff, max) => PrunedOnlyExpired(kept, cutoff, max);
      case Meta(ExpireReservations(cutoff, max)) => PrunedOnlyExpired(kept, cutoff, max);
      case Meta(_) =>
    }
  }

  // ------------------------------------------------------------- pruning

  /** Only expired rows are gone, and no row is altered. */
  ghost predicate PruneOk(ledger: map<OpId, Row>, p: map<OpId, Row>, cutoff: nat) {
    && p.Keys <= ledger.Keys
    && (forall k | k in p :: p[k] == ledger[k])
    && (forall k | k in ledger && ledger[k].expires > cutoff :: k in p)
  }

  lemma {:induction false} PrunedOnlyExpired(ledger: map<OpId, Row>, cutoff: nat, max: nat)
    ensures PruneOk(ledger, Pruned(ledger, cutoff, max), cutoff) && |Pruned(ledger, cutoff, max)| <= |ledger|
    decreases max
  {
    if max > 0 {
      forall k | k in ExpiredOps(ledger, cutoff)
        ensures PruneOk(ledger, Pruned(ledger - {k}, cutoff, max - 1), cutoff) {
        PrunedOnlyExpired(ledger - {k}, cutoff, max - 1);
      }
    }
    SizeOf(Pruned(ledger, cutoff, max), ledger);
  }

  lemma SizeOf(a: map<OpId, Row>, b: map<OpId, Row>)
    requires a.Keys <= b.Keys
    ensures |a| <= |b|
  {
    assert b.Keys == a.Keys + (b.Keys - a.Keys);
  }

  /** The bound a log entry's stamp and cutoff put on what it may prune. */
  function Horizon(e: Entry): nat {
    match e.command
    case PruneLedger(cutoff, _) => if cutoff > e.stamp then cutoff else e.stamp
    case Meta(ExpireReservations(cutoff, _)) => if cutoff > e.stamp then cutoff else e.stamp
    case Meta(_) => e.stamp
  }

  // --------------------------------------------------------- exactly once

  /** The ledger never outgrows its cap. */
  lemma CapKept(s: Store, e: Entry, now: int)
    requires |s.ledger| <= SOFT_CAP
    ensures |Apply(s, e, now).0.ledger| <= SOFT_CAP
  {
    hide Execute;
    hide Pruned;
    hide PrunedBy;
    var kept := if e.op.Some? then Pruned(s.ledger, e.stamp, PRUNE_BATCH) else s.ledger;
    PrunedOnlyExpired(s.ledger, e.stamp, PRUNE_BATCH);
    var after := PrunedBy(kept, e.command);
    PrunedBySize(kept, e.command);
    if e.op.Some? && !Cached(s, e) && |kept| < SOFT_CAP {
      var row := Row(e.stamp, e.stamp + RETENTION_MS, Run(s.t, e.command, now).1);
      InsertSize(after, e.op.value, row);
    }
  }

  lemma PrunedBySize(ledger: map<OpId, Row>, command: Command)
    ensures |PrunedBy(ledger, command)| <= |ledger|
  {
    hide Pruned;
    match command
    case PruneLedger(cutoff, max) => PrunedOnlyExpired(ledger, cutoff, max);
    case Meta(ExpireReservations(cutoff, max)) => PrunedOnlyExpired(ledger, cutoff, max);
    case Meta(_) =>
  }

  lemma InsertSize(ledger: map<OpId, Row>, k: OpId, row: Row)
    ensures |ledger[k := row]| <= |ledger| + 1
  {
    assert ledger[k := row].Keys == ledger.Keys + {k};
  }

  /** A row is never lost or altered before it expires. */
  lemma InWindowKept(s: Store, e: Entry, now: int, k: OpId)
    requires k in s.ledger && s.ledger[k].expires > Horizon(e)
    ensures k in Apply(s, e, now).0.ledger && Apply(s, e, now).0.ledger[k] == s.ledger[k]
  {
    hide Execute;
    hide Pruned;
    var kept := if e.op.Some? then Pruned(s.ledger, e.stamp, PRUNE_BATCH) else s.ledger;
    PrunedOnlyExpired(s.ledger, e.stamp, PRUNE_BATCH);
    match e.command {
      case PruneLedger(cutoff, max) => PrunedOnlyExpired(kept, cutoff, max);
      case Meta(ExpireReservations(cutoff, max)) => PrunedOnlyExpired(kept, cutoff, max);
      case Meta(_) =>
    }
  }

  /** `s[k+1]` is what entry k makes of `s[k]`, under the applying node's clock. */
  ghost predicate IsLog(s: seq<Store>, log: seq<Entry>, clock: seq<int>) {
    |s| == |log| + 1 == |clock| + 1 && forall k | 0 <= k < |log| :: s[k+1] == Apply(s[k], log[k], clock[k]).0
  }

  lemma {:induction false} RowLasts(s: seq<Store>, log: seq<Entry>, clock: seq<int>, a: nat, b: nat, k: OpId)
    requires IsLog(s, log, clock) && a <= b < |s| && k in s[a].ledger
    requires forall j | a <= j < b :: Horizon(log[j]) < s[a].ledger[k].expires
    ensures k in s[b].ledger && s[b].ledger[k] == s[a].ledger[k]
    decreases b
  {
    if a < b {
      RowLasts(s, log, clock, a, b - 1, k);
      InWindowKept(s[b-1], log[b-1], clock[b-1], k);
      hide Apply;
    }
  }

  /**
   Once a request id has executed at entry `a`, every later entry with that id is
   answered with the same response and changes neither tables nor ledger, as long
   as no stamp or cutoff since then has reached the end of its window.
   */
  lemma ExactlyOnce(s: seq<Store>, log: seq<Entry>, clock: seq<int>, a: nat, b: nat)
    requires IsLog(s, log, clock) && a < b < |log|
    requires log[a].op.Some? && log[b].op == log[a].op && Executes(s[a], log[a])
    requires forall j | a < j <= b :: Horizon(log[j]) < log[a].stamp + RETENTION_MS
    ensures Apply(s[b], log[b], clock[b]).1 == Apply(s[a], log[a], clock[a]).1
    ensures s[b+1] == s[b]
  {
    hide Apply;
    var k := log[a].op.value;
    ExecutedRow(s[a], log[a], clock[a]);
    assert s[a+1] == Apply(s[a], log[a], clock[a]).0;
    RowLasts(s, log, clock, a + 1, b, k);
    assert s[b].ledger[k].expires > Horizon(log[b]);
    CachedAnswer(s[b], log[b], clock[b]);
    assert s[b+1] == Apply(s[b], log[b], clock[b]).0;
  }

  lemma ExecutedRow(s: Store, e: Entry, now: int)
    requires e.op.Some? && Executes(s, e)
    ensures var step := Apply(s, e, now);
            e.op.value in step.0.ledger && step.0.ledger[e.op.value] == Row(e.stamp, e.stamp + RETENTION_MS, step.1)
  {
    hide Execute;
    hide Pruned;
    hide PrunedBy;
  }

  lemma CachedAnswer(s: Store, e: Entry, now: int)
    requires Cached(s, e)
    ensures Apply(s, e, now) == (s, s.ledger[e.op.value].response)
  {
  }

  /** Over a whole log the cap holds throughout. */
  lemma {:induction false} CapThroughout(s: seq<Store>, log: seq<Entry>, clock: seq<int>, k: nat)
    requires IsLog(s, log, clock) && |s[0].ledger| <= SOFT_CAP && k < |s|
    ensures |s[k].ledger| <= SOFT_CAP
    decreases k
  {
    if k > 0 {
      CapThroughout(s, log, clock, k - 1);
      CapKept(s[k-1], log[k-1], clock[k-1]);
      hide Apply;
    }
  }
}
