/**
 Worker registration: ids and endpoints stay distinct, and the epoch identifies
 everything placement looks at except leases.
 */
module Membership {
  import opened Types
  import opened Placement

  datatype Members = Members(epoch: nat, workers: seq<Worker>)

  ghost predicate MembersOk(m: Members) {
    && (forall i | 0 <= i < |m.workers| :: ValidWorker(m.workers[i]))
    && (forall i, j | 0 <= i < j < |m.workers| :: m.workers[i].id < m.workers[j].id)
    && (forall i, j | 0 <= i < j < |m.workers| :: m.workers[i].endpoint != m.workers[j].endpoint)
  }

  /** A worker without its lease. */
  function Static(w: Worker): Worker {
    w.(leaseDeadline := 0)
  }

  predicate EndpointTaken(ws: seq<Worker>, w: Worker) {
    exists i | 0 <= i < |ws| :: ws[i].id != w.id && ws[i].endpoint == w.endpoint
  }

  /** The first position whose id is not below `id`. */
  function Position(ws: seq<Worker>, id: nat): (k: nat)
    ensures k <= |ws| && forall i | 0 <= i < k :: ws[i].id < id
    ensures k < |ws| ==> ws[k].id >= id
  {
    if ws == [] || ws[0].id >= id then 0 else 1 + Position(ws[1..], id)
  }

  function Register(m: Members, w: Worker): Result<Members> {
    var k := Position(m.workers, w.id);
    if !ValidWorker(w) || EndpointTaken(m.workers, w) then Err(InvalidArg)
    else if k < |m.workers| && m.workers[k].id == w.id then
      if w.leaseDeadline < m.workers[k].leaseDeadline
      then Err(CasFailed(m.workers[k].leaseDeadline, w.leaseDeadline))
      else Ok(Members(if Static(m.workers[k]) == Static(w) then m.epoch else m.epoch + 1, m.workers[k := w]))
    else Ok(Members(m.epoch + 1, m.workers[..k] + [w] + m.workers[k..]))
  }

  lemma RenewKeeps(m: Members, w: Worker, k: nat)
    requires MembersOk(m) && ValidWorker(w) && !EndpointTaken(m.workers, w)
    requires k < |m.workers| && m.workers[k].id == w.id
    ensures MembersOk(m.(workers := m.workers[k := w]))
  {
  }

  lemma JoinKeeps(m: Members, w: Worker, k: nat)
    requires MembersOk(m) && ValidWorker(w) && !EndpointTaken(m.workers, w) && k <= |m.workers|
    requires (forall i | 0 <= i < k :: m.workers[i].id < w.id) && (k < |m.workers| ==> w.id < m.workers[k].id)
    ensures MembersOk(m.(workers := m.workers[..k] + [w] + m.workers[k..]))
  {
    hide ValidWorker;
    var ws := m.workers[..k] + [w] + m.workers[k..];
    assert forall i | 0 <= i < |ws| :: ws[i] == if i < k then m.workers[i] else if i == k then w else m.workers[i-1];
    assert forall i | k <= i < |m.workers| :: m.workers[i].id > w.id;
    forall i | 0 <= i < |m.workers| ensures m.workers[i].endpoint != w.endpoint {
      assert m.workers[i].id != w.id;
    }
  }

  /** Registration keeps ids ascending, endpoints distinct and records valid. */
  lemma RegisterKeeps(m: Members, w: Worker)
    requires MembersOk(m) && Register(m, w).Ok?
    ensures MembersOk(Register(m, w).value)
    ensures w in Register(m, w).value.workers
  {
    hide EndpointTaken;
    hide ValidWorker;
    var k := Position(m.workers, w.id);
    if k < |m.workers| && m.workers[k].id == w.id {
      RenewKeeps(m, w, k);
      assert m.workers[k := w][k] == w;
    } else {
      JoinKeeps(m, w, k);
      assert (m.workers[..k] + [w] + m.workers[k..])[k] == w;
    }
  }

  /**
   A registration is taken exactly for a well-formed worker at an address of its own
   that does not shorten its lease; it is listed afterwards as it registered, everybody
   else as before, and the epoch moves on exactly when more than the lease is new.
   */
  lemma RegisterEffect(m: Members, w: Worker)
    requires MembersOk(m)
    ensures var r := Register(m, w);
            && (r.Ok? <==>
                  && w.id != 0 && w.endpoint != "" && w.domain != "" && w.capacity != 0 && w.available <= w.capacity
                  && (forall v | v in m.workers && v.id != w.id :: v.endpoint != w.endpoint)
                  && (forall v | v in m.workers && v.id == w.id :: v.leaseDeadline <= w.leaseDeadline))
            && (r.Ok? ==>
                  && (forall v :: v in r.value.workers <==> v == w || (v in m.workers && v.id != w.id))
                  && r.value.epoch == if exists v | v in m.workers :: v == w.(leaseDeadline := v.leaseDeadline)
                                      then m.epoch else m.epoch + 1)
            && (r.Err? ==>
                  || r.error == InvalidArg
                  || exists v | v in m.workers ::
                       && v.id == w.id && v.leaseDeadline > w.leaseDeadline
                       && r.error == CasFailed(v.leaseDeadline, w.leaseDeadline))
  {
    hide Position;
    var k := Position(m.workers, w.id);
    Listed(m, w.id, k);
    EndpointMeans(m.workers, w);
    if k < |m.workers| && m.workers[k].id == w.id {
      RenewMembers(m, w, k);
    } else {
      JoinMembers(m, w, k);
    }
  }

  lemma EndpointMeans(ws: seq<Worker>, w: Worker)
    ensures EndpointTaken(ws, w) <==> exists v | v in ws :: v.id != w.id && v.endpoint == w.endpoint
  {
    if v :| v in ws && v.id != w.id && v.endpoint == w.endpoint {
      var i :| 0 <= i < |ws| && ws[i] == v;
    }
    if i :| 0 <= i < |ws| && ws[i].id != w.id && ws[i].endpoint == w.endpoint {
      assert ws[i] in ws;
    }
  }

  /** The only place where an id can be. */
  lemma Listed(m: Members, id: nat, k: nat)
    requires MembersOk(m) && k == Position(m.workers, id)
    ensures forall v | v in m.workers && v.id == id :: k < |m.workers| && m.workers[k] == v
  {
    hide ValidWorker;
    forall v | v in m.workers && v.id == id ensures k < |m.workers| && m.workers[k] == v {
      var i :| 0 <= i < |m.workers| && m.workers[i] == v;
    }
  }

  lemma RenewMembers(m: Members, w: Worker, k: nat)
    requires MembersOk(m) && k < |m.workers| && m.workers[k].id == w.id
    ensures forall v :: v in m.workers[k := w] <==> v == w || (v in m.workers && v.id != w.id)
  {
    hide ValidWorker;
    var ws := m.workers[k := w];
    assert ws[k] == w;
    forall v | v in m.workers && v.id != w.id ensures v in ws {
      var i :| 0 <= i < |m.workers| && m.workers[i] == v;
      assert ws[i] == v;
    }
    forall v | v in ws && v != w ensures v in m.workers && v.id != w.id {
      var i :| 0 <= i < |ws| && ws[i] == v;
      assert m.workers[i] == v;
    }
  }

  lemma JoinMembers(m: Members, w: Worker, k: nat)
    requires k <= |m.workers| && forall v | v in m.workers :: v.id != w.id
    ensures forall v :: v in m.workers[..k] + [w] + m.workers[k..] <==> v == w || (v in m.workers && v.id != w.id)
  {
    assert m.workers == m.workers[..k] + m.workers[k..];
  }

  /** `ms` is a history of registrations: one that is refused changes nothing. */
  ghost predicate IsHistory(ms: seq<Members>, ws: seq<Worker>) {
    && |ms| == |ws| + 1
    && forall k | 0 <= k < |ws| ::
         ms[k+1] == if Register(ms[k], ws[k]).Ok? then Register(ms[k], ws[k]).value else ms[k]
  }

  /** Every membership ever reached is one placement can select from. */
  lemma {:induction false} MembersStayDistinct(ms: seq<Members>, ws: seq<Worker>, k: nat)
    requires IsHistory(ms, ws) && ms[0].workers == [] && k < |ms|
    ensures MembersOk(ms[k]) && DistinctSeq(ms[k].workers)
    decreases k
  {
    hide Register;
    hide ValidWorker;
    if k > 0 {
      MembersStayDistinct(ms, ws, k - 1);
      if Register(ms[k-1], ws[k-1]).Ok? { RegisterKeeps(ms[k-1], ws[k-1]); }
    }
  }

  /** Leases aside, memberships of one epoch are the same. */
  ghost predicate SamePlacement(a: Members, b: Members) {
    |a.workers| == |b.workers| && forall i | 0 <= i < |a.workers| :: Static(a.workers[i]) == Static(b.workers[i])
  }

  /** In any history of registrations, equal epochs mean equal placement data. */
  lemma {:induction false} EpochIdentifiesPlacement(ms: seq<Members>, ws: seq<Worker>, a: nat, b: nat)
    requires IsHistory(ms, ws) && a <= b < |ms|
    ensures ms[a].epoch <= ms[b].epoch && (ms[a].epoch == ms[b].epoch ==> SamePlacement(ms[a], ms[b]))
    decreases b
  {
    if a < b {
      EpochIdentifiesPlacement(ms, ws, a, b - 1);
      var m, m' := ms[b-1], ms[b];
      assert m'.epoch == m.epoch ==> SamePlacement(m, m');
    }
  }
}
