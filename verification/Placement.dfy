/**
 Capacity-weighted rendezvous placement with failure-domain spreading.
 */
module Placement {
  import opened Types
  import opened Sets

  datatype Worker = Worker(id: nat, endpoint: string, domain: string, capacity: nat, available: nat, leaseDeadline: nat)

  predicate ValidWorker(w: Worker) {
    w.id != 0 && w.endpoint != "" && w.domain != "" && w.capacity != 0 && w.available <= w.capacity
  }

  /** May hold new chunks at time `now`. */
  predicate Eligible(w: Worker, now: nat) {
    w.leaseDeadline > now && ValidWorker(w) && w.available >= CHUNK_SIZE
  }

  /** The raw rendezvous weight of a worker for the chunk at hand, scaled by its free space. */
  function Score(raw: nat -> nat, w: Worker): nat {
    raw(w.id) * w.available
  }

  /** Higher score first, then lower id. */
  predicate Before(raw: nat -> nat, a: Worker, b: Worker) {
    Score(raw, a) > Score(raw, b) || (Score(raw, a) == Score(raw, b) && a.id < b.id)
  }

  ghost predicate DistinctIds(c: set<Worker>) {
    forall a, b | a in c && b in c && a.id == b.id :: a == b
  }

  lemma Total(raw: nat -> nat, c: set<Worker>, a: Worker, b: Worker)
    requires DistinctIds(c) && a in c && b in c && a != b
    ensures Before(raw, a, b) <==> !Before(raw, b, a)
  {
  }

  lemma BeforeTrans(raw: nat -> nat, a: Worker, b: Worker, c: Worker)
    requires Before(raw, a, b) && Before(raw, b, c)
    ensures Before(raw, a, c)
  {
    hide Score;
  }

  // ------------------------------------------------- the selection as a set

  function Ahead(raw: nat -> nat, x: set<Worker>, w: Worker): set<Worker> {
    set v | v in x && Before(raw, v, w)
  }

  /** The `k` best-placed workers of `x`. */
  function Top(raw: nat -> nat, x: set<Worker>, k: nat): set<Worker> {
    set w | w in x && |Ahead(raw, x, w)| < k
  }

  function Domains(c: set<Worker>): set<string> {
    set w | w in c :: w.domain
  }

  predicate Leads(raw: nat -> nat, c: set<Worker>, w: Worker) {
    forall v | v in c && v.domain == w.domain && v != w :: Before(raw, w, v)
  }

  /** The best-placed worker of each failure domain. */
  function Leaders(raw: nat -> nat, c: set<Worker>): set<Worker> {
    set w | w in c && Leads(raw, c, w)
  }

  /** Leaders first; when there are too few domains, the best of the rest fill up. */
  function Chosen(raw: nat -> nat, c: set<Worker>, k: nat): set<Worker> {
    var l := Leaders(raw, c);
    if |l| >= k then Top(raw, l, k) else l + Top(raw, c - l, k - |l|)
  }

  lemma SubsetSame<T>(a: set<T>, b: set<T>)
    requires a <= b && |a| == |b|
    ensures a == b
  {
    assert b == a + (b - a);
  }

  /** Some worker of a non-empty set comes last. */
  lemma {:induction false} LastOf(raw: nat -> nat, x: set<Worker>) returns (m: Worker)
    requires x != {} && DistinctIds(x)
    ensures m in x && forall v | v in x && v != m :: Before(raw, v, m)
    decreases |x|
  {
    var w :| w in x;
    if x == {w} {
      m := w;
    } else {
      var n := LastOf(raw, x - {w});
      Total(raw, x, w, n);
      m := if Before(raw, w, n) then n else w;
      forall v | v in x && v != m ensures Before(raw, v, m) {
        if m == w && v != n { BeforeTrans(raw, v, n, w); }
      }
    }
  }

  lemma {:induction false} FirstOf(raw: nat -> nat, x: set<Worker>) returns (m: Worker)
    requires x != {} && DistinctIds(x)
    ensures m in x && forall v | v in x && v != m :: Before(raw, m, v)
    decreases |x|
  {
    var w :| w in x;
    if x == {w} {
      m := w;
    } else {
      var n := FirstOf(raw, x - {w});
      Total(raw, x, w, n);
      m := if Before(raw, w, n) then w else n;
      forall v | v in x && v != m ensures Before(raw, m, v) {
        if m == w && v != n { BeforeTrans(raw, w, n, v); }
      }
    }
  }

  lemma {:induction false} TopSize(raw: nat -> nat, x: set<Worker>, k: nat)
    requires DistinctIds(x)
    ensures |Top(raw, x, k)| == if |x| < k then |x| else k
    decreases |x|
  {
    if x != {} {
      var m := LastOf(raw, x);
      var y := x - {m};
      assert Ahead(raw, x, m) == y;
      forall w | w in y ensures Ahead(raw, y, w) == Ahead(raw, x, w) { Total(raw, x, w, m); }
      TopSize(raw, y, k);
      assert Top(raw, x, k) == if |y| < k then Top(raw, y, k) + {m} else Top(raw, y, k);
    } else {
      assert Top(raw, x, k) == {};
    }
  }

  /** Every domain has exactly one leader. */
  lemma LeaderOf(raw: nat -> nat, c: set<Worker>, d: string) returns (w: Worker)
    requires DistinctIds(c) && d in Domains(c)
    ensures w in Leaders(raw, c) && w.domain == d
    ensures forall v | v in Leaders(raw, c) && v.domain == d :: v == w
  {
    var x := set v | v in c && v.domain == d;
    var some :| some in c && some.domain == d;
    assert some in x;
    w := FirstOf(raw, x);
    forall v | v in Leaders(raw, c) && v.domain == d ensures v == w {
      if v != w { Total(raw, c, v, w); }
    }
  }

  lemma {:induction false} LeadersPerDomain(raw: nat -> nat, c: set<Worker>, l: set<Worker>)
    requires DistinctIds(c) && l <= Leaders(raw, c)
    ensures |Domains(l)| == |l|
    decreases |l|
  {
    if l == {} {
      assert Domains(l) == {};
    } else {
      var w :| w in l;
      LeadersPerDomain(raw, c, l - {w});
      var only := LeaderOf(raw, c, w.domain);
      assert w.domain !in Domains(l - {w});
      assert Domains(l) == Domains(l - {w}) + {w.domain};
    }
  }

  lemma LeadersCover(raw: nat -> nat, c: set<Worker>)
    requires DistinctIds(c)
    ensures Domains(Leaders(raw, c)) == Domains(c) && |Leaders(raw, c)| == |Domains(c)|
  {
    forall d | d in Domains(c) ensures d in Domains(Leaders(raw, c)) { var w := LeaderOf(raw, c, d); }
    LeadersPerDomain(raw, c, Leaders(raw, c));
  }

  lemma ChosenSize(raw: nat -> nat, c: set<Worker>, k: nat)
    requires DistinctIds(c) && k <= |c|
    ensures |Chosen(raw, c, k)| == k && Chosen(raw, c, k) <= c
  {
    hide Leads;
    hide Ahead;
    var l := Leaders(raw, c);
    assert l <= c;
    hide Leaders;
    if |l| >= k {
      TopSize(raw, l, k);
    } else {
      var p := Top(raw, c - l, k - |l|);
      assert p <= c - l;
      SplitSize(c, l, p);
      TopSize(raw, c - l, k - |l|);
    }
  }

  lemma SplitSize<T>(c: set<T>, l: set<T>, p: set<T>)
    requires l <= c && p <= c - l
    ensures |c| == |l| + |c - l| && |l + p| == |l| + |p|
  {
    assert c == l + (c - l);
  }

  /** The selection covers as many failure domains as it can. */
  lemma ChosenSpreads(raw: nat -> nat, c: set<Worker>, k: nat)
    requires DistinctIds(c) && k <= |c|
    ensures |Domains(Chosen(raw, c, k))| == if |Domains(c)| < k then |Domains(c)| else k
  {
    var l := Leaders(raw, c);
    LeadersCover(raw, c);
    ChosenSize(raw, c, k);
    if |l| >= k {
      LeadersPerDomain(raw, c, Chosen(raw, c, k));
    } else {
      SubsetSize(Domains(l), Domains(Chosen(raw, c, k)));
      SubsetSize(Domains(Chosen(raw, c, k)), Domains(c));
    }
  }

  /**
   Who is preferred: a chosen worker ranks before an unchosen one, unless it is the
   best of its own failure domain and the other is not the best of its own.
   */
  lemma ChosenBest(raw: nat -> nat, c: set<Worker>, k: nat, v: Worker, u: Worker)
    requires DistinctIds(c) && k <= |c| && v in Chosen(raw, c, k) && u in c && u !in Chosen(raw, c, k)
    ensures || Before(raw, v, u)
            || (&& v.domain != u.domain && Leads(raw, c, v)
                && exists w | w in c :: w.domain == u.domain && w != u && Before(raw, w, u))
  {
    hide Before;
    var l := Leaders(raw, c);
    if |l| >= k {
      if u in l {
        TopBest(raw, l, k, v, u);
      } else if v.domain != u.domain {
        NotLeading(raw, c, u);
      }
    } else if v in l {
      if v.domain != u.domain { NotLeading(raw, c, u); }
    } else {
      TopBest(raw, c - l, k - |l|, v, u);
    }
  }

  lemma TopBest(raw: nat -> nat, x: set<Worker>, k: nat, v: Worker, u: Worker)
    requires DistinctIds(x) && v in Top(raw, x, k) && u in x && u !in Top(raw, x, k)
    ensures Before(raw, v, u)
  {
    hide Before;
    if !Before(raw, v, u) {
      Total(raw, x, v, u);
      forall w | w in Ahead(raw, x, u) ensures w in Ahead(raw, x, v) { BeforeTrans(raw, w, u, v); }
      SubsetSize(Ahead(raw, x, u), Ahead(raw, x, v));
    }
  }

  lemma NotLeading(raw: nat -> nat, c: set<Worker>, u: Worker)
    requires DistinctIds(c) && u in c && u !in Leaders(raw, c)
    ensures exists w | w in c :: w.domain == u.domain && w != u && Before(raw, w, u)
  {
    var w :| w in c && w.domain == u.domain && w != u && !Before(raw, u, w);
    Total(raw, c, u, w);
  }

  // ------------------------------------------------------ losing a worker

  /** The leaders without `u`: the others stay, and at most one of its domain moves up. */
  lemma LeadersWithout(raw: nat -> nat, c: set<Worker>, u: Worker)
    requires DistinctIds(c) && u in c
    ensures var l, l' := Leaders(raw, c), Leaders(raw, c - {u});
            l - {u} <= l' && (u !in l ==> l' == l)
            && forall v | v in l' && v !in l :: u in l && v.domain == u.domain && Before(raw, u, v)
  {
    hide Before;
    var l, l' := Leaders(raw, c), Leaders(raw, c - {u});
    forall v | v in l' && v !in l ensures u in l && v.domain == u.domain && Before(raw, u, v) {
      Total(raw, c, u, v);
      var w := LeaderOf(raw, c, v.domain);
      if w != u { Total(raw, c, v, w); }
    }
  }

  lemma SuccessorUnique(raw: nat -> nat, c: set<Worker>, u: Worker, v: Worker, w: Worker)
    requires DistinctIds(c) && u in c
    requires v in Leaders(raw, c - {u}) && v !in Leaders(raw, c)
    requires w in Leaders(raw, c - {u}) && w !in Leaders(raw, c)
    ensures v == w
  {
    hide Before;
    LeadersWithout(raw, c, u);
    if v != w { Total(raw, c, v, w); }
  }

  /** Fewer are ahead of `w` when every newcomer ahead of it replaces one that was. */
  lemma AheadFalls(raw: nat -> nat, c: set<Worker>, u: Worker, w: Worker)
    requires DistinctIds(c) && u in c && w in Leaders(raw, c) && w != u
    ensures |Ahead(raw, Leaders(raw, c - {u}), w)| <= |Ahead(raw, Leaders(raw, c), w)|
  {
    var a, a' := Ahead(raw, Leaders(raw, c), w), Ahead(raw, Leaders(raw, c - {u}), w);
    LeadersWithout(raw, c, u);
    if v :| v in a' && v !in a {
      assert u in a && u !in a';
      forall x | x in a' && x !in a ensures x == v { SuccessorUnique(raw, c, u, x, v); }
      assert a' - {v} <= a - {u};
      SubsetSize(a' - {v}, a - {u});
    } else {
      SubsetSize(a', a);
    }
  }

  lemma LeaderCount(raw: nat -> nat, c: set<Worker>, u: Worker)
    requires DistinctIds(c) && u in c
    ensures |Leaders(raw, c)| - 1 <= |Leaders(raw, c - {u})| <= |Leaders(raw, c)|
  {
    LeadersCover(raw, c);
    LeadersCover(raw, c - {u});
    SubsetSize(Domains(c - {u}), Domains(c));
    assert Domains(c) - {u.domain} <= Domains(c - {u});
    SubsetSize(Domains(c) - {u.domain}, Domains(c - {u}));
  }

  /** Losing any other worker never evicts a chosen one. */
  lemma ChosenStays(raw: nat -> nat, c: set<Worker>, k: nat, u: Worker, w: Worker)
    requires DistinctIds(c) && u in c && w in Chosen(raw, c, k) && w != u
    ensures w in Chosen(raw, c - {u}, k)
  {
    hide Chosen;
    if w in Leaders(raw, c) { LeaderStays(raw, c, k, u, w); } else { RestStays(raw, c, k, u, w); }
  }

  lemma LeaderStays(raw: nat -> nat, c: set<Worker>, k: nat, u: Worker, w: Worker)
    requires DistinctIds(c) && u in c && w in Chosen(raw, c, k) && w != u && w in Leaders(raw, c)
    ensures w in Chosen(raw, c - {u}, k)
  {
    hide Leaders;
    hide Before;
    var l, l' := Leaders(raw, c), Leaders(raw, c - {u});
    LeadersWithout(raw, c, u);
    LeaderCount(raw, c, u);
    AheadFalls(raw, c, u, w);
    if |l| < k { SubsetSize(Ahead(raw, l, w), l); }
  }

  /** A worker chosen to fill up stays chosen. */
  lemma RestStays(raw: nat -> nat, c: set<Worker>, k: nat, u: Worker, w: Worker)
    requires DistinctIds(c) && u in c && w in Chosen(raw, c, k) && w != u && w !in Leaders(raw, c)
    ensures w in Chosen(raw, c - {u}, k)
  {
    hide Leaders;
    hide Ahead;
    var l, l' := Leaders(raw, c), Leaders(raw, c - {u});
    LeadersWithin(raw, c - {u});
    LeadersWithin(raw, c);
    LeadersWithout(raw, c, u);
    LeaderCount(raw, c, u);
    if w in l' {
      assert l' <= Chosen(raw, c - {u}, k);
    } else {
      FewerAhead(raw, c - {u} - l', c - l, w);
    }
  }

  lemma LeadersWithin(raw: nat -> nat, c: set<Worker>)
    ensures Leaders(raw, c) <= c
  {
  }

  lemma FewerAhead(raw: nat -> nat, x: set<Worker>, y: set<Worker>, w: Worker)
    requires x <= y
    ensures |Ahead(raw, x, w)| <= |Ahead(raw, y, w)|
  {
    hide Before;
    SubsetSize(Ahead(raw, x, w), Ahead(raw, y, w));
  }

  /** Losing a worker that was not chosen changes nothing. */
  lemma UnchosenIsIrrelevant(raw: nat -> nat, c: set<Worker>, k: nat, u: Worker)
    requires DistinctIds(c) && u in c && u !in Chosen(raw, c, k) && k <= |c| - 1
    ensures Chosen(raw, c - {u}, k) == Chosen(raw, c, k)
  {
    forall w | w in Chosen(raw, c, k) ensures w in Chosen(raw, c - {u}, k) { ChosenStays(raw, c, k, u, w); }
    ChosenSize(raw, c, k);
    ChosenSize(raw, c - {u}, k);
    SubsetSame(Chosen(raw, c, k), Chosen(raw, c - {u}, k));
  }

  /** Losing a chosen worker replaces exactly that one. */
  lemma ChosenIsReplaced(raw: nat -> nat, c: set<Worker>, k: nat, u: Worker) returns (heir: Worker)
    requires DistinctIds(c) && u in Chosen(raw, c, k) && k <= |c| - 1
    ensures heir !in Chosen(raw, c, k) && Chosen(raw, c - {u}, k) == Chosen(raw, c, k) - {u} + {heir}
  {
    ChosenSize(raw, c, k);
    ChosenSize(raw, c - {u}, k);
    var s, s' := Chosen(raw, c, k), Chosen(raw, c - {u}, k);
    forall w | w in s - {u} ensures w in s' { ChosenStays(raw, c, k, u, w); }
    var extra := s' - (s - {u});
    assert s' == (s - {u}) + extra;
    assert |extra| == 1;
    heir :| heir in extra;
    SubsetSame({heir}, extra);
  }

  // ------------------------------------------------------- the algorithm

  function SetOf(s: seq<Worker>): set<Worker> {
    set i | 0 <= i < |s| :: s[i]
  }

  ghost predicate DistinctSeq(s: seq<Worker>) {
    forall i, j | 0 <= i < j < |s| :: s[i].id != s[j].id
  }

  ghost predicate Ranked(raw: nat -> nat, s: seq<Worker>) {
    forall i, j | 0 <= i < j < |s| :: Before(raw, s[i], s[j])
  }

  function EligibleOf(workers: seq<Worker>, now: nat): set<Worker> {
    set i | 0 <= i < |workers| && Eligible(workers[i], now) :: workers[i]
  }

  lemma SetAppend(s: seq<Worker>, w: Worker)
    ensures SetOf(s + [w]) == SetOf(s) + {w}
  {
    forall x | x in SetOf(s) + {w} ensures x in SetOf(s + [w]) {
      if x in SetOf(s) {
        var i :| 0 <= i < |s| && s[i] == x;
        assert (s + [w])[i] == x;
      } else {
        assert (s + [w])[|s|] == x;
      }
    }
  }

  lemma DistinctSet(s: seq<Worker>)
    requires DistinctSeq(s)
    ensures DistinctIds(SetOf(s))
  {
  }

  lemma {:induction false} DistinctSize(s: seq<Worker>)
    requires DistinctSeq(s)
    ensures |SetOf(s)| == |s|
  {
    if s != [] {
      var t, w := s[..|s|-1], s[|s|-1];
      DistinctSize(t);
      assert s == t + [w];
      SetAppend(t, w);
      assert w !in SetOf(t);
    } else {
      assert SetOf(s) == {};
    }
  }

  /** Insert a worker at its place among ranked ones. */
  method Insert(raw: nat -> nat, s: seq<Worker>, w: Worker) returns (r: seq<Worker>)
    requires Ranked(raw, s) && DistinctSeq(s) && forall i | 0 <= i < |s| :: s[i].id != w.id
    ensures Ranked(raw, r) && DistinctSeq(r) && SetOf(r) == SetOf(s) + {w} && |r| == |s| + 1
  {
    var i := |s|;
    while i > 0 && !Before(raw, s[i-1], w)
      invariant 0 <= i <= |s| && forall j | i <= j < |s| :: Before(raw, w, s[j])
    {
      i := i - 1;
    }
    r := s[..i] + [w] + s[i..];
    InsertedAt(raw, s, w, i);
  }

  lemma InsertedAt(raw: nat -> nat, s: seq<Worker>, w: Worker, i: nat)
    requires Ranked(raw, s) && DistinctSeq(s) && forall j | 0 <= j < |s| :: s[j].id != w.id
    requires i <= |s| && (i > 0 ==> Before(raw, s[i-1], w)) && forall j | i <= j < |s| :: Before(raw, w, s[j])
    ensures var r := s[..i] + [w] + s[i..];
            Ranked(raw, r) && DistinctSeq(r) && SetOf(r) == SetOf(s) + {w}
  {
    hide Before;
    var r := s[..i] + [w] + s[i..];
    assert forall j | 0 <= j < i :: r[j] == s[j];
    assert r[i] == w;
    assert forall j | i < j < |r| :: r[j] == s[j-1];
    forall a, b | 0 <= a < b < |r| ensures Before(raw, r[a], r[b]) {
      if b == i && a < i - 1 { BeforeTrans(raw, s[a], s[i-1], w); }
    }
    forall x | x in SetOf(s) + {w} ensures x in SetOf(r) {
      if x in SetOf(s) {
        var j :| 0 <= j < |s| && s[j] == x;
        assert r[if j < i then j else j + 1] == x;
      }
    }
  }

  /** The eligible workers, ranked. */
  method Candidates(raw: nat -> nat, workers: seq<Worker>, now: nat) returns (c: seq<Worker>)
    requires DistinctSeq(workers)
    ensures Ranked(raw, c) && DistinctSeq(c) && SetOf(c) == EligibleOf(workers, now)
  {
    c := [];
    for k := 0 to |workers|
      invariant Ranked(raw, c) && DistinctSeq(c) && SetOf(c) == EligibleOf(workers[..k], now)
    {
      EligibleNext(workers, k, now);
      if Eligible(workers[k], now) {
        forall i | 0 <= i < |c| ensures c[i].id != workers[k].id {
          assert c[i] in SetOf(c);
        }
        c := Insert(raw, c, workers[k]);
      }
    }
    assert workers[..|workers|] == workers;
  }

  lemma EligibleNext(workers: seq<Worker>, k: nat, now: nat)
    requires k < |workers|
    ensures EligibleOf(workers[..k+1], now)
            == EligibleOf(workers[..k], now) + (if Eligible(workers[k], now) then {workers[k]} else {})
  {
    forall x | x in EligibleOf(workers[..k], now) ensures x in EligibleOf(workers[..k+1], now) {
      var i :| 0 <= i < k && workers[..k][i] == x && Eligible(workers[..k][i], now);
      assert workers[..k+1][i] == x;
    }
    forall x | x in EligibleOf(workers[..k+1], now)
      ensures x in EligibleOf(workers[..k], now) || (x == workers[k] && Eligible(x, now))
    {
      var i :| 0 <= i < k + 1 && workers[..k+1][i] == x && Eligible(workers[..k+1][i], now);
      if i < k { assert workers[..k][i] == x; }
    }
    if Eligible(workers[k], now) { assert workers[..k+1][k] == workers[k]; }
  }

  lemma PrefixMembers(c: seq<Worker>, i: nat)
    requires i <= |c|
    ensures forall k | 0 <= k < i :: c[k] in SetOf(c[..i]) && c[k].domain in Domains(SetOf(c[..i]))
  {
    forall k | 0 <= k < i ensures c[k] in SetOf(c[..i]) && c[k].domain in Domains(SetOf(c[..i])) {
      assert c[..i][k] == c[k];
    }
  }

  /** In rank order, a worker leads its domain exactly when it is the first of it. */
  lemma LeadsIffFirst(raw: nat -> nat, c: seq<Worker>, i: nat)
    requires Ranked(raw, c) && DistinctSeq(c) && i < |c|
    ensures c[i] in Leaders(raw, SetOf(c)) <==> c[i].domain !in Domains(SetOf(c[..i]))
  {
    hide Before;
    DistinctSet(c);
    PrefixMembers(c, i);
    assert c[i] in SetOf(c);
    if c[i].domain in Domains(SetOf(c[..i])) {
      var j :| 0 <= j < i && c[..i][j].domain == c[i].domain;
      assert c[j] in SetOf(c) && Before(raw, c[j], c[i]);
      Total(raw, SetOf(c), c[i], c[j]);
    } else {
      forall v | v in SetOf(c) && v.domain == c[i].domain && v != c[i] ensures Before(raw, c[i], v) {
        var j :| 0 <= j < |c| && c[j] == v;
      }
    }
  }

  /** A set that comes before the rest of `x` is its top. */
  lemma TopPrefix(raw: nat -> nat, x: set<Worker>, p: set<Worker>)
    requires DistinctIds(x) && p <= x && forall a, b | a in p && b in x - p :: Before(raw, a, b)
    ensures Top(raw, x, |p|) == p
  {
    forall w | w in x ensures |Ahead(raw, x, w)| < |p| <==> w in p {
      if w in p {
        forall v | v in Ahead(raw, x, w) ensures v in p - {w} { if v !in p { Total(raw, x, v, w); } }
        SubsetSize(Ahead(raw, x, w), p - {w});
      } else {
        SubsetSize(p, Ahead(raw, x, w));
      }
    }
  }

  /** What the first pass has picked from a ranked prefix: the leaders in it. */
  ghost predicate FirstPass(raw: nat -> nat, c: seq<Worker>, i: nat, selected: seq<Worker>, domains: set<string>)
    requires i <= |c|
  {
    && domains == Domains(SetOf(c[..i]))
    && SetOf(selected) == Leaders(raw, SetOf(c)) * SetOf(c[..i])
    && |selected| == |SetOf(selected)|
  }

  lemma PrefixNext(c: seq<Worker>, i: nat)
    requires i < |c| && DistinctSeq(c)
    ensures SetOf(c[..i+1]) == SetOf(c[..i]) + {c[i]} && c[i] !in SetOf(c[..i]) && c[i] in SetOf(c)
    ensures Domains(SetOf(c[..i+1])) == Domains(SetOf(c[..i])) + {c[i].domain}
  {
    assert c[..i+1] == c[..i] + [c[i]];
    SetAppend(c[..i], c[i]);
  }

  lemma FirstPassStep(raw: nat -> nat, c: seq<Worker>, i: nat, selected: seq<Worker>, domains: set<string>)
    requires Ranked(raw, c) && DistinctSeq(c) && i < |c| && FirstPass(raw, c, i, selected, domains)
    ensures FirstPass(raw, c, i + 1,
                      if c[i].domain in domains then selected else selected + [c[i]],
                      domains + {c[i].domain})
  {
    hide Leaders;
    PrefixNext(c, i);
    LeadsIffFirst(raw, c, i);
    SetAppend(selected, c[i]);
  }

  /** What the second pass has picked: all leaders and the others of a ranked prefix. */
  ghost predicate SecondPass(raw: nat -> nat, c: seq<Worker>, i: nat, selected: seq<Worker>)
    requires i <= |c|
  {
    && SetOf(selected) == Leaders(raw, SetOf(c)) + SetOf(c[..i])
    && |selected| == |SetOf(selected)|
  }

  lemma SecondPassStep(raw: nat -> nat, c: seq<Worker>, i: nat, selected: seq<Worker>)
    requires DistinctSeq(c) && i < |c| && SecondPass(raw, c, i, selected)
    ensures SecondPass(raw, c, i + 1, if c[i] in SetOf(selected) then selected else selected + [c[i]])
  {
    hide Leaders;
    PrefixNext(c, i);
    SetAppend(selected, c[i]);
  }

  /** Comparing ids is comparing workers. */
  lemma KnownById(raw: nat -> nat, c: seq<Worker>, i: nat, selected: seq<Worker>)
    requires DistinctSeq(c) && i < |c| && SecondPass(raw, c, i, selected)
    ensures c[i] in SetOf(selected) <==> exists j | 0 <= j < |selected| :: selected[j].id == c[i].id
  {
    DistinctSet(c);
    PrefixSubset(c, i);
    if j :| 0 <= j < |selected| && selected[j].id == c[i].id {
      assert selected[j] in SetOf(selected);
      assert c[i] in SetOf(c);
    }
  }

  lemma PrefixSubset(c: seq<Worker>, i: nat)
    requires i <= |c|
    ensures SetOf(c[..i]) <= SetOf(c)
  {
  }

  /** Enough leaders: the pass stops with the best of them. */
  lemma EnoughLeaders(raw: nat -> nat, c: seq<Worker>, i: nat, selected: seq<Worker>, domains: set<string>)
    requires Ranked(raw, c) && DistinctSeq(c) && i <= |c| && FirstPass(raw, c, i, selected, domains)
    ensures SetOf(selected) == Chosen(raw, SetOf(c), |selected|)
  {
    hide Before;
    var l, p := Leaders(raw, SetOf(c)), SetOf(selected);
    DistinctSet(c);
    forall a, b | a in p && b in l - p ensures Before(raw, a, b) { RankedApart(raw, c, i, a, b); }
    TopPrefix(raw, l, p);
    SubsetSize(p, l);
  }

  /** Members of a ranked prefix come before everything outside it. */
  lemma RankedApart(raw: nat -> nat, c: seq<Worker>, i: nat, a: Worker, b: Worker)
    requires Ranked(raw, c) && i <= |c| && a in SetOf(c[..i]) && b in SetOf(c) && b !in SetOf(c[..i])
    ensures Before(raw, a, b)
  {
    var x :| 0 <= x < i && c[..i][x] == a;
    PrefixMembers(c, i);
    var y :| 0 <= y < |c| && c[y] == b;
  }

  /** Too few domains: the rest fills up in rank order. */
  lemma FilledUp(raw: nat -> nat, c: seq<Worker>, i: nat, selected: seq<Worker>)
    requires Ranked(raw, c) && DistinctSeq(c) && i <= |c| && SecondPass(raw, c, i, selected)
    requires |Leaders(raw, SetOf(c))| < |selected|
    ensures SetOf(selected) == Chosen(raw, SetOf(c), |selected|)
  {
    hide Before;
    hide Leaders;
    hide Top;
    hide Ranked;
    hide SetOf;
    hide Chosen;
    var all, l := SetOf(c), Leaders(raw, SetOf(c));
    var p := SetOf(c[..i]) - l;
    DistinctSet(c);
    PrefixSubset(c, i);
    LeadersWithin(raw, all);
    RestApart(raw, c, i, l);
    TopPrefix(raw, all - l, p);
    SplitSize(all, l, p);
    JoinRest(l, SetOf(c[..i]));
    ChosenIs(raw, all, p);
  }

  lemma RestApart(raw: nat -> nat, c: seq<Worker>, i: nat, l: set<Worker>)
    requires Ranked(raw, c) && i <= |c|
    ensures forall a, b | a in SetOf(c[..i]) - l && b in SetOf(c) - l - (SetOf(c[..i]) - l) :: Before(raw, a, b)
  {
    hide Before;
    hide SetOf;
    hide Ranked;
    forall a, b | a in SetOf(c[..i]) - l && b in SetOf(c) - l - (SetOf(c[..i]) - l) ensures Before(raw, a, b) {
      RankedApart(raw, c, i, a, b);
    }
  }

  lemma JoinRest<T>(l: set<T>, q: set<T>)
    ensures l + q == l + (q - l)
  {
  }

  lemma ChosenIs(raw: nat -> nat, all: set<Worker>, p: set<Worker>)
    requires p != {} && Top(raw, all - Leaders(raw, all), |p|) == p
    ensures Chosen(raw, all, |Leaders(raw, all)| + |p|) == Leaders(raw, all) + p
  {
    hide Leaders;
    hide Top;
  }

  // --------------------------------------------- the selection in plain terms

  /** Listed, alive, well-formed, and with room for a chunk. */
  predicate Usable(workers: seq<Worker>, now: nat, w: Worker) {
    && w in workers && w.leaseDeadline > now && w.id != 0 && w.endpoint != "" && w.domain != ""
    && w.capacity != 0 && CHUNK_SIZE <= w.available <= w.capacity
  }

  /** More weighted space for the chunk at hand, or as much and the lower id. */
  predicate Outranks(raw: nat -> nat, a: Worker, b: Worker) {
    || raw(a.id) * a.available > raw(b.id) * b.available
    || (raw(a.id) * a.available == raw(b.id) * b.available && a.id < b.id)
  }

  /** One outranks the other, unless it is the best of its own failure domain and the other is not. */
  ghost predicate Preferred(raw: nat -> nat, workers: seq<Worker>, now: nat, v: Worker, u: Worker) {
    || Outranks(raw, v, u)
    || (&& v.domain != u.domain
        && (forall w | Usable(workers, now, w) && w.domain == v.domain && w != v :: Outranks(raw, v, w))
        && exists w | Usable(workers, now, w) :: w.domain == u.domain && w != u && Outranks(raw, w, u))
  }

  /** Each selected worker is preferred to each usable one left out. */
  ghost predicate NobodyBetter(raw: nat -> nat, workers: seq<Worker>, now: nat, selected: seq<Worker>) {
    forall v, u | v in selected && Usable(workers, now, u) && u !in selected :: Preferred(raw, workers, now, v, u)
  }

  lemma EligibleIsUsable(workers: seq<Worker>, now: nat)
    ensures EligibleOf(workers, now) == set w | w in workers && Usable(workers, now, w)
  {
  }

  lemma EligibleDistinct(workers: seq<Worker>, now: nat)
    requires DistinctSeq(workers)
    ensures DistinctIds(EligibleOf(workers, now))
  {
  }

  lemma {:induction false} SetSmaller(s: seq<Worker>)
    ensures |SetOf(s)| <= |s|
  {
    if s == [] {
      assert SetOf(s) == {};
    } else {
      var n := |s| - 1;
      SetSmaller(s[..n]);
      assert s == s[..n] + [s[n]];
      SetAppend(s[..n], s[n]);
    }
  }

  /** A list as long as its set of workers with distinct ids repeats no id. */
  lemma {:induction false} NoRepeats(s: seq<Worker>)
    requires |SetOf(s)| == |s| && DistinctIds(SetOf(s))
    ensures DistinctSeq(s)
  {
    if s != [] {
      var n := |s| - 1;
      var t, w := s[..n], s[n];
      assert s == t + [w];
      SetAppend(t, w);
      SetSmaller(t);
      NoRepeats(t);
      forall i | 0 <= i < n ensures s[i].id != w.id {
        assert t[i] == s[i] && s[i] in SetOf(t) && w in SetOf(s) && s[i] in SetOf(s);
      }
    }
  }

  lemma SelectionBest(raw: nat -> nat, workers: seq<Worker>, required: nat, now: nat, selected: seq<Worker>)
    requires DistinctIds(EligibleOf(workers, now)) && required <= |EligibleOf(workers, now)|
    requires EligibleOf(workers, now) == set w | w in workers && Usable(workers, now, w)
    requires SetOf(selected) == Chosen(raw, EligibleOf(workers, now), required) && |selected| == required
    ensures forall v | v in selected :: Usable(workers, now, v)
    ensures NobodyBetter(raw, workers, now, selected) && DistinctSeq(selected)
  {
    hide Chosen;
    hide EligibleOf;
    hide Usable;
    hide Outranks;
    hide NobodyBetter;
    hide SetOf;
    var c := EligibleOf(workers, now);
    ChosenSize(raw, c, required);
    NoRepeats(selected);
    UsableListed(workers, now);
    Members(selected);
    forall v, u | v in selected && Usable(workers, now, u) && u !in selected
      ensures Preferred(raw, workers, now, v, u)
    {
      PreferredHere(raw, c, required, workers, now, v, u);
    }
    PreferredAll(raw, workers, now, selected);
  }

  lemma Members(s: seq<Worker>)
    ensures forall v :: v in s <==> v in SetOf(s)
  {
  }

  lemma PreferredHere(raw: nat -> nat, c: set<Worker>, k: nat, workers: seq<Worker>, now: nat, v: Worker, u: Worker)
    requires DistinctIds(c) && k <= |c| && v in Chosen(raw, c, k) && u in c && u !in Chosen(raw, c, k) && v in c
    requires forall w :: w in c <==> Usable(workers, now, w)
    ensures Preferred(raw, workers, now, v, u)
  {
    hide Chosen;
    hide Usable;
    hide Outranks;
    hide Before;
    ChosenBest(raw, c, k, v, u);
    forall a, b | a in c && b in c ensures Outranks(raw, a, b) <==> Before(raw, a, b) { SameRank(raw, a, b); }
  }

  lemma PreferredAll(raw: nat -> nat, workers: seq<Worker>, now: nat, selected: seq<Worker>)
    requires forall v, u | v in selected && Usable(workers, now, u) && u !in selected ::
               Preferred(raw, workers, now, v, u)
    ensures NobodyBetter(raw, workers, now, selected)
  {
  }

  lemma SameRank(raw: nat -> nat, v: Worker, u: Worker)
    ensures Outranks(raw, v, u) <==> Before(raw, v, u)
  {
  }

  lemma SelectionPlain(raw: nat -> nat, workers: seq<Worker>, now: nat, selected: seq<Worker>)
    requires (forall v | v in selected :: Usable(workers, now, v)) && NobodyBetter(raw, workers, now, selected)
    ensures forall v | v in selected ::
              && v in workers && v.leaseDeadline > now && v.id != 0 && v.capacity != 0
              && CHUNK_SIZE <= v.available <= v.capacity && v.endpoint != "" && v.domain != ""
    ensures forall v, u | v in selected && Usable(workers, now, u) && u !in selected && u.domain == v.domain ::
              || raw(v.id) * v.available > raw(u.id) * u.available
              || (raw(v.id) * v.available == raw(u.id) * u.available && v.id < u.id)
  {
  }

  lemma UsableListed(workers: seq<Worker>, now: nat)
    ensures forall w | Usable(workers, now, w) :: w in workers
  {
  }

  // ------------------------------------------------------ the two passes

  /**
   Targets for a chunk: exactly the chosen set, which depends on the set of
   eligible workers and not on the order they are listed in.
   */
  method SelectWorkerTargets(raw: nat -> nat, workers: seq<Worker>, required: nat, now: nat)
    returns (r: Result<seq<Worker>>)
    requires DistinctSeq(workers)
    ensures r.Ok? <==> 0 < required <= |set w | w in workers && Usable(workers, now, w)|
    ensures r.Err? ==> r.error == if required == 0 then InvalidArg else Busy
    ensures r.Ok? ==> |r.value| == required && DistinctSeq(r.value)
    ensures r.Ok? ==> SetOf(r.value) == Chosen(raw, EligibleOf(workers, now), required)
    ensures r.Ok? ==> forall v | v in r.value ::
                        && v in workers && v.leaseDeadline > now && v.id != 0 && v.capacity != 0
                        && CHUNK_SIZE <= v.available <= v.capacity && v.endpoint != "" && v.domain != ""
    ensures r.Ok? ==> NobodyBetter(raw, workers, now, r.value)
    ensures r.Ok? ==>
              forall v, u | v in r.value && Usable(workers, now, u) && u !in r.value && u.domain == v.domain ::
                || raw(v.id) * v.available > raw(u.id) * u.available
                || (raw(v.id) * v.available == raw(u.id) * u.available && v.id < u.id)
  {
    hide Chosen;
    hide Leaders;
    hide FirstPass;
    hide SecondPass;
    hide Usable;
    hide Eligible;
    hide DistinctSeq;
    hide NobodyBetter;
    EligibleIsUsable(workers, now);
    EligibleDistinct(workers, now);
    if required == 0 {
      return Err(InvalidArg);
    }
    var c := Candidates(raw, workers, now);
    DistinctSize(c);
    if |c| < required {
      return Err(Busy);
    }
    var selected: seq<Worker>, domains: set<string> := [], {};
    var i := 0;
    PassesStart(raw, c);
    while i < |c| && |selected| < required
      invariant 0 <= i <= |c| && |selected| <= required && FirstPass(raw, c, i, selected, domains)
    {
      FirstPassStep(raw, c, i, selected, domains);
      if c[i].domain !in domains {
        selected := selected + [c[i]];
      }
      domains := domains + {c[i].domain};
      i := i + 1;
    }
    EnoughLeaders(raw, c, i, selected, domains);
    if |selected| < required {
      PassesMeet(raw, c, selected, domains);
      i := 0;
      while i < |c| && |selected| < required
        invariant 0 <= i <= |c| && |selected| <= required && SecondPass(raw, c, i, selected)
      {
        SecondPassStep(raw, c, i, selected);
        KnownById(raw, c, i, selected);
        if !exists j | 0 <= j < |selected| :: selected[j].id == c[i].id {
          selected := selected + [c[i]];
        }
        i := i + 1;
      }
      PassesEnd(raw, c, i, selected, required);
    }
    SelectionBest(raw, workers, required, now, selected);
    SelectionPlain(raw, workers, now, selected);
    r := Ok(selected);
  }

  lemma PassesStart(raw: nat -> nat, c: seq<Worker>)
    ensures FirstPass(raw, c, 0, [], {})
  {
    assert SetOf(c[..0]) == {} && SetOf([]) == {};
  }

  lemma PassesMeet(raw: nat -> nat, c: seq<Worker>, selected: seq<Worker>, domains: set<string>)
    requires FirstPass(raw, c, |c|, selected, domains)
    ensures SecondPass(raw, c, 0, selected) && |Leaders(raw, SetOf(c))| == |selected|
  {
    assert c[..|c|] == c;
    assert SetOf(c[..0]) == {};
    assert Leaders(raw, SetOf(c)) * SetOf(c) == Leaders(raw, SetOf(c));
  }

  lemma PassesEnd(raw: nat -> nat, c: seq<Worker>, i: nat, selected: seq<Worker>, required: nat)
    requires Ranked(raw, c) && DistinctSeq(c) && i <= |c| && SecondPass(raw, c, i, selected) && required <= |c|
    requires i == |c| || |selected| >= required
    requires |Leaders(raw, SetOf(c))| < required
    ensures |selected| >= required && SetOf(selected) == Chosen(raw, SetOf(c), |selected|)
  {
    DistinctSize(c);
    if i == |c| {
      assert c[..|c|] == c;
      assert SetOf(selected) == SetOf(c);
    }
    FilledUp(raw, c, i, selected);
  }
}
