/**
 Dropping what has expired, oldest first: shared by reservations and the request
 ledger, which both order rows by (expiry, key) and drop at most a given number.
 */
module Expiry {

  /** What has expired by `cutoff`; `ex` gives each key its expiry. */
  function Due(ex: map<nat, nat>, cutoff: nat): set<nat> {
    set k | k in ex && ex[k] <= cutoff
  }

  predicate Older(ex: map<nat, nat>, a: nat, b: nat)
    requires a in ex && b in ex
  {
    ex[a] < ex[b] || (ex[a] == ex[b] && a < b)
  }

  /** What is dropped has expired, and precedes everything expired that is kept. */
  ghost predicate OldestGone(ex: map<nat, nat>, cutoff: nat, left: set<nat>) {
    && left <= ex.Keys
    && (forall k | k in ex && k !in left :: ex[k] <= cutoff)
    && (forall a, b | a in ex && a !in left && b in left && ex[b] <= cutoff :: Older(ex, a, b))
  }

  /** As many are dropped as have expired and may be dropped. */
  ghost predicate EnoughGone(ex: map<nat, nat>, cutoff: nat, max: nat, left: set<nat>) {
    |ex.Keys - left| == if |Due(ex, cutoff)| <= max then |Due(ex, cutoff)| else max
  }

  lemma NothingGone(ex: map<nat, nat>, cutoff: nat, max: nat)
    requires max == 0 || Due(ex, cutoff) == {}
    ensures OldestGone(ex, cutoff, ex.Keys) && EnoughGone(ex, cutoff, max, ex.Keys)
  {
    assert ex.Keys - ex.Keys == {};
  }

  /** Drop the oldest, then whatever is dropped of the rest. */
  lemma OneMoreGone(ex: map<nat, nat>, cutoff: nat, max: nat, k: nat, left: set<nat>)
    requires max > 0 && k in Due(ex, cutoff) && (forall j | j in Due(ex, cutoff) && j != k :: Older(ex, k, j))
    requires OldestGone(ex - {k}, cutoff, left) && EnoughGone(ex - {k}, cutoff, max - 1, left)
    ensures OldestGone(ex, cutoff, left) && EnoughGone(ex, cutoff, max, left)
  {
    OrderKept(ex, cutoff, k, left);
    CountKept(ex, cutoff, max, k, left);
  }

  lemma OrderKept(ex: map<nat, nat>, cutoff: nat, k: nat, left: set<nat>)
    requires k in Due(ex, cutoff) && (forall j | j in Due(ex, cutoff) && j != k :: Older(ex, k, j))
    requires OldestGone(ex - {k}, cutoff, left)
    ensures OldestGone(ex, cutoff, left)
  {
    assert k !in left;
    forall a, b | a in ex && a !in left && b in left && ex[b] <= cutoff ensures Older(ex, a, b) {
      if a == k {
        assert b in Due(ex, cutoff);
      } else {
        assert Older(ex - {k}, a, b);
      }
    }
  }

  lemma CountKept(ex: map<nat, nat>, cutoff: nat, max: nat, k: nat, left: set<nat>)
    requires max > 0 && k in Due(ex, cutoff) && left <= (ex - {k}).Keys
    requires EnoughGone(ex - {k}, cutoff, max - 1, left)
    ensures EnoughGone(ex, cutoff, max, left)
  {
    assert Due(ex - {k}, cutoff) == Due(ex, cutoff) - {k};
    assert ex.Keys - left == ((ex - {k}).Keys - left) + {k};
  }
}
