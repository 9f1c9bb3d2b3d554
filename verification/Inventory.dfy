/**
 One page of the merged chunk inventory: a k-way merge over per-worker pages,
 each worker with its own exclusive cursor.
 */
module Inventory {
  import opened Types

  type WorkerId = nat
  type Inventories = map<WorkerId, set<ChunkId>>
  type Cursors = map<WorkerId, ChunkId>

  /** What worker `w` has not yet contributed. */
  function Beyond(inv: Inventories, cursor: Cursors, w: WorkerId): set<ChunkId>
    requires w in inv
  {
    set k | k in inv[w] && (w in cursor ==> cursor[w] < k)
  }

  /** Everything some worker has not yet contributed. */
  function AllBeyond(inv: Inventories, cursor: Cursors): set<ChunkId> {
    set w, k | w in inv && k in Beyond(inv, cursor, w) :: k
  }

  function HoldersOf(inv: Inventories, cursor: Cursors, k: ChunkId): set<WorkerId> {
    set w | w in inv && k in Beyond(inv, cursor, w)
  }

  predicate Ascending(s: seq<ChunkId>) {
    forall i, j | 0 <= i < j < |s| :: s[i] < s[j]
  }

  function Keys(s: seq<ChunkId>): set<ChunkId> {
    set i | 0 <= i < |s| :: s[i]
  }

  /** `low` consists of the smallest elements of `all`. */
  ghost predicate Lowest(low: set<ChunkId>, all: set<ChunkId>) {
    low <= all && forall a, b | a in low && b in all && b !in low :: a < b
  }

  method LeastOf(s: set<ChunkId>) returns (m: ChunkId)
    requires s != {}
    ensures m in s && forall x | x in s :: m <= x
  {
    m :| m in s;
    var rest := s - {m};
    while rest != {}
      invariant m in s && rest <= s && forall x | x in s && x !in rest :: m <= x
      decreases |rest|
    {
      var x :| x in rest;
      if x < m { m := x; }
      rest := rest - {x};
    }
  }

  /** A worker's own page: its smallest keys after the cursor, as many as the limit allows, and whether it has more. */
  method ListChunks(keys: set<ChunkId>, limit: nat) returns (page: seq<ChunkId>, more: bool)
    requires limit >= 1
    ensures Ascending(page) && Lowest(Keys(page), keys)
    ensures |page| == if |keys| <= limit then |keys| else limit
    ensures more <==> |keys| > limit
    ensures more <==> Keys(page) != keys
  {
    page := [];
    var rest := keys;
    while rest != {} && |page| < limit
      invariant Ascending(page) && Lowest(Keys(page), keys) && rest == keys - Keys(page)
      invariant |page| <= limit && |page| + |rest| == |keys|
      decreases |rest|
    {
      var m := LeastOf(rest);
      AppendLeast(page, keys, rest, m);
      page := page + [m];
      rest := rest - {m};
    }
    more := rest != {};
    assert Keys(page) == keys - rest;
  }

  lemma AppendLeast(page: seq<ChunkId>, keys: set<ChunkId>, rest: set<ChunkId>, m: ChunkId)
    requires Ascending(page) && Lowest(Keys(page), keys) && rest == keys - Keys(page)
    requires m in rest && forall x | x in rest :: m <= x
    ensures Ascending(page + [m]) && Lowest(Keys(page + [m]), keys) && rest - {m} == keys - Keys(page + [m])
  {
    KeysAppend(page, m);
    assert forall i | 0 <= i < |page| :: page[i] in Keys(page);
    forall a, b | a in Keys(page + [m]) && b in keys && b !in Keys(page + [m]) ensures a < b {
      assert b in rest;
    }
  }

  lemma KeysAppend(page: seq<ChunkId>, m: ChunkId)
    ensures Keys(page + [m]) == Keys(page) + {m}
  {
    forall x | x in Keys(page) + {m} ensures x in Keys(page + [m]) {
      if x == m {
        assert (page + [m])[|page|] == m;
      } else {
        var i :| 0 <= i < |page| && page[i] == x;
        assert (page + [m])[i] == x;
      }
    }
  }

  lemma KeysTail(s: seq<ChunkId>)
    requires s != [] && Ascending(s)
    ensures Keys(s[1..]) == Keys(s) - {s[0]} && Ascending(s[1..])
    ensures forall x | x in Keys(s) :: s[0] <= x
  {
    forall x | x in Keys(s) - {s[0]} ensures x in Keys(s[1..]) {
      var i :| 0 <= i < |s| && s[i] == x;
      assert s[1..][i-1] == x;
    }
    forall x | x in Keys(s[1..]) ensures x in Keys(s) - {s[0]} {
      var i :| 0 <= i < |s[1..]| && s[1..][i] == x;
      assert s[i+1] == x;
    }
  }

  // ------------------------------------------------------------ one worker

  /** The buffer holds the worker's next keys, and the flag says exactly whether it has others. */
  ghost predicate BufferLow(buf: seq<ChunkId>, more: bool, rest: set<ChunkId>) {
    Ascending(buf) && Lowest(Keys(buf), rest) && (more <==> Keys(buf) != rest)
  }

  /** Before the first fetch nothing is known. */
  ghost predicate BufferReady(buf: seq<ChunkId>, more: bool, rest: set<ChunkId>) {
    (buf == [] && more) || BufferLow(buf, more, rest)
  }

  /** After a refill an empty buffer means an exhausted worker. */
  ghost predicate BufferOk(buf: seq<ChunkId>, more: bool, rest: set<ChunkId>) {
    BufferLow(buf, more, rest) && (buf == [] ==> rest == {})
  }

  /** Fetch the worker's next page when its buffer ran dry. */
  method RefillOne(buf: seq<ChunkId>, more: bool, rest: set<ChunkId>, limit: nat)
    returns (buf': seq<ChunkId>, more': bool)
    requires BufferReady(buf, more, rest) && limit >= 1
    ensures BufferOk(buf', more', rest)
  {
    buf', more' := buf, more;
    if buf == [] && more {
      buf', more' := ListChunks(rest, limit);
      if buf' == [] { more' := false; }
    }
  }

  lemma PopFront(buf: seq<ChunkId>, more: bool, rest: set<ChunkId>)
    requires BufferLow(buf, more, rest) && buf != []
    ensures BufferLow(buf[1..], more, rest - {buf[0]}) && buf[0] in rest
    ensures forall x | x in rest :: buf[0] <= x
  {
    KeysTail(buf);
    assert buf[0] in Keys(buf);
    if more {
      var y :| y in rest && y !in Keys(buf);
      assert y in rest - {buf[0]} && y !in Keys(buf[1..]);
    }
  }

  lemma NotFront(buf: seq<ChunkId>, more: bool, rest: set<ChunkId>, m: ChunkId)
    requires BufferOk(buf, more, rest) && (buf != [] ==> m < buf[0])
    ensures m !in rest
  {
    if buf != [] {
      PopFront(buf, more, rest);
    }
  }

  // ----------------------------------------------------------- all workers

  datatype Buffers = Buffers(bufs: map<WorkerId, seq<ChunkId>>, more: map<WorkerId, bool>)

  ghost predicate Sized(inv: Inventories, b: Buffers) {
    b.bufs.Keys == inv.Keys && b.more.Keys == inv.Keys
  }

  ghost predicate AllReady(inv: Inventories, cursor: Cursors, b: Buffers) {
    Sized(inv, b) && forall w | w in inv :: BufferReady(b.bufs[w], b.more[w], Beyond(inv, cursor, w))
  }

  ghost predicate AllLow(inv: Inventories, cursor: Cursors, b: Buffers) {
    Sized(inv, b) && forall w | w in inv :: BufferLow(b.bufs[w], b.more[w], Beyond(inv, cursor, w))
  }

  ghost predicate AllOk(inv: Inventories, cursor: Cursors, b: Buffers) {
    Sized(inv, b) && forall w | w in inv :: BufferOk(b.bufs[w], b.more[w], Beyond(inv, cursor, w))
  }

  /** Fetch a page from every worker whose buffer ran dry. */
  method Refill(inv: Inventories, cursor: Cursors, b: Buffers, limit: nat) returns (b': Buffers)
    requires AllReady(inv, cursor, b) && limit >= 1
    ensures AllOk(inv, cursor, b')
  {
    hide BufferReady;
    hide BufferOk;
    hide Beyond;
    b' := b;
    var todo := inv.Keys;
    while todo != {}
      invariant todo <= inv.Keys && Sized(inv, b')
      invariant forall w | w in inv :: RefilledRow(inv, cursor, b, b', w, w in todo)
      decreases |todo|
    {
      var w :| w in todo;
      assert RefilledRow(inv, cursor, b, b', w, true);
      var buf, more := RefillOne(b.bufs[w], b.more[w], Beyond(inv, cursor, w), limit);
      ghost var before := b';
      b' := Buffers(b'.bufs[w := buf], b'.more[w := more]);
      RowRefilled(inv, cursor, b, before, b', w, todo);
      todo := todo - {w};
    }
    forall w | w in inv ensures BufferOk(b'.bufs[w], b'.more[w], Beyond(inv, cursor, w)) {
      assert RefilledRow(inv, cursor, b, b', w, false);
    }
  }

  /** A worker's buffer before and after its turn in a refill. */
  ghost predicate RefilledRow(inv: Inventories, cursor: Cursors, b: Buffers, b': Buffers, w: WorkerId, waiting: bool)
    requires w in inv && Sized(inv, b) && Sized(inv, b')
  {
    if waiting then b'.bufs[w] == b.bufs[w] && b'.more[w] == b.more[w]
    else BufferOk(b'.bufs[w], b'.more[w], Beyond(inv, cursor, w))
  }

  lemma RowRefilled(inv: Inventories, cursor: Cursors, b: Buffers, before: Buffers, after: Buffers, w: WorkerId,
                    todo: set<WorkerId>)
    requires Sized(inv, b) && Sized(inv, before) && w in inv && w in after.bufs && w in after.more
    requires after.bufs == before.bufs[w := after.bufs[w]] && after.more == before.more[w := after.more[w]]
    requires BufferOk(after.bufs[w], after.more[w], Beyond(inv, cursor, w))
    requires forall v | v in inv :: RefilledRow(inv, cursor, b, before, v, v in todo)
    ensures Sized(inv, after) && forall v | v in inv :: RefilledRow(inv, cursor, b, after, v, v in todo - {w})
  {
    hide BufferOk;
    hide Beyond;
    forall v | v in inv ensures Sized(inv, after) && RefilledRow(inv, cursor, b, after, v, v in todo - {w}) {
      assert RefilledRow(inv, cursor, b, before, v, v in todo);
    }
  }

  lemma FrontIsLeast(inv: Inventories, cursor: Cursors, b: Buffers, w: WorkerId)
    requires AllOk(inv, cursor, b) && w in inv
    ensures b.bufs[w] == [] ==> Beyond(inv, cursor, w) == {}
    ensures b.bufs[w] != [] ==>
              b.bufs[w][0] in Beyond(inv, cursor, w) && forall k | k in Beyond(inv, cursor, w) :: b.bufs[w][0] <= k
  {
    if b.bufs[w] != [] { PopFront(b.bufs[w], b.more[w], Beyond(inv, cursor, w)); }
  }

  /** The least key at the front of any buffer. */
  method LeastFront(inv: Inventories, b: Buffers) returns (m: Option<ChunkId>)
    requires Sized(inv, b)
    ensures m.None? ==> forall w | w in inv :: b.bufs[w] == []
    ensures m.Some? ==> exists w | w in inv :: b.bufs[w] != [] && b.bufs[w][0] == m.value
    ensures m.Some? ==> forall w | w in inv && b.bufs[w] != [] :: m.value <= b.bufs[w][0]
  {
    m := None;
    var todo := inv.Keys;
    while todo != {}
      invariant todo <= inv.Keys
      invariant m.Some? ==> exists w | w in inv :: b.bufs[w] != [] && b.bufs[w][0] == m.value
      invariant forall w | w in inv && w !in todo && b.bufs[w] != [] :: m.Some? && m.value <= b.bufs[w][0]
      decreases |todo|
    {
      var w :| w in todo;
      if b.bufs[w] != [] && (m.None? || b.bufs[w][0] < m.value) {
        m := Some(b.bufs[w][0]);
      }
      todo := todo - {w};
    }
  }

  lemma LeastOfAll(inv: Inventories, cursor: Cursors, b: Buffers, m: Option<ChunkId>)
    requires AllOk(inv, cursor, b)
    requires m.None? ==> forall w | w in inv :: b.bufs[w] == []
    requires m.Some? ==> exists w | w in inv :: b.bufs[w] != [] && b.bufs[w][0] == m.value
    requires m.Some? ==> forall w | w in inv && b.bufs[w] != [] :: m.value <= b.bufs[w][0]
    ensures m.None? ==> AllBeyond(inv, cursor) == {}
    ensures m.Some? ==> m.value in AllBeyond(inv, cursor) && forall k | k in AllBeyond(inv, cursor) :: m.value <= k
  {
    forall k | k in AllBeyond(inv, cursor) ensures m.Some? && m.value <= k {
      var v :| v in inv && k in Beyond(inv, cursor, v);
      FrontIsLeast(inv, cursor, b, v);
    }
    if m.Some? {
      var w :| w in inv && b.bufs[w] != [] && b.bufs[w][0] == m.value;
      FrontIsLeast(inv, cursor, b, w);
    }
  }

  /** Taking the least key off every worker that has it. */
  lemma PopOne(inv: Inventories, cursor: Cursors, b: Buffers, w: WorkerId, m: ChunkId)
    requires AllOk(inv, cursor, b) && w in inv && (b.bufs[w] != [] ==> m <= b.bufs[w][0])
    ensures b.bufs[w] != [] && b.bufs[w][0] == m ==>
              && m in Beyond(inv, cursor, w)
              && Beyond(inv, cursor[w := m], w) == Beyond(inv, cursor, w) - {m}
              && BufferLow(b.bufs[w][1..], b.more[w], Beyond(inv, cursor, w) - {m})
    ensures !(b.bufs[w] != [] && b.bufs[w][0] == m) ==> m !in Beyond(inv, cursor, w)
  {
    if b.bufs[w] != [] && b.bufs[w][0] == m {
      PopFront(b.bufs[w], b.more[w], Beyond(inv, cursor, w));
    } else {
      NotFront(b.bufs[w], b.more[w], Beyond(inv, cursor, w), m);
    }
  }

  ghost predicate Popped(inv: Inventories, cursor: Cursors, cursor': Cursors, b': Buffers, m: ChunkId, w: WorkerId)
    requires w in inv && Sized(inv, b')
  {
    && Beyond(inv, cursor', w) == Beyond(inv, cursor, w) - {m}
    && BufferLow(b'.bufs[w], b'.more[w], Beyond(inv, cursor', w))
  }

  lemma SameCursor(inv: Inventories, a: Cursors, b: Cursors, w: WorkerId)
    requires w in inv && (w in a <==> w in b) && (w in a ==> a[w] == b[w])
    ensures Beyond(inv, a, w) == Beyond(inv, b, w)
  {
  }

  predicate SameAt(a: Cursors, b: Cursors, w: WorkerId) {
    (w in a <==> w in b) && (w in a ==> a[w] == b[w])
  }

  /** What popping one worker makes of its buffer and cursor. */
  lemma PopWorker(inv: Inventories, cursor: Cursors, b: Buffers, m: ChunkId, w: WorkerId, cursor': Cursors, b': Buffers)
    requires AllOk(inv, cursor, b) && w in inv && (b.bufs[w] != [] ==> m <= b.bufs[w][0]) && Sized(inv, b')
    requires b'.more[w] == b.more[w]
    requires if b.bufs[w] != [] && b.bufs[w][0] == m
             then b'.bufs[w] == b.bufs[w][1..] && w in cursor' && cursor'[w] == m
             else && b'.bufs[w] == b.bufs[w] && (w in cursor <==> w in cursor')
                  && (w in cursor ==> cursor'[w] == cursor[w])
    ensures Popped(inv, cursor, cursor', b', m, w)
    ensures m in Beyond(inv, cursor, w) <==> b.bufs[w] != [] && b.bufs[w][0] == m
  {
    PopOne(inv, cursor, b, w, m);
    if b.bufs[w] != [] && b.bufs[w][0] == m {
      SameCursor(inv, cursor', cursor[w := m], w);
    } else {
      SameCursor(inv, cursor', cursor, w);
      assert Beyond(inv, cursor, w) - {m} == Beyond(inv, cursor, w);
    }
  }

  predicate InFront(b: Buffers, w: WorkerId, m: ChunkId) {
    w in b.bufs && b.bufs[w] != [] && b.bufs[w][0] == m
  }

  /** The buffer and cursor of one worker after the least key is popped. */
  ghost predicate PoppedRow(cursor: Cursors, b: Buffers, m: ChunkId, w: WorkerId, cursor': Cursors, b': Buffers)
    requires w in b.bufs && w in b'.bufs
  {
    if InFront(b, w, m) then b'.bufs[w] == b.bufs[w][1..] && w in cursor' && cursor'[w] == m
    else b'.bufs[w] == b.bufs[w] && (w in cursor <==> w in cursor') && (w in cursor ==> cursor'[w] == cursor[w])
  }

  ghost predicate KeptRow(cursor: Cursors, b: Buffers, w: WorkerId, cursor': Cursors, b': Buffers)
    requires w in b.bufs && w in b'.bufs
  {
    b'.bufs[w] == b.bufs[w] && (w in cursor <==> w in cursor') && (w in cursor ==> cursor'[w] == cursor[w])
  }

  /** Popping one worker leaves the rows of the others alone. */
  lemma RowsApart(inv: Inventories, cursor: Cursors, b: Buffers, m: ChunkId, w: WorkerId,
                  c0: Cursors, b0: Buffers, c1: Cursors, b1: Buffers)
    requires Sized(inv, b) && Sized(inv, b0) && Sized(inv, b1) && w in inv
    requires PoppedRow(cursor, b, m, w, c0, b0) || KeptRow(cursor, b, w, c0, b0)
    requires if InFront(b, w, m) then b1.bufs == b0.bufs[w := b.bufs[w][1..]] && c1 == c0[w := m]
             else b1.bufs == b0.bufs && c1 == c0
    ensures PoppedRow(cursor, b, m, w, c1, b1)
    ensures forall v | v in inv && v != w :: PoppedRow(cursor, b, m, v, c0, b0) ==> PoppedRow(cursor, b, m, v, c1, b1)
    ensures forall v | v in inv && v != w :: KeptRow(cursor, b, v, c0, b0) ==> KeptRow(cursor, b, v, c1, b1)
  {
  }

  method PopFronts(inv: Inventories, cursor: Cursors, b: Buffers, m: ChunkId)
    returns (holders: set<WorkerId>, cursor': Cursors, b': Buffers)
    requires Sized(inv, b)
    ensures Sized(inv, b') && b'.more == b.more
    ensures holders <= inv.Keys && forall w | w in inv :: w in holders <==> InFront(b, w, m)
    ensures forall w | w in inv :: PoppedRow(cursor, b, m, w, cursor', b')
  {
    holders, cursor', b' := {}, cursor, b;
    var todo := inv.Keys;
    while todo != {}
      invariant todo <= inv.Keys && Sized(inv, b') && b'.more == b.more
      invariant holders <= inv.Keys - todo
      invariant forall w | w in inv && w !in todo :: w in holders <==> InFront(b, w, m)
      invariant forall w | w in inv ::
                  PoppedRow(cursor, b, m, w, cursor', b') || (w in todo && KeptRow(cursor, b, w, cursor', b'))
      decreases |todo|
    {
      var w :| w in todo;
      ghost var c0, b0 := cursor', b';
      if InFront(b, w, m) {
        b' := Buffers(b'.bufs[w := b.bufs[w][1..]], b'.more);
        holders := holders + {w};
        cursor' := cursor'[w := m];
      }
      RowsApart(inv, cursor, b, m, w, c0, b0, cursor', b');
      todo := todo - {w};
    }
  }

  /** Pop the least key off every worker that has it in front. */
  method PopLeast(inv: Inventories, cursor: Cursors, b: Buffers, m: ChunkId)
    returns (holders: set<WorkerId>, cursor': Cursors, b': Buffers)
    requires AllOk(inv, cursor, b) && forall w | w in inv && b.bufs[w] != [] :: m <= b.bufs[w][0]
    ensures holders == HoldersOf(inv, cursor, m)
    ensures AllLow(inv, cursor', b')
    ensures forall w | w in inv :: Beyond(inv, cursor', w) == Beyond(inv, cursor, w) - {m}
    ensures forall w | w in inv :: if w in holders then w in cursor' && cursor'[w] == m else SameAt(cursor, cursor', w)
  {
    holders, cursor', b' := PopFronts(inv, cursor, b, m);
    assert Sized(inv, b);
    hide AllOk;
    hide BufferLow;
    hide Beyond;
    forall w | w in inv
      ensures Popped(inv, cursor, cursor', b', m, w)
      ensures m in Beyond(inv, cursor, w) <==> InFront(b, w, m)
    {
      assert PoppedRow(cursor, b, m, w, cursor', b');
      PopWorker(inv, cursor, b, m, w, cursor', b');
    }
  }

  // -------------------------------------------------------------- the page

  /** The page so far: the lowest keys, with exactly the workers that hold them. */
  ghost predicate PageOk(inv: Inventories, start: Cursors, cursor: Cursors, page: map<ChunkId, set<WorkerId>>) {
    && Lowest(page.Keys, AllBeyond(inv, start))
    && (forall k | k in page :: page[k] == HoldersOf(inv, start, k))
    && (forall w | w in inv :: Beyond(inv, cursor, w) == Beyond(inv, start, w) - page.Keys)
  }

  /** A cursor moves forward, to a key of the page, or not at all. */
  ghost predicate CursorOk(start: Cursors, cursor: Cursors, page: map<ChunkId, set<WorkerId>>, w: WorkerId) {
    SameAt(start, cursor, w) || (w in cursor && cursor[w] in page && (w in start ==> start[w] < cursor[w]))
  }

  ghost predicate CursorsOk(inv: Inventories, start: Cursors, cursor: Cursors, page: map<ChunkId, set<WorkerId>>) {
    && (forall w | w in inv :: CursorOk(start, cursor, page, w))
    && (page != map[] ==> exists w | w in inv :: !SameAt(start, cursor, w))
  }

  lemma CursorsMove(inv: Inventories, start: Cursors, cursor: Cursors, cursor': Cursors,
                    page: map<ChunkId, set<WorkerId>>,
                    m: ChunkId, holders: set<WorkerId>)
    requires CursorsOk(inv, start, cursor, page) && m in AllBeyond(inv, cursor) && holders == HoldersOf(inv, cursor, m)
    requires forall w | w in inv :: if w in holders then w in cursor' && cursor'[w] == m else SameAt(cursor, cursor', w)
    ensures CursorsOk(inv, start, cursor', page[m := holders])
  {
    forall w | w in inv ensures CursorOk(start, cursor', page[m := holders], w) {
      assert CursorOk(start, cursor, page, w);
    }
    var w :| w in inv && m in Beyond(inv, cursor, w);
    assert w in holders && CursorOk(start, cursor, page, w);
    assert !SameAt(start, cursor', w);
  }

  lemma BeyondShrinks(inv: Inventories, start: Cursors, cursor: Cursors, keys: set<ChunkId>)
    requires forall w | w in inv :: Beyond(inv, cursor, w) == Beyond(inv, start, w) - keys
    ensures AllBeyond(inv, cursor) == AllBeyond(inv, start) - keys
    ensures forall k | k !in keys :: HoldersOf(inv, cursor, k) == HoldersOf(inv, start, k)
  {
    hide Beyond;
    forall k | k in AllBeyond(inv, start) - keys ensures k in AllBeyond(inv, cursor) {
      var w :| w in inv && k in Beyond(inv, start, w);
      assert k in Beyond(inv, cursor, w);
    }
    forall k | k in AllBeyond(inv, cursor) ensures k in AllBeyond(inv, start) - keys {
      var w :| w in inv && k in Beyond(inv, cursor, w);
      assert k in Beyond(inv, start, w);
    }
  }

  lemma PageGrows(inv: Inventories, start: Cursors, cursor: Cursors, cursor': Cursors,
                  page: map<ChunkId, set<WorkerId>>,
                  m: ChunkId, holders: set<WorkerId>)
    requires PageOk(inv, start, cursor, page)
    requires m in AllBeyond(inv, cursor) && forall k | k in AllBeyond(inv, cursor) :: m <= k
    requires holders == HoldersOf(inv, cursor, m)
    requires forall w | w in inv :: Beyond(inv, cursor', w) == Beyond(inv, cursor, w) - {m}
    ensures m !in page && PageOk(inv, start, cursor', page[m := holders])
  {
    hide AllBeyond;
    hide Beyond;
    hide HoldersOf;
    BeyondShrinks(inv, start, cursor, page.Keys);
    var page' := page[m := holders];
    assert page'.Keys == page.Keys + {m};
    forall a, b | a in page'.Keys && b in AllBeyond(inv, start) && b !in page'.Keys ensures a < b {
      assert b in AllBeyond(inv, cursor);
    }
    forall w | w in inv ensures Beyond(inv, cursor', w) == Beyond(inv, start, w) - page'.Keys {
      assert Beyond(inv, cursor, w) - {m} == Beyond(inv, start, w) - page'.Keys;
    }
  }

  lemma PageDone(inv: Inventories, start: Cursors, cursor: Cursors, page: map<ChunkId, set<WorkerId>>, b: Buffers)
    requires PageOk(inv, start, cursor, page) && AllLow(inv, cursor, b)
    ensures (exists w | w in inv :: b.bufs[w] != [] || b.more[w]) <==> AllBeyond(inv, cursor) != {}
  {
    if w :| w in inv && (b.bufs[w] != [] || b.more[w]) {
      if b.bufs[w] != [] {
        assert b.bufs[w][0] in Keys(b.bufs[w]);
        assert b.bufs[w][0] in AllBeyond(inv, cursor);
      } else {
        var k :| k in Beyond(inv, cursor, w);
        assert k in AllBeyond(inv, cursor);
      }
    } else {
      forall w | w in inv ensures Beyond(inv, cursor, w) == {} { assert b.bufs[w] == []; }
    }
  }

  /**
   One page of at most `limit` keys: the smallest keys not yet contributed, each
   with exactly the workers that still had to contribute it, and `more` exactly
   when a key is left.
   */
  method InventoryPage(inv: Inventories, start: Cursors, limit: nat)
    returns (page: map<ChunkId, set<WorkerId>>, cursor: Cursors, more: bool)
    requires limit >= 1
    ensures PageOk(inv, start, cursor, page) && CursorsOk(inv, start, cursor, page)
    ensures |page| <= limit && (|page| < limit ==> AllBeyond(inv, cursor) == {})
    ensures more <==> AllBeyond(inv, cursor) != {}
  {
    hide BufferReady;
    hide BufferLow;
    hide BufferOk;
    hide Beyond;
    hide Lowest;
    hide AllBeyond;
    hide CursorsOk;
    page, cursor := map[], start;
    var b := Buffers(map w | w in inv :: [], map w | w in inv :: true);
    StartPage(inv, start, b);
    assert page == map[];
    var dry := false;
    while |page| < limit && !dry
      invariant |page| <= limit && PageOk(inv, start, cursor, page) && CursorsOk(inv, start, cursor, page)
      invariant AllReady(inv, cursor, b)
      invariant page != map[] || dry ==> AllLow(inv, cursor, b)
      invariant dry ==> AllBeyond(inv, cursor) == {} && |page| < limit
      decreases limit - |page|, !dry
    {
      b := Refill(inv, cursor, b, limit);
      OkIsLow(inv, cursor, b);
      var m := LeastFront(inv, b);
      LeastOfAll(inv, cursor, b, m);
      if m.None? {
        dry := true;
      } else {
        var holders, cursor', b' := PopLeast(inv, cursor, b, m.value);
        PageGrows(inv, start, cursor, cursor', page, m.value, holders);
        CursorsMove(inv, start, cursor, cursor', page, m.value, holders);
        page := page[m.value := holders];
        cursor, b := cursor', b';
        LowIsReady(inv, cursor, b);
      }
    }
    PageDone(inv, start, cursor, page, b);
    more := |page| == limit && exists w | w in inv :: b.bufs[w] != [] || b.more[w];
  }

  lemma StartPage(inv: Inventories, start: Cursors, b: Buffers)
    requires b == Buffers(map w | w in inv :: [], map w | w in inv :: true)
    ensures AllReady(inv, start, b) && PageOk(inv, start, start, map[]) && CursorsOk(inv, start, start, map[])
  {
  }

  lemma OkIsLow(inv: Inventories, cursor: Cursors, b: Buffers)
    requires AllOk(inv, cursor, b)
    ensures AllLow(inv, cursor, b) && AllReady(inv, cursor, b)
  {
    hide Beyond;
  }

  lemma LowIsReady(inv: Inventories, cursor: Cursors, b: Buffers)
    requires AllLow(inv, cursor, b)
    ensures AllReady(inv, cursor, b)
  {
    hide Beyond;
  }

  // ------------------------------------------------------------- all pages

  /** Every chunk on any worker. */
  function Universe(inv: Inventories): set<ChunkId> {
    AllBeyond(inv, map[])
  }

  function Owners(inv: Inventories, k: ChunkId): set<WorkerId> {
    set w | w in inv && k in inv[w]
  }

  lemma StartBeyond(inv: Inventories)
    ensures forall w | w in inv :: Beyond(inv, map[], w) == inv[w]
    ensures forall k :: HoldersOf(inv, map[], k) == Owners(inv, k)
  {
    assert forall w | w in inv :: Beyond(inv, map[], w) == inv[w];
    hide Beyond;
  }

  /** Two stretches of the walk make one. */
  lemma PagesJoin(inv: Inventories, start: Cursors, mid: Cursors, end: Cursors, a: map<ChunkId, set<WorkerId>>,
                  b: map<ChunkId, set<WorkerId>>)
    requires PageOk(inv, start, mid, a) && PageOk(inv, mid, end, b)
    ensures a.Keys !! b.Keys && PageOk(inv, start, end, a + b)
    ensures forall x, y | x in a && y in b :: x < y
  {
    hide AllBeyond;
    hide Beyond;
    hide HoldersOf;
    BeyondShrinks(inv, start, mid, a.Keys);
    assert (a + b).Keys == a.Keys + b.Keys;
    forall w | w in inv ensures Beyond(inv, end, w) == Beyond(inv, start, w) - (a + b).Keys {
    }
    forall x, y | x in (a + b).Keys && y in AllBeyond(inv, start) && y !in (a + b).Keys ensures x < y {
      assert y in AllBeyond(inv, mid);
    }
  }

  /** The pages list exactly the keys of `all`, in ascending order. */
  ghost predicate PagesOf(pages: seq<map<ChunkId, set<WorkerId>>>, all: map<ChunkId, set<WorkerId>>) {
    && (forall i, k | 0 <= i < |pages| && k in pages[i] :: k in all && pages[i][k] == all[k])
    && (forall k | k in all :: exists i | 0 <= i < |pages| :: k in pages[i])
    && (forall i, j, x, y | 0 <= i < j < |pages| && x in pages[i] && y in pages[j] :: x < y)
  }

  lemma AppendPage(pages: seq<map<ChunkId, set<WorkerId>>>, all: map<ChunkId, set<WorkerId>>,
                   page: map<ChunkId, set<WorkerId>>)
    requires PagesOf(pages, all) && all.Keys !! page.Keys && forall x, y | x in all && y in page :: x < y
    ensures PagesOf(pages + [page], all + page)
  {
    var pages' := pages + [page];
    forall k | k in all + page ensures exists i | 0 <= i < |pages'| :: k in pages'[i] {
      if k in page {
        assert k in pages'[|pages|];
      } else {
        var i :| 0 <= i < |pages| && k in pages[i];
        assert k in pages'[i];
      }
    }
    forall i, j, x, y | 0 <= i < j < |pages'| && x in pages'[i] && y in pages'[j] ensures x < y {
      assert pages'[i] == pages[i];
      if j < |pages| { assert pages'[j] == pages[j]; } else { assert x in all && y in page; }
    }
  }

  /**
   Walking the inventory page by page until `more` is false lists every chunk
   of every worker once, in ascending order, with exactly its holders.
   */
  method ListAll(inv: Inventories, limit: nat)
    returns (pages: seq<map<ChunkId, set<WorkerId>>>, all: map<ChunkId, set<WorkerId>>)
    requires limit >= 1
    ensures all.Keys == Universe(inv) && forall k | k in all :: all[k] == Owners(inv, k)
    ensures PagesOf(pages, all)
  {
    hide PageOk;
    hide AllBeyond;
    hide PagesOf;
    var cursor: Cursors := map[];
    pages, all := [], map[];
    EmptyPage(inv);
    var more := true;
    while more
      invariant PageOk(inv, map[], cursor, all) && PagesOf(pages, all)
      invariant !more ==> AllBeyond(inv, cursor) == {}
      decreases |AllBeyond(inv, cursor)|, more
    {
      var page, next, rest := InventoryPage(inv, cursor, limit);
      PagesJoin(inv, map[], cursor, next, all, page);
      PageShrinks(inv, cursor, next, page, limit, rest);
      AppendPage(pages, all, page);
      pages, all, cursor, more := pages + [page], all + page, next, rest;
    }
    AllListed(inv, cursor, all);
  }

  lemma EmptyPage(inv: Inventories)
    ensures PageOk(inv, map[], map[], map[]) && PagesOf([], map[])
  {
  }

  lemma PageShrinks(inv: Inventories, cursor: Cursors, next: Cursors, page: map<ChunkId, set<WorkerId>>,
                    limit: nat, more: bool)
    requires PageOk(inv, cursor, next, page) && limit >= 1
    requires |page| < limit ==> AllBeyond(inv, next) == {}
    requires more <==> AllBeyond(inv, next) != {}
    ensures |AllBeyond(inv, next)| <= |AllBeyond(inv, cursor)|
    ensures more ==> |AllBeyond(inv, next)| < |AllBeyond(inv, cursor)|
  {
    hide AllBeyond;
    hide Beyond;
    hide HoldersOf;
    BeyondShrinks(inv, cursor, next, page.Keys);
    var a, b := AllBeyond(inv, cursor), AllBeyond(inv, next);
    assert a == b + page.Keys && b !! page.Keys;
    assert |a| == |b| + |page.Keys|;
  }

  lemma AllListed(inv: Inventories, cursor: Cursors, all: map<ChunkId, set<WorkerId>>)
    requires PageOk(inv, map[], cursor, all) && AllBeyond(inv, cursor) == {}
    ensures all.Keys == Universe(inv) && forall k | k in all :: all[k] == Owners(inv, k)
  {
    StartBeyond(inv);
    BeyondShrinks(inv, map[], cursor, all.Keys);
    hide AllBeyond;
    hide Beyond;
    hide HoldersOf;
  }
}
