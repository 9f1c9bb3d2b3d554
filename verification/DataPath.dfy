/**
 The client data path over byte contents: range reads, windowed copy-up writes
 and truncation behave like the same operations on one byte array.
 */
module DataPath {
  import opened Types
  import opened Admission
  import opened Extents

  /** Chunk contents by address, and the contents of pinned backing objects by key. */
  datatype Backing = Backing(chunks: map<ChunkId, seq<byte>>, objects: map<string, seq<byte>>)

  function ByteOf(s: Source, b: Backing): byte {
    match s
    case Hole => 0
    case FromChunk(c, i) => if c in b.chunks && i < |b.chunks[c]| then b.chunks[c][i] else 0
    case FromObject(k, i) => if k in b.objects && i < |b.objects[k]| then b.objects[k][i] else 0
  }

  /** The bytes a file with these extents and this size shows to its readers. */
  function Image(es: seq<Extent>, size: nat, b: Backing): (r: seq<byte>)
    ensures |r| == size
  {
    seq(size, p requires 0 <= p => ByteOf(At(es, p), b))
  }

  predicate Readable(e: Extent, b: Backing) {
    match e
    case Local(_, len, chunk) => chunk in b.chunks && |b.chunks[chunk]| == len
    case UfsRange(_, len, key, _, objectOffset) => key in b.objects && objectOffset + len <= |b.objects[key]|
  }

  /** A chunk covers (part of) exactly one window. */
  predicate Windowed(e: Extent) {
    e.Local? ==> e.offset % CHUNK_SIZE == 0 && e.len <= CHUNK_SIZE
  }

  predicate ExtentOk(e: Extent, size: nat, b: Backing) {
    e.len > 0 && e.End() <= size && Windowed(e) && Readable(e, b)
  }

  predicate ExtentsOk(es: seq<Extent>, size: nat, b: Backing) {
    Sorted(es) && forall k | 0 <= k < |es| :: ExtentOk(es[k], size, b)
  }

  // ----------------------------------------------------------------- reads

  function Max(a: nat, b: nat): nat { if a < b then b else a }

  function Min(a: nat, b: nat): nat { if a < b then a else b }

  /** The bytes of the extent up to `to` are there: the whole chunk, or enough of the object. */
  predicate Supplies(e: Extent, to: nat, b: Backing)
    requires e.offset <= to
  {
    match e
    case Local(_, len, chunk) => chunk in b.chunks && |b.chunks[chunk]| == len
    case UfsRange(offset, _, key, _, objectOffset) =>
      key in b.objects && objectOffset + (to - offset) <= |b.objects[key]|
  }

  /** The bytes of one extent between two positions it covers. */
  function Fetch(e: Extent, from: nat, to: nat, b: Backing): (r: Result<seq<byte>>)
    requires e.offset <= from < to <= e.End()
    ensures r.Ok? <==> Supplies(e, to, b)
    ensures r.Err? ==> r.error == if e.Local? && e.chunk !in b.chunks then NotFound else Io
    ensures r.Ok? ==> |r.value| == to - from
    ensures r.Ok? ==> forall i | 0 <= i < to - from :: r.value[i] == ByteOf(SourceIn(e, from + i), b)
  {
    match e
    case Local(offset, len, chunk) =>
      if chunk !in b.chunks then Err(NotFound)
      else if |b.chunks[chunk]| != len then Err(Io)
      else Ok(b.chunks[chunk][from - offset..to - offset])
    case UfsRange(offset, _, key, _, objectOffset) =>
      if key !in b.objects || |b.objects[key]| < objectOffset + (to - offset) then Err(Io)
      else Ok(b.objects[key][objectOffset + (from - offset)..objectOffset + (to - offset)])
  }

  /** All of the extent's bytes can be had. */
  predicate ReadableSupplies(e: Extent, b: Backing) {
    forall to: nat | e.offset <= to <= e.End() :: Supplies(e, to, b)
  }

  predicate Touches(e: Extent, from: nat, to: nat) {
    Max(e.offset, from) < Min(e.End(), to)
  }

  /** The buffer of a read from `offset` shows what the extents say. */
  ghost predicate Shows(buf: seq<byte>, es: seq<Extent>, offset: nat, b: Backing) {
    forall p | 0 <= p < |buf| :: buf[p] == ByteOf(At(es, offset + p), b)
  }

  /** Copying what an extent covers of the range makes the buffer show it too. */
  lemma CopyExtent(es: seq<Extent>, k: nat, offset: nat, before: seq<byte>, after: seq<byte>, data: seq<byte>,
                   b: Backing)
    requires Sorted(es) && k < |es| && |after| == |before| && Shows(before, es[..k], offset, b)
    requires var from, to := Max(offset, es[k].offset), Min(offset + |before|, es[k].End());
             if from < to
             then && |data| == to - from
                  && (forall i | 0 <= i < |data| :: data[i] == ByteOf(SourceIn(es[k], from + i), b))
                  && (forall p | 0 <= p < |after| ::
                        after[p] == if from <= offset + p < to then data[offset + p - from] else before[p])
             else after == before
    ensures Shows(after, es[..k+1], offset, b)
  {
    forall p | 0 <= p < |after| ensures after[p] == ByteOf(At(es[..k+1], offset + p), b) {
      NextExtent(es, k, offset + p);
    }
  }

  /** A range read shows the slice of the file's bytes, whatever the mix of extents. */
  method ReadRange(es: seq<Extent>, size: nat, hasManifest: bool, offset: nat, len: nat, b: Backing)
    returns (r: Result<seq<byte>>)
    requires Sorted(es)
    ensures r.Ok? <==>
              || len == 0 || offset >= size || !hasManifest
              || forall k | 0 <= k < |es| && Touches(es[k], offset, Min(offset + len, size)) ::
                   Supplies(es[k], Min(es[k].End(), Min(offset + len, size)), b)
    ensures r.Err? ==> r.error == NotFound || r.error == Io
    ensures r.Ok? ==>
              r.value == if len == 0 || offset >= size || !hasManifest then []
                         else Image(es, size, b)[offset..Min(offset + len, size)]
  {
    hide ByteOf;
    hide Supplies;
    hide Fetch;
    if len == 0 || offset >= size || !hasManifest {
      return Ok([]);
    }
    var end := Min(offset + len, size);
    var output := new byte[end - offset](_ => 0);
    HolesFirst(output[..], offset, b);
    assert es[..0] == [];
    var k := 0;
    while k < |es|
      invariant 0 <= k <= |es| && Shows(output[..], es[..k], offset, b)
      invariant forall j | 0 <= j < k && Touches(es[j], offset, end) :: Supplies(es[j], Min(es[j].End(), end), b)
    {
      var e := es[k];
      var from, to := Max(offset, e.offset), Min(end, e.End());
      ghost var before := output[..];
      if from < to {
        var data := Fetch(e, from, to, b);
        if data.Err? {
          assert Touches(es[k], offset, end);
          return Err(data.error);
        }
        CopyInto(output, from - offset, data.value);
        CopyExtent(es, k, offset, before, output[..], data.value, b);
      } else {
        CopyExtent(es, k, offset, before, output[..], [], b);
      }
      k := k + 1;
    }
    assert es[..k] == es;
    assert output[..] == Image(es, size, b)[offset..end];
    r := Ok(output[..]);
  }

  lemma HolesFirst(buf: seq<byte>, offset: nat, b: Backing)
    requires forall p | 0 <= p < |buf| :: buf[p] == 0
    ensures Shows(buf, [], offset, b)
  {
  }

  method CopyInto(output: array<byte>, at: nat, data: seq<byte>)
    requires at + |data| <= output.Length
    modifies output
    ensures forall p | 0 <= p < output.Length ::
              output[..][p] == if at <= p < at + |data| then data[p - at] else old(output[..])[p]
  {
    forall i | at <= i < at + |data| {
      output[i] := data[i - at];
    }
  }

  /** The next extent decides exactly the positions it covers. */
  lemma NextExtent(es: seq<Extent>, k: nat, p: nat)
    requires Sorted(es) && k < |es|
    ensures At(es[..k+1], p) == if Covers(es[k], p) then SourceIn(es[k], p) else At(es[..k], p)
  {
    assert es[..k+1] == es[..k] + [es[k]];
    AtJoin(es[..k], [es[k]], p);
    if Covers(es[k], p) { AtOutside(es[..k], p); }
  }

  // ------------------------------------------------------ the array model

  /** Writing into a byte array, growing it with zeros. */
  function Overlay(was: seq<byte>, offset: nat, data: seq<byte>): (r: seq<byte>)
    ensures |r| == Max(|was|, offset + |data|)
  {
    seq(Max(|was|, offset + |data|),
        p requires 0 <= p =>
          if offset <= p < offset + |data| then data[p - offset] else if p < |was| then was[p] else 0)
  }

  /** Cutting a byte array, or growing it with zeros. */
  function Resize(was: seq<byte>, size: nat): (r: seq<byte>)
    ensures |r| == size
  {
    seq(size, p requires 0 <= p => if p < |was| then was[p] else 0)
  }

  // ---------------------------------------------------------------- writes

  ghost predicate Injective(hash: seq<byte> -> ChunkId) {
    forall x, y :: hash(x) == hash(y) ==> x == y
  }

  /** Chunks are stored under the hash of their contents. */
  ghost predicate Addressed(hash: seq<byte> -> ChunkId, chunks: map<ChunkId, seq<byte>>) {
    forall c | c in chunks :: hash(chunks[c]) == c
  }

  /** Every chunk already stored keeps its contents. */
  ghost predicate Extends(b: Backing, b': Backing) {
    b'.objects == b.objects && forall c | c in b.chunks :: c in b'.chunks && b'.chunks[c] == b.chunks[c]
  }

  lemma StageKeeps(hash: seq<byte> -> ChunkId, b: Backing, bytes: seq<byte>)
    requires Injective(hash) && Addressed(hash, b.chunks)
    ensures var b' := b.(chunks := b.chunks[hash(bytes) := bytes]);
            Extends(b, b') && Addressed(hash, b'.chunks)
  {
  }

  lemma ExtendsOk(es: seq<Extent>, size: nat, b: Backing, b': Backing)
    requires ExtentsOk(es, size, b) && Extends(b, b')
    ensures ExtentsOk(es, size, b')
    ensures forall p: nat :: ByteOf(At(es, p), b') == ByteOf(At(es, p), b)
  {
    forall p: nat ensures ByteOf(At(es, p), b') == ByteOf(At(es, p), b) { SameByte(es, size, b, b', p); }
  }

  lemma {:induction false} SameByte(es: seq<Extent>, size: nat, b: Backing, b': Backing, p: nat)
    requires ExtentsOk(es, size, b) && Extends(b, b')
    ensures ByteOf(At(es, p), b') == ByteOf(At(es, p), b)
  {
    if es != [] {
      assert ExtentOk(es[0], size, b);
      if !Covers(es[0], p) { SameByte(es[1..], size, b, b', p); }
    }
  }

  /** No window of the new size cuts into a chunk of the file. */
  lemma NoWindowCuts(es: seq<Extent>, size: nat, b: Backing, i: nat)
    requires ExtentsOk(es, size, b) && i * CHUNK_SIZE < size
    ensures !CutsLocal(es, i * CHUNK_SIZE, Min(i * CHUNK_SIZE + CHUNK_SIZE, size))
  {
    forall k | 0 <= k < |es| ensures !LocalCut(es[k], i * CHUNK_SIZE, Min(i * CHUNK_SIZE + CHUNK_SIZE, size)) {
      assert ExtentOk(es[k], size, b);
      var e := es[k];
      if e.Local? {
        var j := e.offset / CHUNK_SIZE;
        assert e.offset == j * CHUNK_SIZE;
        assert j < i ==> (j + 1) * CHUNK_SIZE <= i * CHUNK_SIZE;
        assert i < j ==> (i + 1) * CHUNK_SIZE <= j * CHUNK_SIZE;
      }
    }
  }

  lemma PieceOk(e: Extent, es: seq<Extent>, size: nat, b: Backing)
    requires ExtentsOk(es, size, b) && PieceOf(e, es) && e.len > 0
    ensures ExtentOk(e, size, b)
  {
    var k :| 0 <= k < |es| && Piece(e, es[k]);
    assert ExtentOk(es[k], size, b);
  }

  /** Putting one window in place of whatever was there. */
  lemma WindowReplaced(es: seq<Extent>, es': seq<Extent>, size: nat, b: Backing, b': Backing, e: Extent)
    requires ExtentsOk(es, size, b) && Extends(b, b') && ExtentOk(e, size, b') && Replaced(es, e, es')
    ensures ExtentsOk(es', size, b')
    ensures forall p: nat :: ByteOf(At(es', p), b') == if Covers(e, p) then ByteOf(SourceIn(e, p), b')
            else ByteOf(At(es, p), b)
  {
    ExtendsOk(es, size, b, b');
    forall k | 0 <= k < |es'| ensures ExtentOk(es'[k], size, b') {
      if es'[k] != e { PieceOk(es'[k], es, size, b'); }
    }
  }

  /** What the windows before `i` make of the file. */
  ghost predicate WindowsDone(es: seq<Extent>, b: Backing, size: nat, was: seq<byte>, want: seq<byte>, first: nat,
                              i: nat) {
    && ExtentsOk(es, size, b) && |want| == size
    && forall p: nat | p < size ::
         ByteOf(At(es, p), b) == if first * CHUNK_SIZE <= p < i * CHUNK_SIZE then want[p]
                                 else if p < |was| then was[p] else 0
  }

  /** A file's head as the data path reads it: its record, its manifest and their agreement. */
  ghost predicate HeadOk(cur: Inode, base: Option<Manifest>, b: Backing) {
    && (base.None? ==> cur.size == 0)
    && (base.Some? ==> base.value.inode == cur.id && base.value.size == cur.size
                       && ExtentsOk(base.value.extents, cur.size, b))
  }

  function ExtentsOf(base: Option<Manifest>): seq<Extent> {
    if base.Some? then base.value.extents else []
  }

  function Shown(cur: Inode, base: Option<Manifest>, b: Backing): seq<byte> {
    Image(ExtentsOf(base), cur.size, b)
  }

  lemma FirstWindow(es: seq<Extent>, b: Backing, size: nat, size': nat, want: seq<byte>, first: nat)
    requires ExtentsOk(es, size, b) && size <= size' == |want|
    ensures WindowsDone(es, b, size', Image(es, size, b), want, first, first)
  {
    forall p: nat | size <= p ensures At(es, p) == Hole { AtOutside(es, p); }
    forall k | 0 <= k < |es| ensures ExtentOk(es[k], size', b) { assert ExtentOk(es[k], size, b); }
  }

  lemma NextWindow(es: seq<Extent>, es': seq<Extent>, b: Backing, b': Backing, size: nat, was: seq<byte>,
                   want: seq<byte>,
                   first: nat, i: nat, e: Extent)
    requires WindowsDone(es, b, size, was, want, first, i) && first <= i && i * CHUNK_SIZE < size
    requires Extends(b, b') && ExtentOk(e, size, b') && Replaced(es, e, es')
    requires e.Local? && e.offset == i * CHUNK_SIZE && e.End() == Min((i + 1) * CHUNK_SIZE, size)
    requires b'.chunks[e.chunk] == want[e.offset..e.End()]
    ensures WindowsDone(es', b', size, was, want, first, i + 1)
  {
    WindowReplaced(es, es', size, b, b', e);
    forall p: nat | p < size
      ensures ByteOf(At(es', p), b') == if first * CHUNK_SIZE <= p < (i + 1) * CHUNK_SIZE then want[p]
                                        else if p < |was| then was[p] else 0
    {
      if Covers(e, p) {
        assert b'.chunks[e.chunk][p - e.offset] == want[p];
      }
    }
  }

  /** Bytes outside the written windows are the ones the array model leaves alone. */
  lemma LastWindow(es: seq<Extent>, b: Backing, was: seq<byte>, offset: nat, data: seq<byte>, first: nat, last: nat)
    requires data != [] && first == offset / CHUNK_SIZE && last == (offset + |data| - 1) / CHUNK_SIZE
    requires WindowsDone(es, b, Max(|was|, offset + |data|), was, Overlay(was, offset, data), first, last + 1)
    ensures Image(es, Max(|was|, offset + |data|), b) == Overlay(was, offset, data)
  {
    var want := Overlay(was, offset, data);
    forall p: nat | p < |want| ensures ByteOf(At(es, p), b) == want[p] {
      assert first * CHUNK_SIZE <= offset && offset + |data| <= (last + 1) * CHUNK_SIZE;
    }
  }

  /** Chunks of a manifest are chunks it had before or has just staged; its ranges are pieces of ranges it had. */
  ghost predicate ChunksFrom(es: seq<Extent>, base: seq<Extent>, staged: map<ChunkId, seq<byte>>) {
    && (forall k | 0 <= k < |es| && es[k].Local? ::
          es[k].chunk in staged || exists j | 0 <= j < |base| :: base[j].Local? && base[j].chunk == es[k].chunk)
    && (forall k | 0 <= k < |es| && es[k].UfsRange? :: PieceOf(es[k], base))
  }

  lemma ChunksReplaced(es: seq<Extent>, es': seq<Extent>, base: seq<Extent>, staged: map<ChunkId, seq<byte>>,
                       e: Extent, bytes: seq<byte>)
    requires ChunksFrom(es, base, staged) && Replaced(es, e, es') && e.Local?
    ensures ChunksFrom(es', base, staged[e.chunk := bytes])
  {
    forall k | 0 <= k < |es'| && es'[k].Local? && es'[k] != e
      ensures es'[k].chunk in staged || exists j | 0 <= j < |base| :: base[j].Local? && base[j].chunk == es'[k].chunk
    {
      assert PieceOf(es'[k], es);
      var i :| 0 <= i < |es| && Piece(es'[k], es[i]);
      assert es[i].Local? && es[i].chunk == es'[k].chunk;
    }
    forall k | 0 <= k < |es'| && es'[k].UfsRange? ensures PieceOf(es'[k], base) {
      var i :| 0 <= i < |es| && Piece(es'[k], es[i]);
      assert PieceOf(es[i], base);
      var j :| 0 <= j < |base| && Piece(es[i], base[j]);
      assert Piece(es'[k], base[j]);
    }
  }

  /** What a data operation hands to the commit. */
  datatype Change =
    | Unchanged
    | Change(next: Inode, m: Manifest, staged: map<ChunkId, seq<byte>>)

  /** The backing once the staged chunks are put. */
  function Put(b: Backing, staged: map<ChunkId, seq<byte>>): Backing {
    b.(chunks := b.chunks + staged)
  }

  /** The record after a data operation. */
  function NextRecord(cur: Inode, size: nat, now: int): Inode
    requires cur.fields.Some?
  {
    var f := Mutated(cur.fields.value);
    cur.(size := size, headGen := cur.headGen + 1, generation := cur.generation + 1, fields := Some(f),
         locality := DeriveLabel(f, cur.headGen + 1, cur.ufsGen), times := cur.times.(mtime := now, ctime := now))
  }

  /** What a data operation makes of a record: owner, mode, links and pinned object stay; a new head, dirtied now. */
  predicate Advanced(cur: Inode, next: Inode, size: nat, now: int) {
    && next.id == cur.id && next.fileType == cur.fileType && next.mode == cur.mode && next.uid == cur.uid
    && next.gid == cur.gid && next.linkCount == cur.linkCount && next.symlinkTarget == cur.symlinkTarget
    && next.ufs == cur.ufs && next.ufsGen == cur.ufsGen && next.ufsBaseVersion == cur.ufsBaseVersion
    && next.flushIntent == cur.flushIntent && next.lastError == cur.lastError
    && next.size == size && next.headGen == cur.headGen + 1 && next.generation == cur.generation + 1
    && next.times.mtime == now && next.times.ctime == now && next.times.atime == cur.times.atime
    && cur.fields.Some? && next.fields.Some?
    && next.fields.value.backing == cur.fields.value.backing && next.fields.value.origin == cur.fields.value.origin
    && next.fields.value.opState == Idle
    && if cur.fields.value.backing == UfsBacked then next.fields.value.dataState == Dirty && next.locality == LabelDirty
       else next.fields.value.dataState == Ephemeral && next.locality == LabelEphemeral
  }

  lemma NextAdvances(cur: Inode, size: nat, now: int)
    requires cur.fields.Some?
    ensures Advanced(cur, NextRecord(cur, size, now), size, now)
  {
  }

  /** `c` is a committable change after which the file shows `want`. */
  ghost predicate ChangesTo(hash: seq<byte> -> ChunkId, cur: Inode, base: Option<Manifest>, b: Backing,
                            c: Change, want: seq<byte>)
  {
    && c.Change? && DataCommit(cur, c.next, c.m)
    && (var b' := Put(b, c.staged);
        && Extends(b, b') && Addressed(hash, b'.chunks)
        && HeadOk(c.next, Some(c.m), b') && Shown(c.next, Some(c.m), b') == want)
    && ChunksFrom(c.m.extents, ExtentsOf(base), c.staged)
  }

  /** One window: the bytes kept from before, zero-extended, with the data laid over them. */
  function Assemble(kept: seq<byte>, offset: nat, data: seq<byte>, from: nat, to: nat): (r: seq<byte>)
    requires |kept| <= to - from && offset < to && from < offset + |data|
    ensures |r| == to - from
  {
    var padded := kept + seq(to - from - |kept|, _ => 0);
    var lo, hi := Max(offset, from), Min(offset + |data|, to);
    padded[..lo - from] + data[lo - offset..hi - offset] + padded[hi - from..]
  }

  lemma AssembleAt(kept: seq<byte>, offset: nat, data: seq<byte>, from: nat, to: nat, p: nat)
    requires |kept| <= to - from && offset < to && from < offset + |data| && from <= p < to
    ensures Assemble(kept, offset, data, from, to)[p - from] ==
            if offset <= p < offset + |data| then data[p - offset]
            else if p - from < |kept| then kept[p - from] else 0
  {
    var padded := kept + seq(to - from - |kept|, _ => 0);
    var lo, hi := Max(offset, from), Min(offset + |data|, to);
    var a, d, c := padded[..lo - from], data[lo - offset..hi - offset], padded[hi - from..];
    if p < lo {
      assert (a + d + c)[p - from] == a[p - from];
    } else if p < hi {
      assert (a + d + c)[p - from] == d[p - lo];
    } else {
      assert (a + d + c)[p - from] == c[p - hi];
    }
  }

  lemma AssembleIsOverlay(was: seq<byte>, offset: nat, data: seq<byte>, from: nat, to: nat)
    requires offset < to && from < offset + |data| && from < to <= Max(|was|, offset + |data|)
    ensures var kept := if from < |was| then was[from..Min(to, |was|)] else [];
            Assemble(kept, offset, data, from, to) == Overlay(was, offset, data)[from..to]
  {
    hide Assemble;
    var kept := if from < |was| then was[from..Min(to, |was|)] else [];
    var r, want := Assemble(kept, offset, data, from, to), Overlay(was, offset, data);
    forall i | 0 <= i < to - from ensures r[i] == want[from..to][i] {
      AssembleAt(kept, offset, data, from, to, from + i);
    }
    assert r == want[from..to];
  }

  /** Read the window's old bytes and lay the data over them. */
  method BuildWindow(es: seq<Extent>, size: nat, b: Backing, offset: nat, data: seq<byte>, from: nat, to: nat)
    returns (bytes: seq<byte>)
    requires ExtentsOk(es, size, b) && from < to <= Max(size, offset + |data|)
    requires offset < to && from < offset + |data|
    ensures bytes == Overlay(Image(es, size, b), offset, data)[from..to]
  {
    hide Overlay;
    hide Assemble;
    hide Image;
    var kept: seq<byte> := [];
    if from < size {
      forall k | 0 <= k < |es| ensures ReadableSupplies(es[k], b) { assert ExtentOk(es[k], size, b); }
      var r := ReadRange(es, size, true, from, Min(to, size) - from, b);
      kept := r.value;
    }
    AssembleIsOverlay(Image(es, size, b), offset, data, from, to);
    bytes := Assemble(kept, offset, data, from, to);
  }

  /** What the loop of a write keeps: the windows before `i` are done. */
  ghost predicate WriteLoop(hash: seq<byte> -> ChunkId, es0: seq<Extent>, b: Backing, es: seq<Extent>,
                            staged: map<ChunkId, seq<byte>>, size: nat, was: seq<byte>, want: seq<byte>,
                            first: nat, i: nat)
  {
    && WindowsDone(es, Put(b, staged), size, was, want, first, i)
    && Extends(b, Put(b, staged)) && Addressed(hash, Put(b, staged).chunks)
    && ChunksFrom(es, es0, staged)
  }

  lemma ExtendsTrans(b: Backing, b': Backing, b'': Backing)
    requires Extends(b, b') && Extends(b', b'')
    ensures Extends(b, b'')
  {
  }

  lemma ReadyToReplace(hash: seq<byte> -> ChunkId, es0: seq<Extent>, b: Backing, es: seq<Extent>,
                       staged: map<ChunkId, seq<byte>>, size: nat, was: seq<byte>, want: seq<byte>, first: nat, i: nat)
    requires WriteLoop(hash, es0, b, es, staged, size, was, want, first, i) && i * CHUNK_SIZE < size
    ensures Sorted(es) && AllPositive(es)
    ensures !CutsLocal(es, i * CHUNK_SIZE, Min(i * CHUNK_SIZE + CHUNK_SIZE, size))
  {
    NoWindowCuts(es, size, Put(b, staged), i);
    SortedPositive(es, size, Put(b, staged));
  }

  /** Staging the window's bytes and pointing the range at them completes the window. */
  lemma WindowStep(hash: seq<byte> -> ChunkId, es0: seq<Extent>, b: Backing, es: seq<Extent>, es': seq<Extent>,
                   staged: map<ChunkId, seq<byte>>, size: nat, was: seq<byte>, want: seq<byte>, first: nat, i: nat,
                   bytes: seq<byte>)
    requires Injective(hash) && WriteLoop(hash, es0, b, es, staged, size, was, want, first, i)
    requires first <= i && i * CHUNK_SIZE < size == |want|
    requires bytes == want[i * CHUNK_SIZE..Min(i * CHUNK_SIZE + CHUNK_SIZE, size)]
    requires Replaced(es, Local(i * CHUNK_SIZE, |bytes|, hash(bytes)), es')
    ensures WriteLoop(hash, es0, b, es', staged[hash(bytes) := bytes], size, was, want, first, i + 1)
  {
    hide Extends;
    hide Addressed;
    hide Injective;
    hide WindowsDone;
    hide Replaced;
    hide ChunksFrom;
    var e := Local(i * CHUNK_SIZE, |bytes|, hash(bytes));
    var staged' := staged[hash(bytes) := bytes];
    var b1, b2 := Put(b, staged), Put(b, staged');
    assert b2 == b1.(chunks := b1.chunks[hash(bytes) := bytes]);
    StageKeeps(hash, b1, bytes);
    ExtendsTrans(b, b1, b2);
    NextWindow(es, es', b1, b2, size, was, want, first, i, e);
    ChunksReplaced(es, es', es0, staged, e, bytes);
  }

  /** Copy up one window. */
  method WriteWindow(hash: seq<byte> -> ChunkId, es0: seq<Extent>, was: nat, b: Backing, offset: nat, data: seq<byte>,
                     es: seq<Extent>, staged: map<ChunkId, seq<byte>>, i: nat, ghost first: nat)
    returns (es': seq<Extent>, staged': map<ChunkId, seq<byte>>)
    requires Injective(hash) && ExtentsOk(es0, was, b) && first <= i && data != []
    requires offset < (i + 1) * CHUNK_SIZE && i * CHUNK_SIZE < offset + |data|
    requires var shown := Image(es0, was, b);
             WriteLoop(hash, es0, b, es, staged, Max(was, offset + |data|), shown, Overlay(shown, offset, data),
                       first, i)
    ensures var shown := Image(es0, was, b);
            WriteLoop(hash, es0, b, es', staged', Max(was, offset + |data|), shown, Overlay(shown, offset, data),
                      first, i + 1)
  {
    hide WriteLoop;
    hide Injective;
    hide ExtentsOk;
    hide Image;
    hide Overlay;
    hide Replaced;
    hide CutsLocal;
    var size := Max(was, offset + |data|);
    var from := i * CHUNK_SIZE;
    var to := Min(from + CHUNK_SIZE, size);
    ghost var shown := Image(es0, was, b);
    ghost var want := Overlay(shown, offset, data);
    var bytes := BuildWindow(es0, was, b, offset, data, from, to);
    ReadyToReplace(hash, es0, b, es, staged, size, shown, want, first, i);
    var replaced := ReplaceRange(es, Local(from, to - from, hash(bytes)));
    es', staged' := replaced.value, staged[hash(bytes) := bytes];
    WindowStep(hash, es0, b, es, es', staged, size, shown, want, first, i, bytes);
  }

  lemma SortedPositive(es: seq<Extent>, size: nat, b: Backing)
    requires ExtentsOk(es, size, b)
    ensures Sorted(es) && AllPositive(es)
  {
    forall k | 0 <= k < |es| ensures es[k].len > 0 { assert ExtentOk(es[k], size, b); }
  }

  lemma WriteDone(hash: seq<byte> -> ChunkId, cur: Inode, base: Option<Manifest>, b: Backing, offset: nat,
                  data: seq<byte>,
                  es: seq<Extent>, staged: map<ChunkId, seq<byte>>, first: nat, last: nat, now: int)
    requires cur.fields.Some? && cur.fileType == Regular && !cur.fields.value.dataState.DirtyConflict? && data != []
    requires first == offset / CHUNK_SIZE && last == (offset + |data| - 1) / CHUNK_SIZE
    requires var was := Shown(cur, base, b);
             WriteLoop(hash, ExtentsOf(base), b, es, staged, Max(cur.size, offset + |data|), was,
                       Overlay(was, offset, data), first, last + 1)
    ensures var size := Max(cur.size, offset + |data|);
            ChangesTo(hash, cur, base, b,
                      Change(NextRecord(cur, size, now), Manifest(cur.id, cur.headGen + 1, size, es), staged),
                      Overlay(Shown(cur, base, b), offset, data))
  {
    hide Overlay;
    hide Image;
    hide Extends;
    hide Addressed;
    hide ChunksFrom;
    LastWindow(es, Put(b, staged), Shown(cur, base, b), offset, data, first, last);
  }

  lemma WriteStart(hash: seq<byte> -> ChunkId, cur: Inode, base: Option<Manifest>, b: Backing, size: nat,
                   want: seq<byte>, first: nat)
    requires Addressed(hash, b.chunks) && HeadOk(cur, base, b) && cur.size <= size == |want|
    ensures ExtentsOk(ExtentsOf(base), cur.size, b)
    ensures WriteLoop(hash, ExtentsOf(base), b, ExtentsOf(base), map[], size, Shown(cur, base, b), want, first, first)
  {
    FirstWindow(ExtentsOf(base), b, cur.size, size, want, first);
    assert Put(b, map[]) == b;
    hide WindowsDone;
    hide ExtentsOk;
    hide Image;
  }

  /** Copy up every window the range touches. */
  method WriteWindows(hash: seq<byte> -> ChunkId, es0: seq<Extent>, was: nat, b: Backing, offset: nat, data: seq<byte>)
    returns (es: seq<Extent>, staged: map<ChunkId, seq<byte>>)
    requires Injective(hash) && ExtentsOk(es0, was, b) && data != []
    requires var shown := Image(es0, was, b);
             WriteLoop(hash, es0, b, es0, map[], Max(was, offset + |data|), shown, Overlay(shown, offset, data),
                       offset / CHUNK_SIZE, offset / CHUNK_SIZE)
    ensures var shown := Image(es0, was, b);
            WriteLoop(hash, es0, b, es, staged, Max(was, offset + |data|), shown, Overlay(shown, offset, data),
                      offset / CHUNK_SIZE, (offset + |data| - 1) / CHUNK_SIZE + 1)
  {
    hide WriteLoop;
    hide Overlay;
    hide Image;
    hide ExtentsOk;
    hide Injective;
    var first, last := offset / CHUNK_SIZE, (offset + |data| - 1) / CHUNK_SIZE;
    es, staged := es0, map[];
    var i := first;
    while i <= last
      invariant first <= i <= last + 1
      invariant WriteLoop(hash, es0, b, es, staged, Max(was, offset + |data|), Image(es0, was, b),
                          Overlay(Image(es0, was, b), offset, data), first, i)
    {
      es, staged := WriteWindow(hash, es0, was, b, offset, data, es, staged, i, first);
      i := i + 1;
    }
  }

  /** `write_at`: copy up every touched window and switch to a manifest that shows the written bytes. */
  method WriteAt(hash: seq<byte> -> ChunkId, cur: Inode, base: Option<Manifest>, b: Backing, offset: nat,
                 data: seq<byte>, now: int) returns (r: Result<Change>)
    requires Injective(hash) && Addressed(hash, b.chunks) && HeadOk(cur, base, b) && cur.fields.Some?
    ensures r.Ok? <==> data == [] || (cur.fileType == Regular && !cur.fields.value.dataState.DirtyConflict?)
    ensures r.Err? ==> r.error == if cur.fileType != Regular then IsDirectory else DirtyConflictError
    ensures r.Ok? ==> if data == [] then r.value == Unchanged
                      else ChangesTo(hash, cur, base, b, r.value, Overlay(Shown(cur, base, b), offset, data))
    ensures r.Ok? && data != [] ==> Advanced(cur, r.value.next, Max(cur.size, offset + |data|), now)
  {
    hide Advanced;
    hide ChangesTo;
    hide WriteLoop;
    hide Overlay;
    hide Image;
    hide HeadOk;
    hide ExtentsOk;
    hide Addressed;
    hide Injective;
    if data == [] {
      return Ok(Unchanged);
    }
    if cur.fileType != Regular {
      return Err(IsDirectory);
    }
    if cur.fields.value.dataState.DirtyConflict? {
      return Err(DirtyConflictError);
    }
    var size := Max(cur.size, offset + |data|);
    WriteStart(hash, cur, base, b, size, Overlay(Shown(cur, base, b), offset, data), offset / CHUNK_SIZE);
    var es, staged := WriteWindows(hash, ExtentsOf(base), cur.size, b, offset, data);
    WriteDone(hash, cur, base, b, offset, data, es, staged, offset / CHUNK_SIZE,
              (offset + |data| - 1) / CHUNK_SIZE, now);
    NextAdvances(cur, size, now);
    r := Ok(Change(NextRecord(cur, size, now), Manifest(cur.id, cur.headGen + 1, size, es), staged));
  }

  // -------------------------------------------------------------- truncate

  /** What truncation has kept after looking at the extents `es`. */
  ghost predicate Kept(es: seq<Extent>, size: nat, b: Backing, out: seq<Extent>, b': Backing) {
    && ExtentsOk(out, size, b') && Extends(b, b')
    && (forall i | 0 <= i < |out| && es != [] :: out[i].End() <= es[|es|-1].End())
    && (es == [] ==> out == [])
    && forall p: nat | p < size :: ByteOf(At(out, p), b') == ByteOf(At(es, p), b)
  }

  /** An extent as truncation keeps it. */
  predicate Shortened(e: Extent, e': Extent, size: nat, b: Backing, b': Backing) {
    && e'.offset == e.offset < size && e'.len == Min(e.len, size - e.offset)
    && (e.UfsRange? <==> e'.UfsRange?)
    && (e.UfsRange? ==> e' == e.(len := e'.len))
    && (e.Local? ==>
          && e.chunk in b.chunks && e'.chunk in b'.chunks && e'.len <= |b.chunks[e.chunk]|
          && b'.chunks[e'.chunk] == b.chunks[e.chunk][..e'.len])
  }

  lemma ShortenedOk(e: Extent, e': Extent, size: nat, size': nat, b: Backing, b': Backing)
    requires ExtentOk(e, size', b) && b'.objects == b.objects && Shortened(e, e', size, b, b')
    ensures ExtentOk(e', size, b')
    ensures forall p: nat | p < size ::
              && (Covers(e, p) <==> Covers(e', p))
              && (Covers(e, p) ==> ByteOf(SourceIn(e', p), b') == ByteOf(SourceIn(e, p), b))
  {
  }

  lemma KeepNextBytes(es: seq<Extent>, e: Extent, e': Extent, size: nat, b: Backing, out: seq<Extent>,
                      b'': Backing, p: nat)
    requires Sorted(es + [e]) && p < size
    requires ByteOf(At(out, p), b'') == ByteOf(At(es, p), b) && (forall i | 0 <= i < |out| :: out[i].End() <= e.offset)
    requires (Covers(e, p) <==> Covers(e', p))
             && (Covers(e, p) ==> ByteOf(SourceIn(e', p), b'') == ByteOf(SourceIn(e, p), b))
    ensures ByteOf(At(out + [e'], p), b'') == ByteOf(At(es + [e], p), b)
  {
    var all := es + [e];
    AtJoin(out, [e'], p);
    NextExtent(all, |es|, p);
    assert all[..|es|+1] == all && all[..|es|] == es;
    if Covers(e, p) { AtOutside(out, p); }
  }

  lemma KeepNext(es: seq<Extent>, e: Extent, e': Extent, size: nat, size': nat, b: Backing, out: seq<Extent>,
                 b': Backing, b'': Backing)
    requires ExtentsOk(es + [e], size', b) && Kept(es, size, b, out, b') && Extends(b', b'')
    requires Shortened(e, e', size, b, b'')
    ensures Kept(es + [e], size, b, out + [e'], b'')
  {
    var all := es + [e];
    assert all[|es|] == e;
    assert ExtentOk(all[|es|], size', b);
    ExtendsTrans(b, b', b'');
    ShortenedOk(e, e', size, size', b, b'');
    ExtendsOk(out, size, b', b'');
    if es != [] { assert all[|es|-1] == es[|es|-1]; }
    hide Shortened;
    hide ExtentOk;
    hide ByteOf;
    forall p: nat | p < size ensures ByteOf(At(out + [e'], p), b'') == ByteOf(At(all, p), b) {
      KeepNextBytes(es, e, e', size, b, out, b'', p);
    }
  }

  /** Nothing beyond the new size is needed. */
  lemma KeepRest(es: seq<Extent>, k: nat, size: nat, size': nat, b: Backing, out: seq<Extent>, b': Backing)
    requires ExtentsOk(es, size', b) && k <= |es| && (k < |es| ==> size <= es[k].offset)
    requires Kept(es[..k], size, b, out, b')
    ensures Image(out, size, b') == Resize(Image(es, size', b), size)
  {
    hide ByteOf;
    hide ExtentsOk;
    forall p: nat | p < size
      ensures ByteOf(At(out, p), b') == if p < size' then ByteOf(At(es, p), b) else ByteOf(Hole, b)
    {
      RestUncovered(es, k, size, size', b, p);
    }
    assert ByteOf(Hole, b) == 0 by { HoleIsZero(b); }
  }

  lemma HoleIsZero(b: Backing)
    ensures ByteOf(Hole, b) == 0
  {
  }

  /** Below the new size the first extents decide, and beyond the old size there is nothing. */
  lemma RestUncovered(es: seq<Extent>, k: nat, size: nat, size': nat, b: Backing, p: nat)
    requires ExtentsOk(es, size', b) && k <= |es| && (k < |es| ==> size <= es[k].offset) && p < size
    ensures At(es[..k], p) == At(es, p) && (p >= size' ==> At(es, p) == Hole)
  {
    hide Readable;
    AtJoin(es[..k], es[k..], p);
    assert es == es[..k] + es[k..];
    forall i | 0 <= i < |es[k..]| ensures !Covers(es[k..][i], p) {
      assert es[k].offset <= es[k + i].offset;
    }
    AtOutside(es[k..], p);
    if p >= size' {
      forall i | 0 <= i < |es| ensures !Covers(es[i], p) { assert ExtentOk(es[i], size', b); }
      AtOutside(es, p);
    }
  }

  /** What the loop of a truncation keeps. */
  ghost predicate TruncateLoop(hash: seq<byte> -> ChunkId, es0: seq<Extent>, k: nat, size: nat, b: Backing,
                               out: seq<Extent>, staged: map<ChunkId, seq<byte>>)
    requires k <= |es0|
  {
    && Kept(es0[..k], size, b, out, Put(b, staged))
    && Addressed(hash, Put(b, staged).chunks)
    && ChunksFrom(out, es0, staged)
  }

  /** One extent as truncation keeps it; what is left of a chunk that is cut is stored afresh. */
  method Shorten(hash: seq<byte> -> ChunkId, e: Extent, size: nat, b: Backing)
    returns (e': Extent, restaged: Option<seq<byte>>)
    requires Readable(e, b) && e.offset < size
    ensures restaged.None? ==> Shortened(e, e', size, b, b) && (e'.Local? ==> e' == e)
    ensures restaged.Some? ==>
              && e'.Local? && e'.chunk == hash(restaged.value)
              && Shortened(e, e', size, b, b.(chunks := b.chunks[hash(restaged.value) := restaged.value]))
  {
    restaged := None;
    if e.End() <= size {
      e' := e;
      assert e.Local? ==> b.chunks[e.chunk][..e.len] == b.chunks[e.chunk];
      return;
    }
    var keep := size - e.offset;
    match e
    case Local(offset, len, chunk) =>
      var bytes := b.chunks[chunk][..keep];
      e' := Local(offset, keep, hash(bytes));
      restaged := Some(bytes);
    case UfsRange(offset, len, key, version, objectOffset) =>
      e' := UfsRange(offset, keep, key, version, objectOffset);
  }

  lemma ShortenedIn(e: Extent, e': Extent, size: nat, b: Backing, b1: Backing, b2: Backing)
    requires Shortened(e, e', size, b, b1) && Extends(b1, b2)
    ensures Shortened(e, e', size, b, b2)
  {
  }

  lemma ChunksAppend(out: seq<Extent>, es0: seq<Extent>, staged: map<ChunkId, seq<byte>>,
                     staged': map<ChunkId, seq<byte>>,
                     e': Extent, k: nat)
    requires ChunksFrom(out, es0, staged) && staged.Keys <= staged'.Keys && k < |es0|
    requires if e'.Local? then e'.chunk in staged' || e' == es0[k] else Piece(e', es0[k])
    ensures ChunksFrom(out + [e'], es0, staged')
  {
    forall i | 0 <= i < |out + [e']| && (out + [e'])[i].Local?
      ensures (out + [e'])[i].chunk in staged'
              || exists j | 0 <= j < |es0| :: es0[j].Local? && es0[j].chunk == (out + [e'])[i].chunk
    {
      if i < |out| { assert (out + [e'])[i] == out[i]; } else { assert es0[k] == es0[k]; }
    }
    forall i | 0 <= i < |out + [e']| && (out + [e'])[i].UfsRange? ensures PieceOf((out + [e'])[i], es0) {
      if i < |out| { assert (out + [e'])[i] == out[i]; }
    }
  }

  lemma ShortenedPiece(e: Extent, e': Extent, size: nat, b: Backing, b': Backing)
    requires Shortened(e, e', size, b, b')
    ensures e'.UfsRange? ==> Piece(e', e)
  {
  }

  lemma KeptExtends(es: seq<Extent>, size: nat, b: Backing, out: seq<Extent>, b': Backing)
    requires Kept(es, size, b, out, b')
    ensures Extends(b, b')
  {
  }

  /** Staging what is left of a cut chunk. */
  lemma RestagedOk(hash: seq<byte> -> ChunkId, e: Extent, e': Extent, size: nat, b: Backing,
                   staged: map<ChunkId, seq<byte>>, restaged: Option<seq<byte>>)
    requires Injective(hash) && Addressed(hash, Put(b, staged).chunks)
    requires restaged.None? ==> Shortened(e, e', size, b, b) && Extends(b, Put(b, staged))
    requires restaged.Some? ==>
               && e'.Local? && e'.chunk == hash(restaged.value)
               && Shortened(e, e', size, b, b.(chunks := b.chunks[hash(restaged.value) := restaged.value]))
    ensures var staged' := if restaged.Some? then staged[hash(restaged.value) := restaged.value] else staged;
            && Shortened(e, e', size, b, Put(b, staged')) && Extends(Put(b, staged), Put(b, staged'))
            && Addressed(hash, Put(b, staged').chunks)
  {
    if restaged.Some? {
      var staged' := staged[hash(restaged.value) := restaged.value];
      var before := Put(b, staged);
      assert Put(b, staged') == before.(chunks := before.chunks[hash(restaged.value) := restaged.value]);
      StageKeeps(hash, Put(b, staged), restaged.value);
    } else {
      ShortenedIn(e, e', size, b, b, Put(b, staged));
    }
  }

  lemma TruncateStep(hash: seq<byte> -> ChunkId, es0: seq<Extent>, k: nat, size: nat, size': nat, b: Backing,
                     out: seq<Extent>, staged: map<ChunkId, seq<byte>>, e': Extent, restaged: Option<seq<byte>>)
    requires Injective(hash) && k < |es0| && ExtentsOk(es0, size', b)
             && TruncateLoop(hash, es0, k, size, b, out, staged)
    requires restaged.None? ==> Shortened(es0[k], e', size, b, b) && (e'.Local? ==> e' == es0[k])
    requires restaged.Some? ==>
              && e'.Local? && e'.chunk == hash(restaged.value)
              && Shortened(es0[k], e', size, b, b.(chunks := b.chunks[hash(restaged.value) := restaged.value]))
    ensures var staged' := if restaged.Some? then staged[hash(restaged.value) := restaged.value] else staged;
            TruncateLoop(hash, es0, k + 1, size, b, out + [e'], staged')
  {
    hide ExtentsOk;
    hide Kept;
    hide Shortened;
    hide Extends;
    hide Addressed;
    hide Injective;
    hide ChunksFrom;
    var staged' := if restaged.Some? then staged[hash(restaged.value) := restaged.value] else staged;
    var b1, b2 := Put(b, staged), Put(b, staged');
    KeptExtends(es0[..k], size, b, out, b1);
    RestagedOk(hash, es0[k], e', size, b, staged, restaged);
    ShortenedPiece(es0[k], e', size, b, b2);
    ChunksAppend(out, es0, staged, staged', e', k);
    assert es0[..k+1] == es0[..k] + [es0[k]];
    PrefixOk(es0, k + 1, size', b);
    KeepNext(es0[..k], es0[k], e', size, size', b, out, b1, b2);
  }

  lemma PrefixOk(es: seq<Extent>, k: nat, size: nat, b: Backing)
    requires ExtentsOk(es, size, b) && k <= |es|
    ensures ExtentsOk(es[..k], size, b)
  {
  }

  /** `truncate`: keep what lies below the new size, or grow with a hole. */
  method Truncate(hash: seq<byte> -> ChunkId, cur: Inode, base: Option<Manifest>, b: Backing, size: nat, now: int)
    returns (r: Result<Change>)
    requires Injective(hash) && Addressed(hash, b.chunks) && HeadOk(cur, base, b) && cur.fields.Some?
    ensures r.Ok? <==> cur.fileType == Regular && (size == cur.size || !cur.fields.value.dataState.DirtyConflict?)
    ensures r.Err? ==> r.error == if cur.fileType != Regular then IsDirectory else DirtyConflictError
    ensures r.Ok? ==> if size == cur.size then r.value == Unchanged
                      else ChangesTo(hash, cur, base, b, r.value, Resize(Shown(cur, base, b), size))
    ensures r.Ok? && size != cur.size ==> Advanced(cur, r.value.next, size, now)
  {
    hide Advanced;
    hide ChangesTo;
    hide Injective;
    hide TruncateLoop;
    hide Addressed;
    hide HeadOk;
    hide Resize;
    hide Image;
    hide Readable;
    hide Shortened;
    if cur.fileType != Regular {
      return Err(IsDirectory);
    }
    if size == cur.size {
      return Ok(Unchanged);
    }
    if cur.fields.value.dataState.DirtyConflict? {
      return Err(DirtyConflictError);
    }
    var es0 := ExtentsOf(base);
    var out: seq<Extent>, staged: map<ChunkId, seq<byte>> := [], map[];
    TruncateStart(hash, cur, base, size, b);
    var k := 0;
    while k < |es0| && es0[k].offset < size
      invariant 0 <= k <= |es0|
      invariant TruncateLoop(hash, es0, k, size, b, out, staged)
    {
      var e', restaged := Shorten(hash, es0[k], size, b);
      TruncateStep(hash, es0, k, size, cur.size, b, out, staged, e', restaged);
      out := out + [e'];
      staged := if restaged.Some? then staged[hash(restaged.value) := restaged.value] else staged;
      k := k + 1;
    }
    TruncateDone(hash, cur, base, k, size, b, out, staged, now);
    NextAdvances(cur, size, now);
    r := Ok(Change(NextRecord(cur, size, now), Manifest(cur.id, cur.headGen + 1, size, out), staged));
  }

  lemma TruncateStart(hash: seq<byte> -> ChunkId, cur: Inode, base: Option<Manifest>, size: nat, b: Backing)
    requires Addressed(hash, b.chunks) && HeadOk(cur, base, b)
    ensures TruncateLoop(hash, ExtentsOf(base), 0, size, b, [], map[])
    ensures ExtentsOk(ExtentsOf(base), cur.size, b)
    ensures forall k | 0 <= k < |ExtentsOf(base)| :: Readable(ExtentsOf(base)[k], b)
  {
    hide Addressed;
    assert Put(b, map[]) == b;
    assert ExtentsOf(base)[..0] == [];
    forall k | 0 <= k < |ExtentsOf(base)| ensures Readable(ExtentsOf(base)[k], b) {
      assert ExtentOk(ExtentsOf(base)[k], cur.size, b);
    }
  }

  lemma TruncateDone(hash: seq<byte> -> ChunkId, cur: Inode, base: Option<Manifest>, k: nat, size: nat, b: Backing,
                     out: seq<Extent>, staged: map<ChunkId, seq<byte>>, now: int)
    requires HeadOk(cur, base, b) && cur.fields.Some? && cur.fileType == Regular
    requires !cur.fields.value.dataState.DirtyConflict?
    requires k <= |ExtentsOf(base)| && (k < |ExtentsOf(base)| ==> size <= ExtentsOf(base)[k].offset)
    requires TruncateLoop(hash, ExtentsOf(base), k, size, b, out, staged)
    ensures ChangesTo(hash, cur, base, b,
                      Change(NextRecord(cur, size, now), Manifest(cur.id, cur.headGen + 1, size, out), staged),
                      Resize(Shown(cur, base, b), size))
  {
    hide Resize;
    hide Image;
    hide Addressed;
    hide ChunksFrom;
    KeepRest(ExtentsOf(base), k, size, cur.size, b, out, Put(b, staged));
  }

  /** What a write or truncation builds is an extent tree, and passes the server's check of the extent order. */
  lemma ChangeIsTree(hash: seq<byte> -> ChunkId, cur: Inode, base: Option<Manifest>, b: Backing, c: Change,
                     want: seq<byte>)
    requires ChangesTo(hash, cur, base, b, c, want)
    ensures IsTree(c.m.extents)
  {
    SortedIffOrdered(c.m.extents);
    SortedPositive(c.m.extents, c.next.size, Put(b, c.staged));
  }

  // ------------------------------------------------------ sequences of changes

  datatype Op = Write(offset: nat, data: seq<byte>) | SetSize(size: nat)

  /** The same operation on a byte array. */
  function Abstract(bytes: seq<byte>, op: Op): seq<byte> {
    match op
    case Write(offset, data) => if data == [] then bytes else Overlay(bytes, offset, data)
    case SetSize(size) => Resize(bytes, size)
  }

  function AbstractAll(bytes: seq<byte>, ops: seq<Op>): seq<byte> {
    if ops == [] then bytes else Abstract(AbstractAll(bytes, ops[..|ops|-1]), ops[|ops|-1])
  }

  /** An operation that gives the file a new head. */
  predicate Effective(bytes: seq<byte>, op: Op) {
    match op
    case Write(_, data) => data != []
    case SetSize(size) => size != |bytes|
  }

  function Changes(bytes: seq<byte>, ops: seq<Op>): nat {
    if ops == [] then 0
    else
      var n := |ops| - 1;
      Changes(bytes, ops[..n]) + if Effective(AbstractAll(bytes, ops[..n]), ops[n]) then 1 else 0
  }

  /** What any number of data operations leave of a record, and how often it moved on. */
  predicate Moved(cur: Inode, next: Inode, n: nat, now: int) {
    && next.id == cur.id && next.mode == cur.mode && next.uid == cur.uid && next.gid == cur.gid
    && next.linkCount == cur.linkCount && next.ufs == cur.ufs && next.ufsGen == cur.ufsGen
    && next.generation == cur.generation + n && next.headGen == cur.headGen + n
    && next.times.atime == cur.times.atime
    && if n == 0 then next == cur else next.times.mtime == now && next.times.ctime == now
  }

  lemma NotMoved(cur: Inode, now: int)
    ensures Moved(cur, cur, 0, now)
  {
  }

  lemma MovedOn(cur: Inode, mid: Inode, next: Inode, n: nat, size: nat, now: int)
    requires Moved(cur, mid, n, now) && Advanced(mid, next, size, now)
    ensures Moved(cur, next, n + 1, now)
  {
  }

  lemma ResizeSame(bytes: seq<byte>)
    ensures Resize(bytes, |bytes|) == bytes
  {
  }

  lemma ChangeKeepsState(hash: seq<byte> -> ChunkId, cur: Inode, base: Option<Manifest>, b: Backing, c: Change,
                         want: seq<byte>)
    requires ChangesTo(hash, cur, base, b, c, want)
    ensures c.next.fields.Some? && c.next.fileType == Regular && !c.next.fields.value.dataState.DirtyConflict?
  {
  }

  /**
   Any sequence of writes and truncations, each committed before the next, leaves
   a file that shows exactly what the same operations make of a byte array.
   */
  method RunOps(hash: seq<byte> -> ChunkId, cur: Inode, base: Option<Manifest>, b: Backing, ops: seq<Op>, now: int)
    returns (cur': Inode, base': Option<Manifest>, b': Backing)
    requires Injective(hash) && Addressed(hash, b.chunks) && HeadOk(cur, base, b) && cur.fields.Some?
    requires cur.fileType == Regular && !cur.fields.value.dataState.DirtyConflict?
    ensures HeadOk(cur', base', b') && Addressed(hash, b'.chunks)
    ensures Shown(cur', base', b') == AbstractAll(Shown(cur, base, b), ops)
    ensures Moved(cur, cur', Changes(Shown(cur, base, b), ops), now)
  {
    hide Advanced;
    hide Moved;
    hide HeadOk;
    hide Addressed;
    hide Image;
    hide Overlay;
    hide Resize;
    cur', base', b' := cur, base, b;
    assert ops[..0] == [];
    NotMoved(cur, now);
    for k := 0 to |ops|
      invariant HeadOk(cur', base', b') && Addressed(hash, b'.chunks) && cur'.fields.Some?
      invariant cur'.fileType == Regular && !cur'.fields.value.dataState.DirtyConflict?
      invariant Shown(cur', base', b') == AbstractAll(Shown(cur, base, b), ops[..k])
      invariant Moved(cur, cur', Changes(Shown(cur, base, b), ops[..k]), now)
    {
      assert ops[..k+1][..k] == ops[..k];
      var r;
      match ops[k] {
        case Write(offset, data) => r := WriteAt(hash, cur', base', b', offset, data, now);
        case SetSize(size) =>
          r := Truncate(hash, cur', base', b', size, now);
          ResizeSame(Shown(cur', base', b'));
      }
      if r.value.Change? {
        ChangeKeepsState(hash, cur', base', b', r.value, Abstract(Shown(cur', base', b'), ops[k]));
        MovedOn(cur, cur', r.value.next, Changes(Shown(cur, base, b), ops[..k]),
                if ops[k].Write? then Max(cur'.size, ops[k].offset + |ops[k].data|) else ops[k].size, now);
        cur', base', b' := r.value.next, Some(r.value.m), Put(b', r.value.staged);
      }
    }
    assert ops[..|ops|] == ops;
  }
}
