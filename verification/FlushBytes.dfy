/**
 Write-back as readers see it. The commit of a flush leaves the file showing the
 bytes of the snapshot, whatever crashes and retries came before. In between, a
 file that was copied up only in part becomes unreadable once its object is
 replaced; every other file keeps showing the snapshot.
 */
module FlushBytes {
  import opened Types
  import opened MetaTables
  import opened NamespaceOps
  import opened Admission
  import opened FileState
  import opened Fencing
  import opened DataOps
  import opened StateMachine
  import opened Versions
  import opened Runs
  import opened FlushRuns
  import opened Extents
  import opened DataPath

  /** An object of the backing store; its entity tag changes with its contents. */
  datatype Blob = Blob(bytes: seq<byte>, etag: Option<string>)

  /** A read pinned by this record finds the object: its tag is the pinned one, or none is pinned. */
  predicate Matches(blob: Blob, pin: Option<UfsObject>) {
    pin.Some? && (pin.value.etag.None? || blob.etag == pin.value.etag)
  }

  /** The objects a file may read. */
  function Pinned(blobs: map<string, Blob>, pin: Option<UfsObject>): map<string, seq<byte>> {
    map k | k in blobs && Matches(blobs[k], pin) :: blobs[k].bytes
  }

  function BackingOf(i: Inode, chunks: map<ChunkId, seq<byte>>, blobs: map<string, Blob>): Backing {
    Backing(chunks, Pinned(blobs, i.ufs))
  }

  function BaseOf(t: Tables, i: Inode): Option<Manifest> {
    if i.manifestId.Some? && i.manifestId.value in t.manifests then Some(t.manifests[i.manifestId.value]) else None
  }

  /** The bytes file `i` shows in state `t`. */
  function FileShows(t: Tables, i: InodeId, chunks: map<ChunkId, seq<byte>>, blobs: map<string, Blob>): seq<byte>
    requires i in t.inodes
  {
    var cur := t.inodes[i];
    Shown(cur, BaseOf(t, cur), BackingOf(cur, chunks, blobs))
  }

  /** A verified publish: the object holds bytes of the intended digest under the reported tag. */
  ghost predicate Verified(hash: seq<byte> -> ChunkId, blobs: map<string, Blob>, published: UfsObject,
                           intent: FlushIntent, size: nat)
  {
    && published.key in blobs && blobs[published.key].etag == published.etag
    && |blobs[published.key].bytes| == size && hash(blobs[published.key].bytes) == intent.targetDigest
  }

  /** A file that is one range over a whole object shows that object. */
  lemma WholeObject(size: nat, key: string, version: UfsVersion, b: Backing)
    requires key in b.objects && |b.objects[key]| == size > 0
    ensures Image([UfsRange(0, size, key, version, 0)], size, b) == b.objects[key]
  {
    forall p: nat | p < size ensures At([UfsRange(0, size, key, version, 0)], p) == FromObject(key, p) {
    }
  }

  /** Committing a flush switches the file to the published object, and nothing else changes for readers. */
  lemma CommitShowsObject(t: Tables, expected: nat, id: InodeId, flushId: FlushId, published: UfsObject,
                          hash: seq<byte> -> ChunkId, chunks: map<ChunkId, seq<byte>>, blobs: map<string, Blob>)
    requires Inv(t) && id in t.inodes && t.inodes[id].flushIntent.Some?
    requires CommitFlushNode(t, expected, id, flushId, published).result.Ok?
    requires Verified(hash, blobs, published, t.inodes[id].flushIntent.value, t.inodes[id].size)
    ensures var t' := CommitFlushNode(t, expected, id, flushId, published).tables;
            id in t'.inodes && FileShows(t', id, chunks, blobs) == blobs[published.key].bytes
  {
    hide Inv;
    hide CommitFlushNode;
    CommitFlushBase(t, expected, id, flushId, published);
    var t' := CommitFlushNode(t, expected, id, flushId, published).tables;
    var size := t.inodes[id].size;
    if size > 0 {
      WholeObject(size, published.key, PublishedVersion(published, t.inodes[id].flushIntent.value),
                  BackingOf(t'.inodes[id], chunks, blobs));
    }
  }

  lemma CommitFlushBase(t: Tables, expected: nat, id: InodeId, flushId: FlushId, published: UfsObject)
    requires Inv(t) && CommitFlushNode(t, expected, id, flushId, published).result.Ok?
    ensures var t' := CommitFlushNode(t, expected, id, flushId, published).tables;
            && id in t'.inodes && t'.inodes[id].ufs == Some(published) && t'.inodes[id].size == t.inodes[id].size
            && BaseOf(t', t'.inodes[id]) == if t.inodes[id].size == 0 then None
                                            else Some(CleanManifest(t.inodes[id], t.inodes[id].flushIntent.value,
                                                                    published))
  {
    InvIds(t);
    assert FilesOk(t);
    hide Inv;
    CommitFlushShape(t, expected, id, flushId, published);
    CommitFlushPins(t, expected, id, flushId, published);
    hide FilesOk;
    hide IdsBelow;
    hide LocalChunks;
    hide DeriveLabel;
    hide CleanManifest;
  }

  lemma CommitFlushPins(t: Tables, expected: nat, id: InodeId, flushId: FlushId, published: UfsObject)
    requires FilesOk(t) && CommitFlushNode(t, expected, id, flushId, published).result.Ok?
    ensures var next := CommitFlushNode(t, expected, id, flushId, published).result.value;
            next.ufs == Some(published) && next.size == t.inodes[id].size
  {
    assert FileOk(t.inodes[id], t.manifests);
  }

  // ------------------------------------------------ while the intent is recorded

  /** Every extent of the file can be read. */
  predicate FileReadable(t: Tables, i: InodeId, chunks: map<ChunkId, seq<byte>>, blobs: map<string, Blob>)
    requires i in t.inodes
  {
    var es := ExtentsOf(BaseOf(t, t.inodes[i]));
    forall k | 0 <= k < |es| :: Readable(es[k], BackingOf(t.inodes[i], chunks, blobs))
  }

  ghost predicate ChunksKept(chunks: map<ChunkId, seq<byte>>, chunks': map<ChunkId, seq<byte>>) {
    forall c | c in chunks :: c in chunks' && chunks'[c] == chunks[c]
  }

  /** An object under the same tag has the same contents. */
  ghost predicate TagsHonest(blobs: map<string, Blob>, blobs': map<string, Blob>) {
    forall k | k in blobs && k in blobs' && blobs[k].etag.Some? && blobs'[k].etag == blobs[k].etag ::
      blobs'[k].bytes == blobs[k].bytes
  }

  /** No range of the file lies over an object that went away or changed its tag. */
  ghost predicate RangesUntouched(es: seq<Extent>, blobs: map<string, Blob>, blobs': map<string, Blob>) {
    forall k | 0 <= k < |es| && es[k].UfsRange? ::
      es[k].key in blobs && es[k].key in blobs' && blobs'[es[k].key].etag == blobs[es[k].key].etag
  }

  /** If the file pins an object, it pins a tag. */
  predicate Tagged(i: Inode) {
    i.ufs.Some? ==> i.ufs.value.etag.Some?
  }

  lemma ReadableIff(e: Extent, cur: Inode, chunks: map<ChunkId, seq<byte>>, blobs: map<string, Blob>,
                    chunks': map<ChunkId, seq<byte>>, blobs': map<string, Blob>)
    requires Readable(e, BackingOf(cur, chunks, blobs)) && Tagged(cur)
    requires ChunksKept(chunks, chunks') && TagsHonest(blobs, blobs')
    ensures Readable(e, BackingOf(cur, chunks', blobs')) <==> RangesUntouched([e], blobs, blobs')
    ensures RangesUntouched([e], blobs, blobs') ==>
              SameBytes(e, BackingOf(cur, chunks, blobs), BackingOf(cur, chunks', blobs'))
  {
    assert [e][0] == e;
  }

  /** The extent finds the same chunk or object on both sides. */
  predicate SameBytes(e: Extent, b: Backing, b': Backing) {
    match e
    case Local(_, _, chunk) => chunk in b.chunks && chunk in b'.chunks && b'.chunks[chunk] == b.chunks[chunk]
    case UfsRange(_, _, key, _, _) => key in b.objects && key in b'.objects && b'.objects[key] == b.objects[key]
  }

  lemma {:induction false} SameBytesAt(es: seq<Extent>, b: Backing, b': Backing, p: nat)
    requires forall k | 0 <= k < |es| :: SameBytes(es[k], b, b')
    ensures ByteOf(At(es, p), b') == ByteOf(At(es, p), b)
  {
    if es != [] && !Covers(es[0], p) { SameBytesAt(es[1..], b, b', p); }
  }

  lemma FrozenBase(s: seq<Tables>, log: seq<Entry>, a: nat, b: nat, i: InodeId)
    requires IsRun(s, log) && Inv(s[0]) && a <= b < |s|
    requires forall k | a <= k <= b :: i in s[k].inodes && s[k].inodes[i].flushIntent.Some?
    ensures ContentOf(s[b].inodes[i]) == ContentOf(s[a].inodes[i])
    ensures BaseOf(s[b], s[b].inodes[i]) == BaseOf(s[a], s[a].inodes[i])
  {
    hide Inv;
    hide RecordsEvolve;
    hide RowsEvolve;
    FrozenRun(s, log, a, b, i);
    RunEvolves(s, log, a, b);
    RunKeepsInv(s, log, a);
    RunKeepsInv(s, log, b);
    InvStored(s[a]);
    InvStored(s[b]);
  }

  /**
   While the intent is recorded and whatever happens to the backing store - the
   publish included - a file that pins a tag can be read exactly when none of its
   ranges lies over an object whose tag changed, and then it shows the snapshot.
   */
  lemma PendingReadableIff(s: seq<Tables>, log: seq<Entry>, a: nat, b: nat, i: InodeId,
                           chunks: map<ChunkId, seq<byte>>, blobs: map<string, Blob>,
                           chunks': map<ChunkId, seq<byte>>, blobs': map<string, Blob>)
    requires IsRun(s, log) && Inv(s[0]) && a <= b < |s|
    requires forall k | a <= k <= b :: i in s[k].inodes && s[k].inodes[i].flushIntent.Some?
    requires FileReadable(s[a], i, chunks, blobs) && Tagged(s[a].inodes[i])
    requires ChunksKept(chunks, chunks') && TagsHonest(blobs, blobs')
    ensures FileReadable(s[b], i, chunks', blobs')
            <==> RangesUntouched(ExtentsOf(BaseOf(s[a], s[a].inodes[i])), blobs, blobs')
    ensures FileReadable(s[b], i, chunks', blobs') ==>
              FileShows(s[b], i, chunks', blobs') == FileShows(s[a], i, chunks, blobs)
  {
    hide Inv;
    hide IsRun;
    hide ByteOf;
    hide BackingOf;
    hide BaseOf;
    FrozenBase(s, log, a, b, i);
    var cur, es := s[a].inodes[i], ExtentsOf(BaseOf(s[a], s[a].inodes[i]));
    SamePin(cur, s[b].inodes[i], chunks', blobs');
    AllReadableIff(es, cur, chunks, blobs, chunks', blobs');
    if FileReadable(s[b], i, chunks', blobs') {
      var was, now := BackingOf(cur, chunks, blobs), BackingOf(cur, chunks', blobs');
      forall p: nat ensures ByteOf(At(es, p), now) == ByteOf(At(es, p), was) {
        SameBytesAt(es, was, now, p);
      }
    }
  }

  /** Every range of the file lies over one object, at the file's own offsets. */
  predicate Aligned(es: seq<Extent>, key: string) {
    forall k | 0 <= k < |es| && es[k].UfsRange? :: es[k].key == key && es[k].objectOffset == es[k].offset
  }

  /** An import or a flush starts a file that way, and writes and truncations keep it. */
  lemma AlignedKept(es: seq<Extent>, base: seq<Extent>, staged: map<ChunkId, seq<byte>>, key: string)
    requires ChunksFrom(es, base, staged) && Aligned(base, key)
    ensures Aligned(es, key)
  {
    forall k | 0 <= k < |es| && es[k].UfsRange? ensures es[k].key == key && es[k].objectOffset == es[k].offset {
      var j :| 0 <= j < |base| && Piece(es[k], base[j]);
    }
  }

  /** Without a pinned tag, a pending file shows the snapshot before the publish and after it. */
  lemma UntaggedShowsSnapshot(s: seq<Tables>, log: seq<Entry>, a: nat, b: nat, i: InodeId, key: string,
                              chunks: map<ChunkId, seq<byte>>, blobs: map<string, Blob>,
                              chunks': map<ChunkId, seq<byte>>, blobs': map<string, Blob>)
    requires IsRun(s, log) && Inv(s[0]) && a <= b < |s|
    requires forall k | a <= k <= b :: i in s[k].inodes && s[k].inodes[i].flushIntent.Some?
    requires FileReadable(s[a], i, chunks, blobs) && ChunksKept(chunks, chunks')
    requires s[a].inodes[i].ufs.Some? && s[a].inodes[i].ufs.value.etag.None?
    requires Aligned(ExtentsOf(BaseOf(s[a], s[a].inodes[i])), key)
    requires key in blobs' && blobs'[key].bytes == FileShows(s[a], i, chunks, blobs)
    ensures FileShows(s[b], i, chunks', blobs') == FileShows(s[a], i, chunks, blobs)
  {
    hide Inv;
    hide IsRun;
    hide BaseOf;
    FrozenBase(s, log, a, b, i);
    var cur, es := s[a].inodes[i], ExtentsOf(BaseOf(s[a], s[a].inodes[i]));
    var was, now := BackingOf(cur, chunks, blobs), BackingOf(cur, chunks', blobs');
    SamePin(cur, s[b].inodes[i], chunks', blobs');
    var shown := Image(es, cur.size, was);
    forall p: nat | p < cur.size ensures ByteOf(At(es, p), now) == shown[p] {
      RepublishedByte(es, was, now, key, p);
    }
  }

  lemma {:induction false} RepublishedByte(es: seq<Extent>, b: Backing, b': Backing, key: string, p: nat)
    requires (forall k | 0 <= k < |es| :: Readable(es[k], b)) && Aligned(es, key) && ChunksKept(b.chunks, b'.chunks)
    requires key in b'.objects && p < |b'.objects[key]|
    requires At(es, p).FromObject? ==> b'.objects[key][p] == ByteOf(At(es, p), b)
    ensures ByteOf(At(es, p), b') == ByteOf(At(es, p), b)
  {
    if es != [] && !Covers(es[0], p) { RepublishedByte(es[1..], b, b', key, p); }
  }

  lemma SamePin(a: Inode, b: Inode, chunks: map<ChunkId, seq<byte>>, blobs: map<string, Blob>)
    requires ContentOf(a) == ContentOf(b)
    ensures BackingOf(a, chunks, blobs) == BackingOf(b, chunks, blobs)
  {
  }

  lemma AllReadableIff(es: seq<Extent>, cur: Inode, chunks: map<ChunkId, seq<byte>>, blobs: map<string, Blob>,
                       chunks': map<ChunkId, seq<byte>>, blobs': map<string, Blob>)
    requires forall k | 0 <= k < |es| :: Readable(es[k], BackingOf(cur, chunks, blobs))
    requires Tagged(cur) && ChunksKept(chunks, chunks') && TagsHonest(blobs, blobs')
    ensures (forall k | 0 <= k < |es| :: Readable(es[k], BackingOf(cur, chunks', blobs')))
            <==> RangesUntouched(es, blobs, blobs')
    ensures RangesUntouched(es, blobs, blobs') ==>
              forall k | 0 <= k < |es| :: SameBytes(es[k], BackingOf(cur, chunks, blobs),
                                                    BackingOf(cur, chunks', blobs'))
  {
    hide BackingOf;
    hide Readable;
    hide TagsHonest;
    forall k | 0 <= k < |es|
      ensures Readable(es[k], BackingOf(cur, chunks', blobs')) <==> RangesUntouched([es[k]], blobs, blobs')
      ensures RangesUntouched([es[k]], blobs, blobs') ==>
                SameBytes(es[k], BackingOf(cur, chunks, blobs), BackingOf(cur, chunks', blobs'))
    {
      ReadableIff(es[k], cur, chunks, blobs, chunks', blobs');
    }
    assert forall k | 0 <= k < |es| :: [es[k]][0] == es[k];
  }

  /**
   From the snapshot in state `a`, whose bytes the intent's digest was computed
   from, to a commit by entry `b` - however many processes tried in between -
   the file shows the same bytes.
   */
  lemma FlushKeepsBytes(s: seq<Tables>, log: seq<Entry>, a: nat, b: nat, i: InodeId, hash: seq<byte> -> ChunkId,
                        chunks: map<ChunkId, seq<byte>>, blobs: map<string, Blob>,
                        chunks': map<ChunkId, seq<byte>>, blobs': map<string, Blob>)
    requires IsRun(s, log) && Inv(s[0]) && a <= b < |log| && Injective(hash)
    requires forall k | a <= k <= b :: i in s[k].inodes && s[k].inodes[i].flushIntent.Some?
    requires hash(FileShows(s[a], i, chunks, blobs)) == s[a].inodes[i].flushIntent.value.targetDigest
    requires log[b].req.CommitFlush? && log[b].req.id == i
    requires Verified(hash, blobs', log[b].req.published, s[a].inodes[i].flushIntent.value, s[a].inodes[i].size)
    requires i in s[b+1].inodes && s[b+1].inodes[i].flushIntent.None?
    ensures FileShows(s[b+1], i, chunks', blobs') == FileShows(s[a], i, chunks, blobs)
  {
    hide Inv;
    hide Execute;
    hide ExecuteFlush;
    hide Admissible;
    hide FileShows;
    hide CommitFlushNode;
    FrozenRun(s, log, a, b, i);
    RunKeepsInv(s, log, b);
    assert StepAt(s, log, b);
    var req := log[b].req;
    FlushOutcome(s[b], req, log[b].now);
    CommitShowsObject(s[b], req.expected, i, req.flushId, req.published, hash, chunks', blobs');
  }

  /** A flush commit that changes the tables has succeeded. */
  lemma FlushOutcome(t: Tables, req: Request, now: int)
    requires req.CommitFlush?
    ensures var o := CommitFlushNode(t, req.expected, req.id, req.flushId, req.published);
            Execute(t, req, now).0 == o.tables && (o.result.Err? ==> o.tables == t)
  {
    hide Execute;
    hide BeginFlushNode;
    hide FailFlushNode;
    Dispatch(t, req, now);
    FailedKeepsIntent(t, req.expected, req.id, req.flushId, req.published);
    hide CommitFlushNode;
  }

  lemma FailedKeepsIntent(t: Tables, expected: nat, id: InodeId, flushId: FlushId, published: UfsObject)
    ensures var o := CommitFlushNode(t, expected, id, flushId, published);
            o.result.Err? ==> o.tables == t
  {
  }

  // ----------------------------------------------- a file copied up in part

  /** An imported file of one window and one byte. */
  function ImportedRecord(now: int): Inode {
    Inode(0, Regular, 0, 0, 0, CHUNK_SIZE + 1, Times(now, now, now), 1, None, 1, 0, 0, Some(EtagVersion("a")),
          LabelExternal, Some(IMPORTED_FIELDS), Some(UfsObject("k", CHUNK_SIZE + 1, Some("a"), None)), None, None, None)
  }

  function ImportedManifest(): Manifest {
    ObjectManifest(0, 0, CHUNK_SIZE + 1, "k", EtagVersion("a"))
  }

  /** Its first window is written, the last byte still comes from the object. */
  function PartManifest(c: ChunkId): Manifest {
    Manifest(2, 1, CHUNK_SIZE + 1,
             [Local(0, CHUNK_SIZE, c), UfsRange(CHUNK_SIZE, 1, "k", EtagVersion("a"), CHUNK_SIZE)])
  }

  function Written(cur: Inode): Inode
    requires cur.fields.Some?
  {
    var f := Mutated(cur.fields.value);
    cur.(generation := cur.generation + 1, headGen := cur.headGen + 1, fields := Some(f),
         locality := DeriveLabel(f, cur.headGen + 1, cur.ufsGen))
  }

  function PartIntent(digest: ChunkId): FlushIntent {
    FlushIntent(0, 1, 0, Some(EtagVersion("a")), digest)
  }

  lemma ImportOne(t: Tables, now: int)
    requires t == EmptyStore(now)
    ensures var req := ImportExternal(ROOT_INODE, "f", ImportedRecord(now), Some(ImportedManifest()), None);
            var t' := Execute(t, req, now).0;
            && Admissible(t, req) && 2 in t'.inodes && t'.tombstones == map[] && t'.reservations == map[]
            && t'.inodes[2] == ImportedRecord(now).(id := 2, manifestId := Some(1))
  {
    var req := ImportExternal(ROOT_INODE, "f", ImportedRecord(now), Some(ImportedManifest()), None);
    hide Execute;
    Dispatch(t, req, now);
    assert !BadName("f");
  }

  lemma PartChunks(c: ChunkId)
    ensures LocalChunks(PartManifest(c)) == {c} && Ordered(PartManifest(c).extents)
  {
    assert PartManifest(c).extents[0].Local?;
  }

  lemma PartReserved(t: Tables, c: ChunkId, now: int)
    requires 2 in t.inodes && t.inodes[2].generation == 1 && t.tombstones == map[] && t.reservations == map[]
    ensures Execute(t, ReserveChunks(0, 2, 1, {c}, 0), now).0 == t.(reservations := map[0 := Reservation(2, 1, {c}, 0)])
  {
    hide Execute;
    Dispatch(t, ReserveChunks(0, 2, 1, {c}, 0), now);
    assert {c} * t.tombstones.Keys == {};
  }

  lemma PartCommitted(t: Tables, c: ChunkId, now: int)
    requires 2 in t.inodes && t.inodes[2] == ImportedRecord(now).(id := 2, manifestId := Some(1))
    requires t.reservations == map[0 := Reservation(2, 1, {c}, 0)]
    ensures var req := CommitReserved(0, 1, Written(t.inodes[2]), PartManifest(c));
            var t' := Execute(t, req, now).0;
            && Admissible(t, req) && 2 in t'.inodes
            && t'.inodes[2] == Written(t.inodes[2]).(manifestId := Some(t.nextManifest))
            && t.nextManifest in t'.manifests && t'.manifests[t.nextManifest] == PartManifest(c)
  {
    var req := CommitReserved(0, 1, Written(t.inodes[2]), PartManifest(c));
    hide Execute;
    Dispatch(t, req, now);
    PartChunks(c);
    hide LocalChunks;
    hide Ordered;
  }

  lemma PartPending(t: Tables, cur: Inode, digest: ChunkId, now: int)
    requires 2 in t.inodes && t.inodes[2] == cur && cur.id == 2 && cur.generation == 2 && cur.fileType == Regular
    requires cur.fields == Some(Mutated(IMPORTED_FIELDS)) && cur.headGen == 1 && cur.flushIntent.None?
    ensures var t' := Execute(t, BeginFlush(2, 2, PartIntent(digest)), now).0;
            && 2 in t'.inodes && t'.inodes[2].flushIntent.Some? && t'.manifests == t.manifests
            && t'.inodes[2].manifestId == cur.manifestId && t'.inodes[2].ufs == cur.ufs && t'.inodes[2].size == cur.size
  {
    hide Execute;
    Dispatch(t, BeginFlush(2, 2, PartIntent(digest)), now);
  }

  /** A run from a fresh store that leaves such a file with a recorded intent. */
  lemma PartRun(c: ChunkId, digest: ChunkId, now: int) returns (s: seq<Tables>, log: seq<Entry>)
    ensures IsRun(s, log) && s[0] == EmptyStore(now) && 2 in s[|log|].inodes
    ensures var i := s[|log|].inodes[2];
            && i.flushIntent.Some? && BaseOf(s[|log|], i) == Some(PartManifest(c)) && i.size == CHUNK_SIZE + 1
            && i.ufs == Some(UfsObject("k", CHUNK_SIZE + 1, Some("a"), None))
  {
    hide Execute;
    hide Admissible;
    var t0 := EmptyStore(now);
    var r0 := ImportExternal(ROOT_INODE, "f", ImportedRecord(now), Some(ImportedManifest()), None);
    ImportOne(t0, now);
    var t1 := Execute(t0, r0, now).0;
    var r1 := ReserveChunks(0, 2, 1, {c}, 0);
    PartReserved(t1, c, now);
    TrustsNothing(t1, r1);
    var t2 := Execute(t1, r1, now).0;
    var r2 := CommitReserved(0, 1, Written(t2.inodes[2]), PartManifest(c));
    PartCommitted(t2, c, now);
    var t3 := Execute(t2, r2, now).0;
    var r3 := BeginFlush(2, 2, PartIntent(digest));
    PartPending(t3, t3.inodes[2], digest, now);
    TrustsNothing(t3, r3);
    var t4 := Execute(t3, r3, now).0;
    s := [t0, t1, t2, t3, t4];
    log := [Entry(r0, now), Entry(r1, now), Entry(r2, now), Entry(r3, now)];
  }

  lemma TrustsNothing(t: Tables, req: Request)
    requires req.ReserveChunks? || req.BeginFlush?
    ensures Admissible(t, req)
  {
  }

  /** What the file shows while the object keeps its tag, and that it is unreadable once the tag changed. */
  lemma PartlyCopiedBreaks(c: ChunkId, digest: ChunkId, x: seq<byte>, imported: seq<byte>, published: seq<byte>,
                           now: int)
    returns (s: seq<Tables>, log: seq<Entry>)
    requires |x| == CHUNK_SIZE && |imported| == CHUNK_SIZE + 1
    ensures IsRun(s, log) && s[0] == EmptyStore(now) && 2 in s[|log|].inodes && s[|log|].inodes[2].flushIntent.Some?
    ensures FileReadable(s[|log|], 2, map[c := x], map["k" := Blob(imported, Some("a"))])
    ensures !FileReadable(s[|log|], 2, map[c := x], map["k" := Blob(published, Some("b"))])
  {
    s, log := PartRun(c, digest, now);
    hide StepAt;
    var t := s[|log|];
    var es := PartManifest(c).extents;
    assert ExtentsOf(BaseOf(t, t.inodes[2])) == es;
    var b := BackingOf(t.inodes[2], map[c := x], map["k" := Blob(imported, Some("a"))]);
    var b' := BackingOf(t.inodes[2], map[c := x], map["k" := Blob(published, Some("b"))]);
    assert Readable(es[0], b) && Readable(es[1], b);
    assert !Readable(es[1], b');
  }
}
