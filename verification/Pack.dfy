/**
 The pack store's durable state: append-only segment files and an index into
 them, read as a map from content address to bytes.
 */
module Pack {
  import opened Types
  import opened Bytes

  /** A content address as its 32 bytes. */
  type Address = seq<byte>

  const RECORD_MAGIC: nat := 0x4658_4b31

  const HEADER: nat := 40

  datatype IndexEntry = IndexEntry(segment: nat, offset: nat, len: nat)

  datatype Disk = Disk(segments: map<nat, seq<byte>>, index: map<Address, IndexEntry>, active: nat, next: nat)

  ghost predicate Hashes(hash: seq<byte> -> Address) {
    forall x :: |hash(x)| == 32
  }

  /** Magic, length, address, data. */
  function Record(id: Address, data: seq<byte>): (r: seq<byte>)
    requires |id| == 32 && |data| < 0x1_0000_0000
    ensures |r| == HEADER + |data|
  {
    Le32(RECORD_MAGIC) + Le32(|data|) + id + data
  }

  /** The bytes of a record, if what lies at the entry is one and its contents match its address. */
  function ReadRecord(hash: seq<byte> -> Address, segments: map<nat, seq<byte>>, e: IndexEntry): Option<seq<byte>> {
    if e.segment !in segments then None
    else
      var s := segments[e.segment];
      if |s| < e.offset + HEADER then None
      else
        var magic := FromLe32(s[e.offset..e.offset + 4]);
        var len := FromLe32(s[e.offset + 4..e.offset + 8]);
        if magic != RECORD_MAGIC || len != e.len || |s| < e.offset + HEADER + len then None
        else
          var data := s[e.offset + HEADER..e.offset + HEADER + len];
          if hash(data) == s[e.offset + 8..e.offset + HEADER] then Some(data) else None
  }

  /** What a lookup of `id` answers. */
  function Lookup(hash: seq<byte> -> Address, d: Disk, id: Address): Option<seq<byte>> {
    if id !in d.index then None
    else match ReadRecord(hash, d.segments, d.index[id])
      case None => None
      case Some(data) => if hash(data) == id then Some(data) else None
  }

  /** The store as a map. */
  function View(hash: seq<byte> -> Address, d: Disk): map<Address, seq<byte>> {
    map id | id in d.index && Lookup(hash, d, id).Some? :: Lookup(hash, d, id).value
  }

  /** Every indexed chunk reads back. */
  ghost predicate AllReadable(hash: seq<byte> -> Address, d: Disk) {
    forall id | id in d.index :: Lookup(hash, d, id).Some?
  }

  /** Every indexed chunk lies in a segment file that exists, readable or not. */
  ghost predicate Placed(d: Disk) {
    forall id | id in d.index :: d.index[id].segment in d.segments
  }

  /** The next segment number is larger than every one in use. */
  ghost predicate Ahead(d: Disk) {
    d.active < d.next && forall id | id in d.index :: d.index[id].segment < d.next
  }

  // ------------------------------------------------------------- records

  /** A record written at some offset reads back from there. */
  lemma RecordReads(hash: seq<byte> -> Address, segments: map<nat, seq<byte>>, seg: nat, before: seq<byte>,
                    data: seq<byte>, after: seq<byte>)
    requires Hashes(hash) && |data| < 0x1_0000_0000
    requires seg in segments && segments[seg] == before + Record(hash(data), data) + after
    ensures ReadRecord(hash, segments, IndexEntry(seg, |before|, |data|)) == Some(data)
  {
    var s, o, id := segments[seg], |before|, hash(data);
    var r := Record(id, data);
    assert s[o..o + |r|] == r;
    assert s[o..o + 4] == r[0..4] == Le32(RECORD_MAGIC);
    assert s[o + 4..o + 8] == r[4..8] == Le32(|data|);
    assert s[o + 8..o + HEADER] == r[8..HEADER] == id;
    assert s[o + HEADER..o + HEADER + |data|] == r[HEADER..] == data;
    Le32RoundTrip(RECORD_MAGIC);
    Le32RoundTrip(|data|);
  }

  lemma PrefixReads(hash: seq<byte> -> Address, a: map<nat, seq<byte>>, b: map<nat, seq<byte>>, e: IndexEntry)
    requires ReadRecord(hash, a, e).Some? && e.segment in b && a[e.segment] <= b[e.segment]
    ensures ReadRecord(hash, b, e) == ReadRecord(hash, a, e)
  {
    var s, t := a[e.segment], b[e.segment];
    assert t[e.offset..e.offset + 4] == s[e.offset..e.offset + 4];
    assert t[e.offset + 4..e.offset + 8] == s[e.offset + 4..e.offset + 8];
    assert t[e.offset + 8..e.offset + HEADER] == s[e.offset + 8..e.offset + HEADER];
    assert t[e.offset + HEADER..e.offset + HEADER + e.len] == s[e.offset + HEADER..e.offset + HEADER + e.len];
  }

  /** A chunk reads back as before from a file that only grew. */
  lemma KeptLookup(hash: seq<byte> -> Address, d: Disk, d': Disk, id: Address)
    requires Lookup(hash, d, id).Some? && id in d'.index && d'.index[id] == d.index[id]
    requires d.index[id].segment in d'.segments
    requires d.segments[d.index[id].segment] <= d'.segments[d.index[id].segment]
    ensures Lookup(hash, d', id) == Lookup(hash, d, id)
  {
    PrefixReads(hash, d.segments, d'.segments, d.index[id]);
    hide ReadRecord;
  }

  /** The same answers for the same addresses make the same map. */
  lemma SameLookups(hash: seq<byte> -> Address, d: Disk, d': Disk)
    requires d'.index.Keys == d.index.Keys && forall id | id in d.index :: Lookup(hash, d', id) == Lookup(hash, d, id)
    ensures View(hash, d') == View(hash, d) && (AllReadable(hash, d) <==> AllReadable(hash, d'))
  {
    hide Lookup;
  }

  // ----------------------------------------------------------------- put

  /** The active segment has reached the roll size. */
  predicate Rolls(d: Disk, roll: nat) {
    (if d.active in d.segments then |d.segments[d.active]| else 0) >= roll
  }

  /** The segment a put appends to: the active one, or the next one once the active one is full. */
  function PutSegment(d: Disk, roll: nat): nat {
    if Rolls(d, roll) then d.next else d.active
  }

  function PutNext(d: Disk, roll: nat): nat {
    if Rolls(d, roll) then d.next + 1 else d.next
  }

  /** The bytes already in that segment; a rolled-to segment is created empty. */
  function PutBase(d: Disk, roll: nat): seq<byte> {
    if !Rolls(d, roll) && d.active in d.segments then d.segments[d.active] else []
  }

  /** The active segment file exists. */
  function Touched(d: Disk): Disk {
    if d.active in d.segments then d else d.(segments := d.segments[d.active := []])
  }

  /** The segment holds what was there followed by a beginning of the record. */
  function Appended(d: Disk, roll: nat, torn: seq<byte>): Disk {
    Touched(d).(segments := Touched(d).segments[PutSegment(d, roll) := PutBase(d, roll) + torn])
  }

  function PutDone(d: Disk, roll: nat, id: Address, data: seq<byte>): Disk
    requires |id| == 32 && |data| < 0x1_0000_0000
  {
    var seg := PutSegment(d, roll);
    Appended(d, roll, Record(id, data)).(
      index := d.index[id := IndexEntry(seg, |PutBase(d, roll)|, |data|)], active := seg, next := PutNext(d, roll))
  }

  /** Rolling would not truncate a segment that chunks lie in. */
  predicate PutGuard(d: Disk, roll: nat) {
    Rolls(d, roll) ==> forall id | id in d.index :: d.index[id].segment != d.next
  }

  predicate Stored(hash: seq<byte> -> Address, d: Disk, data: seq<byte>) {
    Lookup(hash, d, hash(data)) == Some(data)
  }

  /** The state a completed put leaves: a stored chunk is left alone, an oversize one is refused after the roll. */
  function PutEnd(hash: seq<byte> -> Address, d: Disk, roll: nat, data: seq<byte>): Disk
    requires |hash(data)| == 32
  {
    if Stored(hash, d, data) then d
    else if |data| >= 0x1_0000_0000 then Appended(d, roll, [])
    else PutDone(d, roll, hash(data), data)
  }

  /** The durable states a put passes through, at any of which it may be cut off. */
  ghost predicate PutCrash(hash: seq<byte> -> Address, d: Disk, roll: nat, data: seq<byte>, d': Disk) {
    || d' == d
    || (!Stored(hash, d, data)
        && (|| d' == Touched(d)
            || d' == Appended(d, roll, [])
            || (|data| < 0x1_0000_0000 && |hash(data)| == 32
                && (|| (exists n: nat | n <= HEADER + |data| :: d' == Appended(d, roll, Record(hash(data), data)[..n]))
                    || d' == PutDone(d, roll, hash(data), data)))))
  }

  /** A readable chunk outside a truncated segment reads back whatever is appended. */
  lemma AppendedLookup(hash: seq<byte> -> Address, d: Disk, roll: nat, torn: seq<byte>, id: Address)
    requires Lookup(hash, d, id).Some? && !(Rolls(d, roll) && d.index[id].segment == d.next)
    ensures Lookup(hash, Appended(d, roll, torn), id) == Lookup(hash, d, id)
  {
    KeptLookup(hash, d, Appended(d, roll, torn), id);
  }

  /** A chunk in a truncated segment does not. */
  lemma TruncatedLookup(hash: seq<byte> -> Address, d: Disk, roll: nat, id: Address)
    requires id in d.index && Rolls(d, roll) && d.index[id].segment == d.next
    ensures Lookup(hash, Appended(d, roll, []), id) == None
  {
    assert Appended(d, roll, []).segments[d.next] == [];
  }

  lemma AppendedView(hash: seq<byte> -> Address, d: Disk, roll: nat, torn: seq<byte>)
    requires AllReadable(hash, d) && PutGuard(d, roll)
    ensures AllReadable(hash, Appended(d, roll, torn)) && View(hash, Appended(d, roll, torn)) == View(hash, d)
  {
    hide Lookup;
    forall id | id in d.index ensures Lookup(hash, Appended(d, roll, torn), id) == Lookup(hash, d, id) {
      AppendedLookup(hash, d, roll, torn, id);
    }
    SameLookups(hash, d, Appended(d, roll, torn));
  }

  lemma TouchedView(hash: seq<byte> -> Address, d: Disk)
    requires AllReadable(hash, d)
    ensures AllReadable(hash, Touched(d)) && View(hash, Touched(d)) == View(hash, d)
  {
    forall id | id in d.index ensures Lookup(hash, Touched(d), id) == Lookup(hash, d, id) {
      KeptLookup(hash, d, Touched(d), id);
    }
    hide Lookup;
    SameLookups(hash, d, Touched(d));
  }

  lemma PutDoneReads(hash: seq<byte> -> Address, d: Disk, roll: nat, data: seq<byte>)
    requires Hashes(hash) && |data| < 0x1_0000_0000
    ensures Lookup(hash, PutDone(d, roll, hash(data), data), hash(data)) == Some(data)
  {
    hide Record;
    hide ReadRecord;
    var base := PutBase(d, roll);
    var d' := PutDone(d, roll, hash(data), data);
    assert base + Record(hash(data), data) + [] == base + Record(hash(data), data);
    RecordReads(hash, d'.segments, PutSegment(d, roll), base, data, []);
  }

  lemma PutDoneOthers(hash: seq<byte> -> Address, d: Disk, roll: nat, data: seq<byte>, x: Address)
    requires Hashes(hash) && |data| < 0x1_0000_0000 && x != hash(data)
    requires Lookup(hash, d, x).Some? && !(Rolls(d, roll) && d.index[x].segment == d.next)
    ensures Lookup(hash, PutDone(d, roll, hash(data), data), x) == Lookup(hash, d, x)
  {
    hide Record;
    KeptLookup(hash, d, PutDone(d, roll, hash(data), data), x);
  }

  /** A completed put on any store: the chunk is there, and so is every other one outside a truncated segment. */
  lemma PutEndKeeps(hash: seq<byte> -> Address, d: Disk, roll: nat, data: seq<byte>, x: Address)
    requires Hashes(hash)
    ensures |data| < 0x1_0000_0000 ==> Lookup(hash, PutEnd(hash, d, roll, data), hash(data)) == Some(data)
    ensures Lookup(hash, d, x).Some? && !(Rolls(d, roll) && d.index[x].segment == d.next)
            ==> Lookup(hash, PutEnd(hash, d, roll, data), x)
                == if x == hash(data) && |data| < 0x1_0000_0000 then Some(data) else Lookup(hash, d, x)
  {
    hide Record;
    hide PutDone;
    hide Appended;
    hide ReadRecord;
    if !Stored(hash, d, data) {
      if |data| < 0x1_0000_0000 { PutDoneReads(hash, d, roll, data); }
      if Lookup(hash, d, x).Some? && !(Rolls(d, roll) && d.index[x].segment == d.next) {
        if |data| >= 0x1_0000_0000 {
          AppendedLookup(hash, d, roll, [], x);
        } else if x != hash(data) {
          PutDoneOthers(hash, d, roll, data, x);
        }
      }
    }
  }

  /** A completed put adds exactly its chunk, unless it truncates. */
  lemma PutDoneView(hash: seq<byte> -> Address, d: Disk, roll: nat, data: seq<byte>)
    requires AllReadable(hash, d) && PutGuard(d, roll) && Hashes(hash) && |data| < 0x1_0000_0000
    ensures var d' := PutDone(d, roll, hash(data), data);
            AllReadable(hash, d') && View(hash, d') == View(hash, d)[hash(data) := data]
  {
    hide Lookup;
    hide Record;
    hide View;
    var d' := PutDone(d, roll, hash(data), data);
    PutDoneReads(hash, d, roll, data);
    forall x | x in d.index && x != hash(data) ensures Lookup(hash, d', x) == Lookup(hash, d, x) {
      PutDoneOthers(hash, d, roll, data, x);
    }
    NewEntryView(hash, d, d', hash(data), data);
  }

  lemma NewEntryView(hash: seq<byte> -> Address, d: Disk, d': Disk, id: Address, data: seq<byte>)
    requires AllReadable(hash, d) && d'.index.Keys == d.index.Keys + {id}
    requires forall x | x in d.index && x != id :: Lookup(hash, d', x) == Lookup(hash, d, x)
    requires Lookup(hash, d', id) == Some(data)
    ensures AllReadable(hash, d') && View(hash, d') == View(hash, d)[id := data]
  {
    hide Lookup;
  }

  /** Cut anywhere, a put that does not truncate leaves the old map or the new one, and every chunk readable. */
  lemma PutCrashSafe(hash: seq<byte> -> Address, d: Disk, roll: nat, data: seq<byte>, d': Disk)
    requires AllReadable(hash, d) && (Stored(hash, d, data) || PutGuard(d, roll)) && Hashes(hash)
    requires PutCrash(hash, d, roll, data, d')
    ensures AllReadable(hash, d')
    ensures View(hash, d') == View(hash, d) || View(hash, d') == View(hash, d)[hash(data) := data]
  {
    hide Lookup;
    hide View;
    hide Record;
    if d' != d {
      if d' == Touched(d) {
        TouchedView(hash, d);
      } else if d' == Appended(d, roll, []) {
        AppendedView(hash, d, roll, []);
      } else if d' == PutDone(d, roll, hash(data), data) {
        PutDoneView(hash, d, roll, data);
      } else {
        var n: nat :| n <= HEADER + |data| && d' == Appended(d, roll, Record(hash(data), data)[..n]);
        AppendedView(hash, d, roll, Record(hash(data), data)[..n]);
      }
    }
  }

  /**
   A put of a new chunk is safe against being cut off exactly when it does not
   roll into a segment that chunks lie in.
   */
  lemma PutSafeIff(hash: seq<byte> -> Address, d: Disk, roll: nat, data: seq<byte>)
    requires AllReadable(hash, d) && Hashes(hash)
    ensures (forall d' | PutCrash(hash, d, roll, data, d') ::
               View(hash, d') == View(hash, d) || View(hash, d') == View(hash, d)[hash(data) := data])
            <==> Stored(hash, d, data) || PutGuard(d, roll)
  {
    if Stored(hash, d, data) || PutGuard(d, roll) {
      forall d' | PutCrash(hash, d, roll, data, d')
        ensures View(hash, d') == View(hash, d) || View(hash, d') == View(hash, d)[hash(data) := data]
      {
        PutCrashSafe(hash, d, roll, data, d');
      }
    } else {
      UnguardedLoses(hash, d, roll, data);
    }
  }

  lemma UnguardedLoses(hash: seq<byte> -> Address, d: Disk, roll: nat, data: seq<byte>)
    requires AllReadable(hash, d) && !Stored(hash, d, data) && !PutGuard(d, roll)
    ensures var d' := Appended(d, roll, []);
            && PutCrash(hash, d, roll, data, d')
            && exists id | id in View(hash, d) :: id !in View(hash, d')
  {
    hide Lookup;
    var id :| id in d.index && d.index[id].segment == d.next;
    TruncatedLookup(hash, d, roll, id);
    assert id in View(hash, d);
  }

  // -------------------------------------------------------------- delete

  lemma DeleteView(hash: seq<byte> -> Address, d: Disk, id: Address)
    ensures var d' := d.(index := d.index - {id});
            View(hash, d') == View(hash, d) - {id} && (AllReadable(hash, d) ==> AllReadable(hash, d'))
  {
    var d' := d.(index := d.index - {id});
    assert forall x | x in d'.index :: Lookup(hash, d', x) == Lookup(hash, d, x);
    hide Lookup;
  }

  // ------------------------------------------------------------- compact

  /** Some entry leads to a well-formed record of another chunk; compaction stops at it. */
  ghost predicate Misfiled(hash: seq<byte> -> Address, d: Disk) {
    exists id | id in d.index :: ReadRecord(hash, d.segments, d.index[id]).Some? && Lookup(hash, d, id).None?
  }

  lemma ReadableNotMisfiled(hash: seq<byte> -> Address, d: Disk)
    requires AllReadable(hash, d)
    ensures !Misfiled(hash, d)
  {
    hide Lookup;
    hide ReadRecord;
  }

  /** The first segment number from the counter on that no file has. */
  ghost predicate FirstFree(d: Disk, target: nat) {
    target >= d.next && target !in d.segments && forall k | d.next <= k < target :: k in d.segments
  }

  /** Every chunk with a new entry reads back from the new segment. */
  ghost predicate Rewritten(hash: seq<byte> -> Address, d: Disk, target: nat, file: seq<byte>,
                            entries: map<Address, IndexEntry>)
  {
    forall id | id in entries ::
      && id in d.index && entries[id].segment == target
      && ReadRecord(hash, d.segments[target := file], entries[id]) == Lookup(hash, d, id)
  }

  lemma RewriteOne(hash: seq<byte> -> Address, d: Disk, target: nat, file: seq<byte>,
                   entries: map<Address, IndexEntry>, id: Address, data: seq<byte>)
    requires Hashes(hash) && Rewritten(hash, d, target, file, entries)
    requires forall x | x in entries :: Lookup(hash, d, x).Some?
    requires Lookup(hash, d, id) == Some(data) && |data| < 0x1_0000_0000
    ensures hash(data) == id && |id| == 32
    ensures Rewritten(hash, d, target, file + Record(id, data), entries[id := IndexEntry(target, |file|, |data|)])
  {
    hide ReadRecord;
    hide Record;
    var file' := file + Record(id, data);
    var a, b := d.segments[target := file], d.segments[target := file'];
    assert file + Record(id, data) + [] == file';
    RecordReads(hash, b, target, file, data, []);
    forall x | x in entries ensures ReadRecord(hash, b, entries[x]) == Lookup(hash, d, x) {
      PrefixReads(hash, a, b, entries[x]);
    }
  }

  /** Lengths read from a record fit its 32-bit field. */
  lemma RecordLength(hash: seq<byte> -> Address, segments: map<nat, seq<byte>>, e: IndexEntry)
    requires ReadRecord(hash, segments, e).Some?
    ensures |ReadRecord(hash, segments, e).value| < 0x1_0000_0000
  {
  }

  function NewFile(d: Disk, target: nat, file: seq<byte>): Disk {
    d.(segments := d.segments[target := file])
  }

  /** The durable states a compaction passes through; one that meets a misfiled entry never commits. */
  ghost predicate CompactCrash(hash: seq<byte> -> Address, d: Disk, target: nat, d': Disk) {
    || d' == d
    || (exists file: seq<byte> :: d' == NewFile(d, target, file))
    || (!Misfiled(hash, d) && exists file: seq<byte>, gone: set<nat>, entries: map<Address, IndexEntry> ::
          CompactedTo(hash, d, target, file, gone, entries, d'))
  }

  /** The index points into the new segment, and some old segments are unlinked. */
  ghost predicate CompactedTo(hash: seq<byte> -> Address, d: Disk, target: nat, file: seq<byte>, gone: set<nat>,
                              entries: map<Address, IndexEntry>, d': Disk)
  {
    && target !in gone && entries.Keys == View(hash, d).Keys && Rewritten(hash, d, target, file, entries)
    && d' == Disk(d.segments[target := file] - gone, entries, target, target + 1)
  }

  lemma CompactedLookup(hash: seq<byte> -> Address, d: Disk, target: nat, file: seq<byte>, gone: set<nat>,
                        entries: map<Address, IndexEntry>, d': Disk, id: Address)
    requires CompactedTo(hash, d, target, file, gone, entries, d') && id in entries
    ensures Lookup(hash, d', id) == Lookup(hash, d, id)
  {
    hide View;
    assert ReadRecord(hash, d'.segments, entries[id]) == ReadRecord(hash, d.segments[target := file], entries[id]);
    assert Lookup(hash, d, id).Some? ==> hash(Lookup(hash, d, id).value) == id;
    hide ReadRecord;
  }

  /** A compaction of any store keeps its map, drops what was unreadable and puts the counter ahead. */
  lemma CompactedView(hash: seq<byte> -> Address, d: Disk, target: nat, file: seq<byte>, gone: set<nat>,
                      entries: map<Address, IndexEntry>, d': Disk)
    requires CompactedTo(hash, d, target, file, gone, entries, d')
    ensures AllReadable(hash, d') && Ahead(d') && View(hash, d') == View(hash, d)
  {
    hide Lookup;
    forall id | id in entries ensures Lookup(hash, d', id) == Lookup(hash, d, id) {
      CompactedLookup(hash, d, target, file, gone, entries, d', id);
    }
  }

  lemma NewFileLookup(hash: seq<byte> -> Address, d: Disk, target: nat, file: seq<byte>, id: Address)
    requires Placed(d) && target !in d.segments && id in d.index
    ensures Lookup(hash, NewFile(d, target, file), id) == Lookup(hash, d, id)
    ensures ReadRecord(hash, NewFile(d, target, file).segments, d.index[id])
            == ReadRecord(hash, d.segments, d.index[id])
  {
  }

  lemma NewFileView(hash: seq<byte> -> Address, d: Disk, target: nat, file: seq<byte>)
    requires Placed(d) && target !in d.segments
    ensures View(hash, NewFile(d, target, file)) == View(hash, d)
    ensures AllReadable(hash, d) ==> AllReadable(hash, NewFile(d, target, file))
  {
    hide Lookup;
    hide ReadRecord;
    forall id | id in d.index ensures Lookup(hash, NewFile(d, target, file), id) == Lookup(hash, d, id) {
      NewFileLookup(hash, d, target, file, id);
    }
    SameLookups(hash, d, NewFile(d, target, file));
  }

  /** Cut anywhere, a compaction leaves the map as it was. */
  lemma CompactCrashSafe(hash: seq<byte> -> Address, d: Disk, target: nat, d': Disk)
    requires Placed(d) && target !in d.segments && CompactCrash(hash, d, target, d')
    ensures View(hash, d') == View(hash, d) && (AllReadable(hash, d) ==> AllReadable(hash, d'))
    ensures Ahead(d') || (d'.index == d.index && d'.active == d.active && d'.next == d.next)
  {
    hide View;
    hide AllReadable;
    hide Rewritten;
    hide Misfiled;
    if d' != d {
      if file: seq<byte> :| d' == NewFile(d, target, file) {
        NewFileView(hash, d, target, file);
      } else {
        var file: seq<byte>, gone: set<nat>, entries: map<Address, IndexEntry> :|
          CompactedTo(hash, d, target, file, gone, entries, d');
        CompactedView(hash, d, target, file, gone, entries, d');
      }
    }
  }

  // ------------------------------------------------- the counters of `open`

  /** A store as `open` creates it: both counters are 1. */
  function Opened(): Disk {
    Disk(map[], map[], 1, 1)
  }

  /** Until its first roll or compaction an opened store keeps everything in segment 1 and both counters at 1. */
  ghost predicate BeforeFirstRoll(d: Disk) {
    d.active == 1 && d.next == 1 && forall id | id in d.index :: d.index[id].segment == 1
  }

  /** In that time the guard allows a roll only while nothing is stored. */
  lemma EarlyGuard(d: Disk, roll: nat)
    requires BeforeFirstRoll(d)
    ensures PutGuard(d, roll) <==> (Rolls(d, roll) ==> d.index == map[])
  {
    if d.index != map[] {
      var id :| id in d.index;
    }
  }

  /** A guarded put leaves an opened store before its first roll or with the counter ahead. */
  lemma PutCounters(hash: seq<byte> -> Address, d: Disk, roll: nat, data: seq<byte>, d': Disk)
    requires Stored(hash, d, data) || PutGuard(d, roll)
    requires PutCrash(hash, d, roll, data, d')
    ensures BeforeFirstRoll(d) ==> BeforeFirstRoll(d') || Ahead(d')
    ensures Ahead(d) ==> Ahead(d')
  {
    hide Lookup;
    hide Record;
  }

  /** Rolling keeps the map exactly when no readable chunk lies in the segment rolled to. */
  lemma RollKeepsIff(hash: seq<byte> -> Address, d: Disk, roll: nat)
    requires Rolls(d, roll)
    ensures View(hash, Appended(d, roll, [])) == View(hash, d)
            <==> forall id | id in View(hash, d) :: d.index[id].segment != d.next
  {
    hide ReadRecord;
    var d' := Appended(d, roll, []);
    if forall id | id in View(hash, d) :: d.index[id].segment != d.next {
      forall id | id in d.index ensures Lookup(hash, d', id) == Lookup(hash, d, id) {
        RolledLookup(hash, d, roll, id);
      }
      hide Lookup;
      SameLookups(hash, d, d');
    } else {
      hide Lookup;
      var id :| id in View(hash, d) && d.index[id].segment == d.next;
      TruncatedLookup(hash, d, roll, id);
      assert id !in View(hash, d');
    }
  }

  lemma RolledLookup(hash: seq<byte> -> Address, d: Disk, roll: nat, id: Address)
    requires Rolls(d, roll) && id in d.index
    ensures Lookup(hash, Appended(d, roll, []), id)
            == if d.index[id].segment == d.next then None else Lookup(hash, d, id)
  {
    if d.index[id].segment == d.next {
      TruncatedLookup(hash, d, roll, id);
    }
  }

  /** The first roll of an opened store empties it before the new record is written. */
  lemma FirstRollLosesAll(hash: seq<byte> -> Address, d: Disk, roll: nat)
    requires BeforeFirstRoll(d) && Rolls(d, roll)
    ensures View(hash, Appended(d, roll, [])) == map[]
  {
    forall id | id in d.index ensures Lookup(hash, Appended(d, roll, []), id) == None {
      TruncatedLookup(hash, d, roll, id);
    }
    hide Lookup;
  }

  /** Two puts into an opened store: the second completes and the first chunk is gone, and no compaction succeeds. */
  lemma LossExample(hash: seq<byte> -> Address)
    requires Hashes(hash) && hash([7]) != hash([8])
    ensures var d := PutEnd(hash, Opened(), 41, [7]);
            var d' := PutEnd(hash, d, 41, [8]);
            hash([7]) in View(hash, d) && hash([7]) !in View(hash, d') && Misfiled(hash, d')
  {
    hide ReadRecord;
    hide Record;
    var d := PutEnd(hash, Opened(), 41, [7]);
    PutDoneReads(hash, Opened(), 41, [7]);
    assert |d.segments[1]| == 41 && d.index[hash([7])] == IndexEntry(1, 0, 1);
    assert Rolls(d, 41);
    var d' := PutEnd(hash, d, 41, [8]);
    PutDoneReads(hash, d, 41, [8]);
    assert d'.index[hash([7])] == d'.index[hash([8])] == IndexEntry(1, 0, 1);
    assert ReadRecord(hash, d'.segments, IndexEntry(1, 0, 1)) == Some([8]);
  }
}
