/**
 The pack store's operations, in place, and runs of them with crashes.
 */
module PackStores {
  import opened Types
  import opened Bytes
  import opened Pack

  class PackStore {
    const hash: seq<byte> -> Address
    const roll: nat
    var segments: map<nat, seq<byte>>
    var index: map<Address, IndexEntry>
    var active: nat
    var next: nat

    function State(): Disk
      reads this
    {
      Disk(segments, index, active, next)
    }

    ghost function Chunks(): map<Address, seq<byte>>
      reads this
    {
      View(hash, State())
    }

    ghost predicate Valid()
      reads this
    {
      Hashes(hash) && Placed(State())
    }

    /** Opening an empty directory seeds both counters with 1. */
    constructor Open(hash: seq<byte> -> Address, roll: nat)
      requires Hashes(hash)
      ensures Valid() && State() == Opened() && this.hash == hash && this.roll == roll
    {
      this.hash, this.roll := hash, roll;
      segments, index, active, next := map[], map[], 1, 1;
    }

    /** A lookup answers what the map holds. */
    method Get(id: Address) returns (r: Result<seq<byte>>)
      ensures r == if id in Chunks() then Ok(Chunks()[id]) else Err(NotFound)
    {
      var found := Lookup(hash, State(), id);
      r := if found.Some? then Ok(found.value) else Err(NotFound);
    }

    /** Create the active segment if need be, and roll to the next one when it is full. */
    method OpenSegment() returns (seg: nat, nextSeg: nat)
      modifies this`segments
      ensures State() == Appended(old(State()), roll, [])
      ensures seg == PutSegment(old(State()), roll) && nextSeg == PutNext(old(State()), roll)
      ensures seg in segments && segments[seg] == PutBase(old(State()), roll)
    {
      ghost var d := State();
      if active !in segments {
        segments := segments[active := []];
      }
      assert State() == Touched(d);
      seg, nextSeg := active, next;
      if |segments[active]| >= roll {
        seg, nextSeg := next, next + 1;
        segments := segments[seg := []];
      }
      assert PutBase(d, roll) + [] == segments[seg];
      assert segments == Touched(d).segments[seg := segments[seg]];
    }

    /** Append one part of a record. */
    method Append(seg: nat, part: seq<byte>, ghost d: Disk, ghost record: seq<byte>, ghost n: nat)
      requires n + |part| <= |record| && part == record[n..n + |part|]
      requires seg == PutSegment(d, roll) && State() == Appended(d, roll, record[..n])
      modifies this`segments
      ensures State() == Appended(d, roll, record[..n + |part|])
    {
      assert PutBase(d, roll) + record[..n] + part == PutBase(d, roll) + record[..n + |part|];
      segments := segments[seg := segments[seg] + part];
    }

    /** Store a chunk. Everything else stays unless the roll truncates a segment in use. */
    method Put(data: seq<byte>) returns (r: Result<Address>)
      requires Valid()
      modifies this
      ensures Valid() && State() == PutEnd(hash, old(State()), roll, data)
      ensures r.Ok? <==> |data| < 0x1_0000_0000
      ensures r.Ok? ==> r.value == hash(data) && hash(data) in Chunks() && Chunks()[hash(data)] == data
      ensures r.Err? ==> r.error == InvalidArg
      ensures AllReadable(hash, old(State())) && (Stored(hash, old(State()), data) || PutGuard(old(State()), roll)) ==>
                && AllReadable(hash, State())
                && Chunks() == if r.Ok? then old(Chunks())[hash(data) := data] else old(Chunks())
    {
      hide Lookup;
      hide Appended;
      hide View;
      var id := hash(data);
      ghost var d := State();
      var existing := Lookup(hash, State(), id);
      if existing == Some(data) {
        StoredLength(hash, d, id);
        StoredAlready(hash, d, data);
        return Ok(id);
      }
      var seg, nextSeg := OpenSegment();
      if |data| >= 0x1_0000_0000 {
        Refused(hash, d, roll);
        return Err(InvalidArg);
      }
      var offset := |segments[seg]|;
      ghost var record := Record(id, data);
      RecordParts(id, data);
      Append(seg, Le32(RECORD_MAGIC), d, record, 0);
      Append(seg, Le32(|data|), d, record, 4);
      Append(seg, id, d, record, 8);
      Append(seg, data, d, record, HEADER);
      index := index[id := IndexEntry(seg, offset, |data|)];
      active, next := seg, nextSeg;
      Completed(hash, d, roll, data);
      r := Ok(id);
    }

    /** Forget a chunk; its bytes stay in their segment. */
    method Delete(id: Address)
      requires Valid()
      modifies this`index
      ensures Valid() && Chunks() == old(Chunks()) - {id}
      ensures AllReadable(hash, old(State())) ==> AllReadable(hash, State())
    {
      DeleteView(hash, State(), id);
      index := index - {id};
    }

    /** Write every chunk with a well-formed record into the new segment file; stop at one that is not its own. */
    method Rewrite(target: nat) returns (ok: bool, file: seq<byte>, entries: map<Address, IndexEntry>)
      requires Valid() && target !in segments
      modifies this`segments
      ensures State() == NewFile(old(State()), target, file)
      ensures ok <==> !Misfiled(hash, old(State()))
      ensures ok ==> entries.Keys == old(Chunks()).Keys && Rewritten(hash, old(State()), target, file, entries)
    {
      hide Lookup;
      hide ReadRecord;
      ghost var d := State();
      var live := set id | id in index && ReadRecord(hash, segments, index[id]).Some?;
      segments := segments[target := []];
      ok, file, entries := true, [], map[];
      var todo := live;
      while todo != {} && ok
        invariant todo <= live && State() == NewFile(d, target, file)
        invariant if ok then entries.Keys == live - todo && Rewritten(hash, d, target, file, entries)
                  else Misfiled(hash, d)
        invariant ok ==> forall id | id in entries :: Lookup(hash, d, id).Some?
        decreases |todo|, ok
      {
        var id :| id in todo;
        NewFileLookup(hash, d, target, file, id);
        var found := Lookup(hash, State(), id);
        if found.None? {
          ok := false;
        } else {
          StoredLength(hash, d, id);
          RewriteOne(hash, d, target, file, entries, id, found.value);
          entries := entries[id := IndexEntry(target, |file|, |found.value|)];
          file := file + Record(id, found.value);
          segments := segments[target := file];
          todo := todo - {id};
        }
      }
      LiveChunks(hash, d, live);
    }

    /** Unlink every segment but the new one, in any order. */
    method Unlink(target: nat)
      requires target in segments
      modifies this`segments
      ensures segments == map[target := old(segments)[target]]
    {
      var all := segments;
      var stale := segments.Keys - {target};
      while stale != {}
        invariant target !in stale && segments.Keys == stale + {target}
        invariant segments[target] == all[target]
        decreases |stale|
      {
        var s :| s in stale;
        stale := stale - {s};
        segments := segments - {s};
      }
    }

    /** Rewrite the live chunks into a fresh segment and unlink the others; a misfiled entry makes it fail. */
    method Compact() returns (r: Result<nat>)
      requires Valid()
      modifies this
      ensures Valid() && Chunks() == old(Chunks())
      ensures r.Ok? <==> !Misfiled(hash, old(State()))
      ensures AllReadable(hash, old(State())) ==> r.Ok?
      ensures r.Ok? ==> AllReadable(hash, State()) && Ahead(State())
      ensures r.Ok? ==> segments.Keys == {active} && r.value == |Chunks()|
      ensures r.Err? ==> r.error == NotFound && index == old(index) && active == old(active) && next == old(next)
    {
      hide Lookup;
      hide View;
      hide Rewritten;
      hide Misfiled;
      hide AllReadable;
      ghost var d := State();
      if AllReadable(hash, d) { ReadableNotMisfiled(hash, d); }
      var target := FreshSegment();
      var ok, file, entries := Rewrite(target);
      if !ok {
        NewFileView(hash, d, target, file);
        return Err(NotFound);
      }
      index, active, next := entries, target, target + 1;
      Unlink(target);
      assert segments == d.segments[target := file] - (d.segments.Keys - {target});
      CompactedView(hash, d, target, file, d.segments.Keys - {target}, entries, State());
      IndexIsView(hash, State());
      ReadableIsPlaced(hash, State());
      r := Ok(|entries|);
    }

    /** The first unused segment number from the counter on. */
    method FreshSegment() returns (target: nat)
      ensures FirstFree(State(), target)
    {
      target := next;
      ghost var left := segments.Keys;
      while target in segments
        invariant next <= target && left == segments.Keys - (set k | k in segments && next <= k < target)
        invariant forall k | next <= k < target :: k in segments
        decreases |left|
      {
        left := left - {target};
        target := target + 1;
      }
    }
  }

  lemma RecordParts(id: Address, data: seq<byte>)
    requires |id| == 32 && |data| < 0x1_0000_0000
    ensures var r := Record(id, data);
            && r[..0] == [] && r[0..4] == Le32(RECORD_MAGIC) && r[4..8] == Le32(|data|)
            && r[8..HEADER] == id && r[HEADER..HEADER + |data|] == data && r[..HEADER + |data|] == r
  {
  }

  lemma StoredLength(hash: seq<byte> -> Address, d: Disk, id: Address)
    requires Lookup(hash, d, id).Some?
    ensures |Lookup(hash, d, id).value| < 0x1_0000_0000
  {
    RecordLength(hash, d.segments, d.index[id]);
  }

  lemma StoredAlready(hash: seq<byte> -> Address, d: Disk, data: seq<byte>)
    requires Lookup(hash, d, hash(data)) == Some(data)
    ensures View(hash, d) == View(hash, d)[hash(data) := data]
  {
    assert hash(data) in d.index;
    hide Lookup;
  }

  /** A refused chunk: at most a roll happened. */
  lemma Refused(hash: seq<byte> -> Address, d: Disk, roll: nat)
    requires Placed(d)
    ensures Placed(Appended(d, roll, []))
    ensures AllReadable(hash, d) && PutGuard(d, roll) ==>
              AllReadable(hash, Appended(d, roll, [])) && View(hash, Appended(d, roll, [])) == View(hash, d)
  {
    hide Lookup;
    hide View;
    if AllReadable(hash, d) && PutGuard(d, roll) { AppendedView(hash, d, roll, []); }
  }

  lemma Completed(hash: seq<byte> -> Address, d: Disk, roll: nat, data: seq<byte>)
    requires Placed(d) && Hashes(hash) && |data| < 0x1_0000_0000
    ensures var d' := PutDone(d, roll, hash(data), data);
            && Placed(d') && hash(data) in View(hash, d') && View(hash, d')[hash(data)] == data
            && (AllReadable(hash, d) && PutGuard(d, roll) ==>
                  AllReadable(hash, d') && View(hash, d') == View(hash, d)[hash(data) := data])
  {
    hide Lookup;
    hide Record;
    PutDoneReads(hash, d, roll, data);
    if AllReadable(hash, d) && PutGuard(d, roll) { PutDoneView(hash, d, roll, data); }
  }

  /** When no entry is misfiled, what can be read is what the map holds. */
  lemma LiveChunks(hash: seq<byte> -> Address, d: Disk, live: set<Address>)
    requires live == set id | id in d.index && ReadRecord(hash, d.segments, d.index[id]).Some?
    ensures (forall id | id in live :: Lookup(hash, d, id).Some?) <==> !Misfiled(hash, d)
    ensures !Misfiled(hash, d) ==> live == View(hash, d).Keys
  {
    assert forall id | id in d.index && Lookup(hash, d, id).Some? :: id in live;
    hide Lookup;
    hide ReadRecord;
  }

  lemma IndexIsView(hash: seq<byte> -> Address, d: Disk)
    requires AllReadable(hash, d)
    ensures View(hash, d).Keys == d.index.Keys && |View(hash, d)| == |d.index|
  {
    assert View(hash, d).Keys == d.index.Keys;
  }

  lemma ReadableIsPlaced(hash: seq<byte> -> Address, d: Disk)
    requires AllReadable(hash, d)
    ensures Placed(d)
  {
    assert forall id | id in d.index && Lookup(hash, d, id).Some? :: d.index[id].segment in d.segments;
    hide Lookup;
  }

  // ---------------------------------------------------------------- runs

  datatype PackOp = PutOp(data: seq<byte>) | DeleteOp(id: Address) | CompactOp(target: nat)

  /** One operation, completed or cut off anywhere. */
  ghost predicate PackStep(hash: seq<byte> -> Address, roll: nat, d: Disk, op: PackOp, d': Disk) {
    match op
    case PutOp(data) => PutCrash(hash, d, roll, data, d')
    case DeleteOp(id) => d' == d || d' == d.(index := d.index - {id})
    case CompactOp(target) => FirstFree(d, target) && CompactCrash(hash, d, target, d')
  }

  /** The same operation on a map: it happens or it does not. */
  predicate MapStep(hash: seq<byte> -> Address, m: map<Address, seq<byte>>, op: PackOp, m': map<Address, seq<byte>>) {
    match op
    case PutOp(data) => m' == m || m' == m[hash(data) := data]
    case DeleteOp(id) => m' == m || m' == m - {id}
    case CompactOp(_) => m' == m
  }

  /** Before the first roll or compaction, a put of a new chunk must not roll while something is stored. */
  ghost predicate Heeded(hash: seq<byte> -> Address, roll: nat, d: Disk, op: PackOp) {
    op.PutOp? && d.active == d.next && d.index != map[] ==> Stored(hash, d, op.data) || !Rolls(d, roll)
  }

  /** A store opened by this code, all of whose chunks can be read. */
  ghost predicate Sound(hash: seq<byte> -> Address, d: Disk) {
    AllReadable(hash, d) && (BeforeFirstRoll(d) || Ahead(d))
  }

  lemma PackStepRefines(hash: seq<byte> -> Address, roll: nat, d: Disk, op: PackOp, d': Disk)
    requires Hashes(hash) && Sound(hash, d) && PackStep(hash, roll, d, op, d') && Heeded(hash, roll, d, op)
    ensures Sound(hash, d') && MapStep(hash, View(hash, d), op, View(hash, d'))
  {
    hide AllReadable;
    hide PutCrash;
    hide CompactCrash;
    hide View;
    hide Stored;
    match op
    case PutOp(data) =>
      if BeforeFirstRoll(d) { EarlyGuard(d, roll); }
      PutCrashSafe(hash, d, roll, data, d');
      PutCounters(hash, d, roll, data, d');
    case DeleteOp(id) => DeleteView(hash, d, id);
    case CompactOp(target) =>
      ReadableIsPlaced(hash, d);
      CompactCrashSafe(hash, d, target, d');
  }

  /**
   From `open` on, any sequence of operations, each possibly cut off, refines the
   same sequence on a map, provided no put rolls an early store that holds something.
   */
  lemma {:induction false} PackRunRefines(hash: seq<byte> -> Address, roll: nat, ds: seq<Disk>, ops: seq<PackOp>)
    requires Hashes(hash) && |ds| == |ops| + 1 && ds[0] == Opened()
    requires forall k | 0 <= k < |ops| :: PackStep(hash, roll, ds[k], ops[k], ds[k+1])
    requires forall k | 0 <= k < |ops| :: Heeded(hash, roll, ds[k], ops[k])
    ensures forall k | 0 <= k < |ds| :: Sound(hash, ds[k])
    ensures forall k | 0 <= k < |ops| :: MapStep(hash, View(hash, ds[k]), ops[k], View(hash, ds[k+1]))
  {
    hide PackStep;
    hide Heeded;
    hide View;
    hide MapStep;
    if |ops| == 0 {
      assert Sound(hash, Opened());
    } else {
      hide Sound;
      var n := |ops| - 1;
      PackRunRefines(hash, roll, ds[..n+1], ops[..n]);
      assert ds[..n+1][n] == ds[n];
      PackStepRefines(hash, roll, ds[n], ops[n], ds[n+1]);
      forall k | 0 <= k < |ds| ensures Sound(hash, ds[k]) {
        if k <= n { assert ds[..n+1][k] == ds[k]; }
      }
      forall k | 0 <= k < |ops| ensures MapStep(hash, View(hash, ds[k]), ops[k], View(hash, ds[k+1])) {
        if k < n { assert ops[..n][k] == ops[k] && ds[..n+1][k] == ds[k] && ds[..n+1][k+1] == ds[k+1]; }
      }
    }
  }

  /** Where a put of such a run is not heeded, it can be cut off with a stored chunk lost. */
  lemma UnheededLoses(hash: seq<byte> -> Address, roll: nat, d: Disk, data: seq<byte>)
    requires Sound(hash, d) && !Heeded(hash, roll, d, PutOp(data))
    ensures exists d' ::
              && PackStep(hash, roll, d, PutOp(data), d')
              && exists id | id in View(hash, d) :: id !in View(hash, d')
  {
    hide Lookup;
    hide View;
    EarlyGuard(d, roll);
    UnguardedLoses(hash, d, roll, data);
    assert PackStep(hash, roll, d, PutOp(data), Appended(d, roll, []));
  }
}
