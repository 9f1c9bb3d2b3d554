/**
 Streaming snapshots: exporting the state and installing the file over any store
 reproduces it, and a file cut short installs nothing.
 */
module Snapshot {
  import opened Types
  import opened Bytes
  import opened MetaTables
  import opened Ledger
  import opened Membership

  /** Everything a snapshot carries: tables, ledger, applied marker, worker membership. */
  datatype Image = Image(t: Tables, ledger: map<OpId, Row>, marker: nat, members: Members)

  datatype SnapRecord =
    | Header(nextInode: InodeId, nextManifest: ManifestId, marker: nat, members: Members)
    | InodeRecord(inode: Inode)
    | DentryRecord(parent: InodeId, name: string, child: InodeId)
    | ManifestRecord(id: ManifestId, manifest: Manifest)
    | XattrRecord(inodeId: InodeId, attr: string, bytes: seq<byte>)
    | PresenceRecord(holder: InodeId, session: string)
    | RequestRecord(op: OpId, row: Row)
    | ReservationRecord(ticket: Ticket, reservation: Reservation)
    | TombstoneRecord(chunk: ChunkId, tombstone: Tombstone)
    | End

  /** "fluxfs-meta-snapshot" and a newline. */
  const MAGIC: seq<byte> :=
    [102, 108, 117, 120, 102, 115, 45, 109, 101, 116, 97, 45, 115, 110, 97, 112, 115, 104, 111, 116, 10]

  const VERSION: nat := 3

  /** A record fits behind a 32-bit length. */
  predicate Fits(encode: SnapRecord -> seq<byte>, r: SnapRecord) {
    |encode(r)| < 0x1_0000_0000
  }

  ghost predicate AllFit(encode: SnapRecord -> seq<byte>, rs: seq<SnapRecord>) {
    forall r | r in rs :: Fits(encode, r)
  }

  /** The codec reads back each of these records, and each fits. */
  ghost predicate Codec(encode: SnapRecord -> seq<byte>, decode: seq<byte> -> Option<SnapRecord>, rs: seq<SnapRecord>) {
    forall r | r in rs :: decode(encode(r)) == Some(r) && Fits(encode, r)
  }

  function Frame(body: seq<byte>): seq<byte>
    requires |body| < 0x1_0000_0000
  {
    Le32(|body|) + body
  }

  ghost function Frames(encode: SnapRecord -> seq<byte>, rs: seq<SnapRecord>): seq<byte>
    requires AllFit(encode, rs)
  {
    if rs == [] then []
    else
      assert Fits(encode, rs[0]);
      Frame(encode(rs[0])) + Frames(encode, rs[1..])
  }

  /** Position of a listed record. */
  function Position(rs: seq<SnapRecord>, r: SnapRecord): (k: nat)
    requires r in rs
    ensures k < |rs| && rs[k] == r
  {
    if rs[0] == r then 0 else 1 + Position(rs[1..], r)
  }

  /** Any list of up to 2^32 records has a codec: number them. */
  lemma CodecExists(rs: seq<SnapRecord>)
    requires |rs| <= 0x1_0000_0000
    ensures exists encode: SnapRecord -> seq<byte>, decode: seq<byte> -> Option<SnapRecord> :: Codec(encode, decode, rs)
  {
    var encode := (r: SnapRecord) => if r in rs then Le32(Position(rs, r)) else [];
    var decode := (b: seq<byte>) => if |b| == 4 && FromLe32(b) < |rs| then Some(rs[FromLe32(b)]) else None;
    forall r | r in rs ensures decode(encode(r)) == Some(r) && Fits(encode, r) {
      Le32RoundTrip(Position(rs, r));
    }
    assert Codec(encode, decode, rs);
  }

  // --------------------------------------------------------------- reading

  /** What is left of reading one record off the front of a stream. */
  datatype Next = NoMore | Broken(error: FluxError) | Got(record: SnapRecord, rest: seq<byte>)

  function ReadRecord(decode: seq<byte> -> Option<SnapRecord>, b: seq<byte>): (r: Next)
    ensures r.Got? ==> |r.rest| < |b|
  {
    if |b| < 4 then NoMore
    else
      var len := FromLe32(b[..4]);
      if |b| < 4 + len then Broken(Io)
      else match decode(b[4..4 + len])
        case None => Broken(FluxError.Meta)
        case Some(record) => Got(record, b[4 + len..])
  }

  /** One record goes into the image. */
  function Insert(i: Image, r: SnapRecord): Result<Image> {
    match r
    case Header(n, m, marker, members) =>
      Ok(i.(t := i.t.(nextInode := n, nextManifest := m), marker := marker, members := members))
    case InodeRecord(inode) => Ok(i.(t := i.t.(inodes := i.t.inodes[inode.id := inode])))
    case DentryRecord(p, name, c) => Ok(i.(t := i.t.(dentries := i.t.dentries[(p, name) := c])))
    case ManifestRecord(id, m) => Ok(i.(t := i.t.(manifests := i.t.manifests[id := m])))
    case XattrRecord(id, name, v) => Ok(i.(t := i.t.(xattrs := i.t.xattrs[(id, name) := v])))
    case PresenceRecord(id, session) =>
      if BadSession(session) then Err(InvalidArg)
      else Ok(i.(t := i.t.(presences := i.t.presences + {(id, session)})))
    case RequestRecord(op, row) => Ok(i.(ledger := i.ledger[op := row]))
    case ReservationRecord(k, v) => Ok(i.(t := i.t.(reservations := i.t.reservations[k := v])))
    case TombstoneRecord(k, v) => Ok(i.(t := i.t.(tombstones := i.t.tombstones[k := v])))
    case End => Ok(i)
  }

  /** A zero stamp is read as a row of the old format and filled in. */
  function Restamped(row: Row, now: nat): Row {
    var created := if row.created == 0 then now else row.created;
    Row(created, if row.expires == 0 then created + RETENTION_MS else row.expires, row.response)
  }

  function Fresh(r: SnapRecord, now: nat): SnapRecord {
    if r.RequestRecord? then r.(row := Restamped(r.row, now)) else r
  }

  function Load(i: Image, r: SnapRecord, now: nat): Result<Image> {
    Insert(i, Fresh(r, now))
  }

  const EMPTY: Image := Image(Tables(map[], map[], map[], map[], map[], map[], {}, 0, 0), map[], 0, Members(0, []))

  /** Read records into an image until the end record. */
  function Consume(decode: seq<byte> -> Option<SnapRecord>, b: seq<byte>, i: Image, header: bool,
                   now: nat): Result<Image>
    decreases |b|
  {
    match ReadRecord(decode, b)
    case NoMore => Err(FluxError.Meta)
    case Broken(e) => Err(e)
    case Got(r, rest) =>
      if r == End then (if header then Ok(i) else Err(FluxError.Meta))
      else match Load(i, r, now)
        case Err(e) => Err(e)
        case Ok(j) => Consume(decode, rest, j, header || r.Header?, now)
  }

  /** Installing a file: the image it holds, or an error and no change. */
  function Installed(decode: seq<byte> -> Option<SnapRecord>, b: seq<byte>, now: nat): Result<Image> {
    if |b| < |MAGIC| || b[..|MAGIC|] != MAGIC then Err(FluxError.Meta)
    else if |b| < |MAGIC| + 4 then Err(Io)
    else
      var version := FromLe32(b[|MAGIC|..|MAGIC| + 4]);
      if version < 1 || version > VERSION then Err(FluxError.Meta)
      else Consume(decode, b[|MAGIC| + 4..], EMPTY, false, now)
  }

  /** A store installs snapshots in place: all of it in one transaction, or nothing. */
  class SnapshotTarget {
    var image: Image

    method Install(decode: seq<byte> -> Option<SnapRecord>, b: seq<byte>, now: nat) returns (r: Result<nat>)
      modifies this
      ensures r.Ok? <==> Installed(decode, b, now).Ok?
      ensures r.Ok? ==> image == Installed(decode, b, now).value && r.value == image.marker
      ensures r.Err? ==> image == old(image) && r.error == Installed(decode, b, now).error
    {
      if |b| < |MAGIC| || b[..|MAGIC|] != MAGIC {
        return Err(FluxError.Meta);
      }
      if |b| < |MAGIC| + 4 {
        return Err(Io);
      }
      var version := FromLe32(b[|MAGIC|..|MAGIC| + 4]);
      if version < 1 || version > VERSION {
        return Err(FluxError.Meta);
      }
      var rest, next, header, ended := b[|MAGIC| + 4..], EMPTY, false, false;
      while !ended
        invariant Installed(decode, b, now) ==
                  if ended then (if header then Ok(next) else Err(FluxError.Meta))
                  else Consume(decode, rest, next, header, now)
        decreases !ended, |rest|
      {
        match ReadRecord(decode, rest) {
          case NoMore => return Err(FluxError.Meta);
          case Broken(e) => return Err(e);
          case Got(record, more) =>
            if record == End {
              ended := true;
            } else {
              var loaded := Load(next, record, now);
              if loaded.Err? {
                return Err(loaded.error);
              }
              next, rest, header := loaded.value, more, header || record.Header?;
            }
        }
      }
      if !header {
        return Err(FluxError.Meta);
      }
      image := next;
      r := Ok(next.marker);
    }
  }

  // ------------------------------------------------------------- truncation

  /** A framed record reads back, leaving the rest of the stream. */
  lemma FrameReads(encode: SnapRecord -> seq<byte>, decode: seq<byte> -> Option<SnapRecord>, r: SnapRecord,
                   rest: seq<byte>)
    requires Fits(encode, r)
    ensures ReadRecord(decode, Frame(encode(r)) + rest) ==
            match decode(encode(r)) case None => Broken(FluxError.Meta) case Some(q) => Got(q, rest)
  {
    var body := encode(r);
    var b := Frame(body) + rest;
    Le32RoundTrip(|body|);
    assert b[..4] == Le32(|body|);
    assert b[4..4 + |body|] == body;
    assert b[4 + |body|..] == rest;
  }

  lemma CutFrame(encode: SnapRecord -> seq<byte>, decode: seq<byte> -> Option<SnapRecord>, r: SnapRecord, p: seq<byte>)
    requires Fits(encode, r) && p < Frame(encode(r))
    ensures !ReadRecord(decode, p).Got?
  {
    var body := encode(r);
    Le32RoundTrip(|body|);
    if |p| >= 4 {
      assert p[..4] == Frame(body)[..4] == Le32(|body|);
    }
  }

  /** Only the last record is the end record. */
  ghost predicate EndsOnce(rs: seq<SnapRecord>) {
    rs != [] && rs[|rs|-1] == End && forall i | 0 <= i < |rs| - 1 :: rs[i] != End
  }

  /** A stream of records cut anywhere installs nothing. */
  lemma {:induction false} CutStream(encode: SnapRecord -> seq<byte>, decode: seq<byte> -> Option<SnapRecord>,
                                    rs: seq<SnapRecord>, p: seq<byte>, i: Image, header: bool, now: nat)
    requires Codec(encode, decode, rs) && EndsOnce(rs) && p < Frames(encode, rs)
    ensures Consume(decode, p, i, header, now).Err?
    decreases |rs|
  {
    assert decode(encode(rs[0])) == Some(rs[0]) && Fits(encode, rs[0]);
    assert forall r | r in rs[1..] :: r in rs;
    var f := Frame(encode(rs[0]));
    if |p| < |f| {
      assert p == Frames(encode, rs)[..|p|] == f[..|p|];
      CutFrame(encode, decode, rs[0], p);
    } else {
      var q := p[|f|..];
      assert p[..|f|] == Frames(encode, rs)[..|f|] == f;
      assert p == f + q;
      FrameReads(encode, decode, rs[0], q);
      if rs[0] != End {
        var tail := Frames(encode, rs[1..]);
        assert Frames(encode, rs)[|f|..] == tail;
        assert q <= tail && q != tail;
        match Load(i, rs[0], now)
        case Err(e) =>
        case Ok(j) => CutStream(encode, decode, rs[1..], q, j, header || rs[0].Header?, now);
      }
    }
  }

  // -------------------------------------------------------------- round trip

  /** The record is a row of the image. */
  predicate RowOf(s: Image, r: SnapRecord) {
    match r
    case InodeRecord(inode) => inode.id in s.t.inodes && s.t.inodes[inode.id] == inode
    case DentryRecord(p, name, c) => (p, name) in s.t.dentries && s.t.dentries[(p, name)] == c
    case ManifestRecord(id, m) => id in s.t.manifests && s.t.manifests[id] == m
    case XattrRecord(id, name, v) => (id, name) in s.t.xattrs && s.t.xattrs[(id, name)] == v
    case PresenceRecord(id, session) => (id, session) in s.t.presences
    case RequestRecord(op, row) => op in s.ledger && s.ledger[op] == row
    case ReservationRecord(k, v) => k in s.t.reservations && s.t.reservations[k] == v
    case TombstoneRecord(k, v) => k in s.t.tombstones && s.t.tombstones[k] == v
    case _ => false
  }

  /** What a store always satisfies: records under their own id, sessions checked when they open. */
  ghost predicate WellFormed(s: Image) {
    && (forall k | k in s.t.inodes :: s.t.inodes[k].id == k)
    && (forall p | p in s.t.presences :: !BadSession(p.1))
  }

  ghost predicate Stamped(s: Image) {
    forall k | k in s.ledger :: s.ledger[k].created != 0 && s.ledger[k].expires != 0
  }

  /** The image with the zero stamps of its ledger filled in. */
  function Refreshed(s: Image, now: nat): Image {
    s.(ledger := map k | k in s.ledger :: Restamped(s.ledger[k], now))
  }

  function FreshAll(rs: seq<SnapRecord>, now: nat): (fs: seq<SnapRecord>)
    ensures |fs| == |rs| && forall k | 0 <= k < |rs| :: fs[k] == Fresh(rs[k], now)
  {
    seq(|rs|, k requires 0 <= k < |rs| => Fresh(rs[k], now))
  }

  ghost predicate Submap<K, V>(a: map<K, V>, b: map<K, V>) {
    forall k | k in a :: k in b && a[k] == b[k]
  }

  /** Every row of `a` is a row of `b`. */
  ghost predicate RowsWithin(a: Image, b: Image) {
    && Submap(a.t.inodes, b.t.inodes) && Submap(a.t.dentries, b.t.dentries) && Submap(a.t.manifests, b.t.manifests)
    && Submap(a.t.xattrs, b.t.xattrs) && a.t.presences <= b.t.presences && Submap(a.ledger, b.ledger)
    && Submap(a.t.reservations, b.t.reservations) && Submap(a.t.tombstones, b.t.tombstones)
  }

  lemma SubmapGrows<K, V>(a: map<K, V>, b: map<K, V>, k: K, v: V)
    requires Submap(a, b) && k in b && b[k] == v
    ensures Submap(a[k := v], b)
  {
  }

  ghost predicate SameHeader(a: Image, b: Image) {
    && a.t.nextInode == b.t.nextInode && a.t.nextManifest == b.t.nextManifest
    && a.marker == b.marker && a.members == b.members
  }

  /** Inserting a row of `s` into a part of `s` gives a larger part of `s`. */
  lemma InsertWithin(i: Image, s: Image, r: SnapRecord)
    requires WellFormed(s) && RowsWithin(i, s) && RowOf(s, r)
    ensures Insert(i, r).Ok? && RowsWithin(Insert(i, r).value, s) && RowOf(Insert(i, r).value, r)
    ensures SameHeader(Insert(i, r).value, i)
  {
    hide Submap;
    hide BadSession;
    InsertOk(i, s, r);
    match r
    case InodeRecord(inode) => SubmapGrows(i.t.inodes, s.t.inodes, inode.id, inode);
    case DentryRecord(p, name, c) => SubmapGrows(i.t.dentries, s.t.dentries, (p, name), c);
    case ManifestRecord(id, m) => SubmapGrows(i.t.manifests, s.t.manifests, id, m);
    case XattrRecord(id, name, v) => SubmapGrows(i.t.xattrs, s.t.xattrs, (id, name), v);
    case PresenceRecord(id, session) =>
    case RequestRecord(op, row) => SubmapGrows(i.ledger, s.ledger, op, row);
    case ReservationRecord(k, v) => SubmapGrows(i.t.reservations, s.t.reservations, k, v);
    case TombstoneRecord(k, v) => SubmapGrows(i.t.tombstones, s.t.tombstones, k, v);
  }

  lemma InsertOk(i: Image, s: Image, r: SnapRecord)
    requires WellFormed(s) && RowOf(s, r)
    ensures Insert(i, r).Ok? && RowOf(Insert(i, r).value, r) && SameHeader(Insert(i, r).value, i)
  {
    hide BadSession;
  }

  lemma InsertKeepsRow(i: Image, s: Image, r: SnapRecord, q: SnapRecord)
    requires WellFormed(s) && RowOf(s, r) && RowOf(s, q) && RowOf(i, q)
    ensures Insert(i, r).Ok? && RowOf(Insert(i, r).value, q)
  {
    hide BadSession;
  }

  /** Each row of `s` is loaded or still to come. */
  ghost predicate Covered(s: Image, i: Image, rs: seq<SnapRecord>) {
    forall r | RowOf(s, r) :: RowOf(i, r) || r in rs
  }

  lemma CoveredStep(s: Image, i: Image, rs: seq<SnapRecord>)
    requires WellFormed(s) && RowsWithin(i, s) && rs != [] && RowOf(s, rs[0]) && Covered(s, i, rs)
    ensures Insert(i, rs[0]).Ok? && Covered(s, Insert(i, rs[0]).value, rs[1..])
  {
    hide Insert;
    hide WellFormed;
    hide RowsWithin;
    InsertWithin(i, s, rs[0]);
    var j := Insert(i, rs[0]).value;
    forall r | RowOf(s, r) ensures RowOf(j, r) || r in rs[1..] {
      if RowOf(i, r) { InsertKeepsRow(i, s, rs[0], r); }
    }
  }

  lemma AllTables(i: Image, s: Image)
    requires WellFormed(s) && RowsWithin(i, s) && Covered(s, i, [])
    ensures i.t.inodes == s.t.inodes && i.t.dentries == s.t.dentries && i.t.manifests == s.t.manifests
    ensures i.t.xattrs == s.t.xattrs && i.t.presences == s.t.presences
  {
    forall k | k in s.t.inodes ensures k in i.t.inodes { assert RowOf(s, InodeRecord(s.t.inodes[k])); }
    forall k | k in s.t.dentries ensures k in i.t.dentries {
      assert RowOf(s, DentryRecord(k.0, k.1, s.t.dentries[k]));
    }
    forall k | k in s.t.manifests ensures k in i.t.manifests { assert RowOf(s, ManifestRecord(k, s.t.manifests[k])); }
    forall k | k in s.t.xattrs ensures k in i.t.xattrs { assert RowOf(s, XattrRecord(k.0, k.1, s.t.xattrs[k])); }
    forall p | p in s.t.presences ensures p in i.t.presences { assert RowOf(s, PresenceRecord(p.0, p.1)); }
  }

  lemma AllLedgers(i: Image, s: Image)
    requires RowsWithin(i, s) && Covered(s, i, [])
    ensures i.ledger == s.ledger && i.t.reservations == s.t.reservations && i.t.tombstones == s.t.tombstones
  {
    forall k | k in s.ledger ensures k in i.ledger { assert RowOf(s, RequestRecord(k, s.ledger[k])); }
    forall k | k in s.t.reservations ensures k in i.t.reservations {
      assert RowOf(s, ReservationRecord(k, s.t.reservations[k]));
    }
    forall k | k in s.t.tombstones ensures k in i.t.tombstones {
      assert RowOf(s, TombstoneRecord(k, s.t.tombstones[k]));
    }
  }

  /** Consuming rows that come out as the missing rows of `s` completes `s`. */
  lemma {:induction false} ConsumeRows(encode: SnapRecord -> seq<byte>, decode: seq<byte> -> Option<SnapRecord>,
                                      rs: seq<SnapRecord>, i: Image, s: Image, now: nat)
    requires Codec(encode, decode, rs) && WellFormed(s) && EndsOnce(rs)
    requires forall k | 0 <= k < |rs| - 1 :: RowOf(s, Fresh(rs[k], now))
    requires RowsWithin(i, s) && SameHeader(i, s) && Covered(s, i, FreshAll(rs, now))
    ensures Consume(decode, Frames(encode, rs), i, true, now) == Ok(s)
    decreases |rs|
  {
    hide RowsWithin;
    hide RowOf;
    hide WellFormed;
    hide Fresh;
    hide Frame;
    hide Covered;
    hide Insert;
    CodecTail(encode, decode, rs);
    FrameReads(encode, decode, rs[0], Frames(encode, rs[1..]));
    if |rs| == 1 {
      NothingLeft(s, i, rs, now);
      AllTables(i, s);
      AllLedgers(i, s);
    } else {
      assert FreshAll(rs, now)[1..] == FreshAll(rs[1..], now);
      CoveredStep(s, i, FreshAll(rs, now));
      InsertWithin(i, s, Fresh(rs[0], now));
      ConsumeRows(encode, decode, rs[1..], Load(i, rs[0], now).value, s, now);
    }
  }

  lemma CodecTail(encode: SnapRecord -> seq<byte>, decode: seq<byte> -> Option<SnapRecord>, rs: seq<SnapRecord>)
    requires Codec(encode, decode, rs) && rs != []
    ensures decode(encode(rs[0])) == Some(rs[0]) && Fits(encode, rs[0]) && Codec(encode, decode, rs[1..])
    ensures AllFit(encode, rs) && AllFit(encode, rs[1..])
  {
    assert forall r | r in rs[1..] :: r in rs;
  }

  lemma NothingLeft(s: Image, i: Image, rs: seq<SnapRecord>, now: nat)
    requires rs == [End] && Covered(s, i, FreshAll(rs, now))
    ensures Covered(s, i, [])
  {
    assert FreshAll(rs, now) == [End];
  }

  /** A file as `export_snapshot_to_path` writes it. */
  ghost function FileOf(encode: SnapRecord -> seq<byte>, rs: seq<SnapRecord>): seq<byte>
    requires AllFit(encode, rs)
  {
    MAGIC + Le32(VERSION) + Frames(encode, rs)
  }

  function HeaderOf(s: Image): SnapRecord {
    Header(s.t.nextInode, s.t.nextManifest, s.marker, s.members)
  }

  /** The records of an export: the header, every row in some order, the end. */
  ghost predicate Exports(s: Image, rs: seq<SnapRecord>) {
    && |rs| >= 2 && rs[0] == HeaderOf(s)
    && EndsOnce(rs[1..])
    && (forall k | 0 < k < |rs| - 1 :: RowOf(s, rs[k]))
    && (forall r | RowOf(s, r) :: r in rs[1..])
  }

  /** The rows of an export, filled in, are the rows of the image, filled in. */
  lemma FreshRows(s: Image, rs: seq<SnapRecord>, now: nat)
    requires WellFormed(s) && Exports(s, rs)
    ensures WellFormed(Refreshed(s, now))
    ensures forall k | 0 < k < |rs| - 1 :: RowOf(Refreshed(s, now), Fresh(rs[k], now))
    ensures Covered(Refreshed(s, now), EMPTY, FreshAll(rs[1..], now))
  {
    hide BadSession;
    hide Restamped;
    forall q | RowOf(Refreshed(s, now), q) ensures q in FreshAll(rs[1..], now) {
      var r := if q.RequestRecord? then RequestRecord(q.op, s.ledger[q.op]) else q;
      assert RowOf(s, r) && Fresh(r, now) == q;
      assert r in rs[1..];
      var k :| 0 <= k < |rs[1..]| && rs[1..][k] == r;
      assert FreshAll(rs[1..], now)[k] == q;
    }
  }

  /** Installing an export reproduces every table, and the ledger with its zero stamps filled in. */
  lemma RoundTrip(encode: SnapRecord -> seq<byte>, decode: seq<byte> -> Option<SnapRecord>, s: Image,
                  rs: seq<SnapRecord>, now: nat)
    requires WellFormed(s) && Exports(s, rs) && Codec(encode, decode, rs)
    ensures AllFit(encode, rs) && Installed(decode, FileOf(encode, rs), now) == Ok(Refreshed(s, now))
  {
    hide RowOf;
    hide WellFormed;
    hide Frame;
    CodecTail(encode, decode, rs);
    var b := FileOf(encode, rs);
    Le32RoundTrip(VERSION);
    assert b[..|MAGIC|] == MAGIC;
    assert b[|MAGIC|..|MAGIC| + 4] == Le32(VERSION);
    assert b[|MAGIC| + 4..] == Frames(encode, rs);
    FrameReads(encode, decode, rs[0], Frames(encode, rs[1..]));
    FreshRows(s, rs, now);
    var i := Load(EMPTY, rs[0], now).value;
    HeaderAlone(s, i, FreshAll(rs[1..], now), now);
    hide Covered;
    forall k | 0 <= k < |rs[1..]| - 1 ensures RowOf(Refreshed(s, now), Fresh(rs[1..][k], now)) {
      assert rs[1..][k] == rs[k+1];
    }
    ConsumeRows(encode, decode, rs[1..], i, Refreshed(s, now), now);
  }

  lemma HeaderAlone(s: Image, i: Image, fs: seq<SnapRecord>, now: nat)
    requires Load(EMPTY, HeaderOf(s), now) == Ok(i) && Covered(Refreshed(s, now), EMPTY, fs)
    ensures RowsWithin(i, Refreshed(s, now)) && SameHeader(i, Refreshed(s, now)) && Covered(Refreshed(s, now), i, fs)
  {
  }

  /** A row without a creation time is created now, and one without an expiry lasts a day from its creation. */
  lemma RefreshedMeans(s: Image, now: nat, k: OpId)
    requires k in s.ledger
    ensures var i := Refreshed(s, now);
            && i == s.(ledger := i.ledger) && i.ledger.Keys == s.ledger.Keys
            && i.ledger[k].response == s.ledger[k].response
            && i.ledger[k].created == (if s.ledger[k].created == 0 then now else s.ledger[k].created)
            && i.ledger[k].expires == (if s.ledger[k].expires != 0 then s.ledger[k].expires
                                       else if s.ledger[k].created == 0 then now + 86_400_000
                                       else s.ledger[k].created + 86_400_000)
  {
  }

  /** Over export and install the store is the same exactly when no ledger row carries a zero stamp. */
  lemma RoundTripExactIff(encode: SnapRecord -> seq<byte>, decode: seq<byte> -> Option<SnapRecord>, s: Image,
                          rs: seq<SnapRecord>, now: nat)
    requires WellFormed(s) && Exports(s, rs) && Codec(encode, decode, rs) && now > 0
    ensures AllFit(encode, rs) && (Installed(decode, FileOf(encode, rs), now) == Ok(s) <==> Stamped(s))
  {
    hide Installed;
    hide FileOf;
    hide WellFormed;
    hide Exports;
    hide Codec;
    RoundTrip(encode, decode, s, rs, now);
    if Stamped(s) {
      assert Refreshed(s, now).ledger == s.ledger;
    } else {
      var k :| k in s.ledger && (s.ledger[k].created == 0 || s.ledger[k].expires == 0);
      assert Refreshed(s, now).ledger[k] != s.ledger[k];
    }
  }

  /** Any strict prefix of an export installs nothing. */
  lemma CutFileFails(encode: SnapRecord -> seq<byte>, decode: seq<byte> -> Option<SnapRecord>, s: Image,
                     rs: seq<SnapRecord>, p: seq<byte>, now: nat)
    requires Exports(s, rs) && Codec(encode, decode, rs) && p < FileOf(encode, rs)
    ensures Installed(decode, p, now).Err?
  {
    hide RowOf;
    hide Frame;
    CodecTail(encode, decode, rs);
    var b := FileOf(encode, rs);
    assert p == b[..|p|];
    if |p| >= |MAGIC| + 4 {
      var q := p[|MAGIC| + 4..];
      assert b[|MAGIC| + 4..] == Frames(encode, rs);
      assert q < Frames(encode, rs) by { assert q == Frames(encode, rs)[..|q|]; }
      WholeEndsOnce(s, rs);
      CutStream(encode, decode, rs, q, EMPTY, false, now);
    }
  }

  /** Another magic or another version than 1 to 3 is refused before anything is read. */
  lemma ForeignFileFails(decode: seq<byte> -> Option<SnapRecord>, b: seq<byte>, now: nat)
    ensures !(MAGIC <= b) ==> Installed(decode, b, now) == Err(FluxError.Meta)
    ensures MAGIC <= b && |b| < |MAGIC| + 4 ==> Installed(decode, b, now) == Err(Io)
    ensures MAGIC <= b && |b| >= |MAGIC| + 4 ==>
              var v := b[|MAGIC|..];
              var version := v[0] as nat + 256 * (v[1] as nat) + 65536 * (v[2] as nat) + 16777216 * (v[3] as nat);
              version !in {1, 2, 3} ==> Installed(decode, b, now) == Err(FluxError.Meta)
  {
    hide Consume;
    if MAGIC <= b && |b| >= |MAGIC| + 4 {
      var v := b[|MAGIC|..];
      assert b[|MAGIC|..|MAGIC| + 4] == v[..4];
    }
  }

  /** A stream without a header is refused at its end. */
  lemma {:induction false} HeaderlessFails(encode: SnapRecord -> seq<byte>, decode: seq<byte> -> Option<SnapRecord>,
                                          rs: seq<SnapRecord>, i: Image, now: nat)
    requires Codec(encode, decode, rs) && EndsOnce(rs) && forall r | r in rs :: !r.Header?
    ensures AllFit(encode, rs) && Consume(decode, Frames(encode, rs), i, false, now).Err?
    decreases |rs|
  {
    hide Frame;
    hide Insert;
    hide Fresh;
    CodecTail(encode, decode, rs);
    FrameReads(encode, decode, rs[0], Frames(encode, rs[1..]));
    assert rs[0] in rs;
    if |rs| > 1 {
      assert forall r | r in rs[1..] :: r in rs;
      match Load(i, rs[0], now)
      case Err(e) =>
      case Ok(j) => HeaderlessFails(encode, decode, rs[1..], j, now);
    }
  }

  lemma WholeEndsOnce(s: Image, rs: seq<SnapRecord>)
    requires Exports(s, rs)
    ensures EndsOnce(rs)
  {
    forall k | 0 <= k < |rs| - 1 ensures rs[k] != End { if k > 0 { assert RowOf(s, rs[k]); } }
  }

  // ---------------------------------------------------------------- export

  /** One record per key of a table. */
  method TableRows<K(==)>(keys: set<K>, row: K --> SnapRecord) returns (rs: seq<SnapRecord>)
    requires forall k | k in keys :: row.requires(k)
    ensures forall k | k in keys :: row(k) in rs
    ensures forall r | r in rs :: exists k | k in keys :: r == row(k)
  {
    rs := [];
    var todo := keys;
    while todo != {}
      invariant todo <= keys
      invariant forall k | k in keys && k !in todo :: row(k) in rs
      invariant forall r | r in rs :: exists k | k in keys :: r == row(k)
      decreases |todo|
    {
      var k :| k in todo;
      rs := rs + [row(k)];
      todo := todo - {k};
    }
  }

  /** The rows of the name space: inodes, names, manifests, attributes. */
  method NameRows(s: Image) returns (rows: seq<SnapRecord>)
    requires WellFormed(s)
    ensures forall r | r in rows :: RowOf(s, r)
    ensures forall r | RowOf(s, r) && (r.InodeRecord? || r.DentryRecord? || r.ManifestRecord? || r.XattrRecord?) ::
              r in rows
  {
    hide BadSession;
    var t := s.t;
    var a := TableRows(t.inodes.Keys, k requires k in t.inodes => InodeRecord(t.inodes[k]));
    var b := TableRows(t.dentries.Keys, k requires k in t.dentries => DentryRecord(k.0, k.1, t.dentries[k]));
    var c := TableRows(t.manifests.Keys, k requires k in t.manifests => ManifestRecord(k, t.manifests[k]));
    var d := TableRows(t.xattrs.Keys, k requires k in t.xattrs => XattrRecord(k.0, k.1, t.xattrs[k]));
    rows := a + b + c + d;
  }

  /** The rows of handles, ledger, reservations and tombstones. */
  method OtherRows(s: Image) returns (rows: seq<SnapRecord>)
    ensures forall r | r in rows :: RowOf(s, r)
    ensures forall r | RowOf(s, r) && !(r.InodeRecord? || r.DentryRecord? || r.ManifestRecord? || r.XattrRecord?) ::
              r in rows
  {
    var t := s.t;
    var a := TableRows(t.presences, (k: Presence) => PresenceRecord(k.0, k.1));
    var b := TableRows(s.ledger.Keys, k requires k in s.ledger => RequestRecord(k, s.ledger[k]));
    var c := TableRows(t.reservations.Keys, k requires k in t.reservations => ReservationRecord(k, t.reservations[k]));
    var d := TableRows(t.tombstones.Keys, k requires k in t.tombstones => TombstoneRecord(k, t.tombstones[k]));
    rows := a + b + c + d;
  }

  lemma {:induction false} FramesAppend(encode: SnapRecord -> seq<byte>, rs: seq<SnapRecord>, r: SnapRecord)
    requires AllFit(encode, rs) && Fits(encode, r)
    ensures AllFit(encode, rs + [r]) && Frames(encode, rs + [r]) == Frames(encode, rs) + Frame(encode(r))
  {
    if rs == [] {
      assert ([] + [r])[1..] == [];
    } else {
      assert (rs + [r])[1..] == rs[1..] + [r];
      FramesAppend(encode, rs[1..], r);
    }
  }

  /** Magic and version, then each record behind its length; a record too long for it ends the export. */
  method WriteFrames(encode: SnapRecord -> seq<byte>, rs: seq<SnapRecord>) returns (b: Result<seq<byte>>)
    ensures b.Ok? <==> AllFit(encode, rs)
    ensures b.Ok? ==> b.value == FileOf(encode, rs)
    ensures b.Err? ==> b.error == FluxError.Meta
  {
    hide Frame;
    var w := MAGIC + Le32(VERSION);
    for k := 0 to |rs|
      invariant AllFit(encode, rs[..k]) && w == MAGIC + Le32(VERSION) + Frames(encode, rs[..k])
    {
      if !Fits(encode, rs[k]) {
        return Err(FluxError.Meta);
      }
      assert rs[..k+1] == rs[..k] + [rs[k]];
      FramesAppend(encode, rs[..k], rs[k]);
      w := w + Frame(encode(rs[k]));
    }
    assert rs[..|rs|] == rs;
    b := Ok(w);
  }

  /** Every record an export of the image has to write fits. */
  ghost predicate Exportable(encode: SnapRecord -> seq<byte>, s: Image) {
    Fits(encode, HeaderOf(s)) && Fits(encode, End) && forall r | RowOf(s, r) :: Fits(encode, r)
  }

  /** Write the header, every row and the end record; one that is too long fails the export. */
  method Export(encode: SnapRecord -> seq<byte>, s: Image) returns (b: Result<seq<byte>>)
    requires WellFormed(s)
    ensures b.Ok? <==> Exportable(encode, s)
    ensures b.Ok? ==> exists rs :: Exports(s, rs) && AllFit(encode, rs) && b.value == FileOf(encode, rs)
    ensures b.Err? ==> b.error == FluxError.Meta
  {
    hide RowOf;
    hide Fits;
    hide FileOf;
    hide WellFormed;
    var names := NameRows(s);
    var others := OtherRows(s);
    var rows := names + others;
    var all := [HeaderOf(s)] + rows + [End];
    b := WriteFrames(encode, all);
    ExportsAll(s, rows, all);
    assert AllFit(encode, all) <==> Exportable(encode, s);
  }

  lemma ExportsAll(s: Image, rows: seq<SnapRecord>, all: seq<SnapRecord>)
    requires all == [HeaderOf(s)] + rows + [End]
    requires (forall r | r in rows :: RowOf(s, r)) && (forall r | RowOf(s, r) :: r in rows)
    ensures Exports(s, all)
  {
    assert all[1..] == rows + [End];
    forall k | 0 < k < |all| - 1 ensures RowOf(s, all[k]) { assert all[k] == rows[k-1]; }
    forall k | 0 <= k < |rows| ensures rows[k] != End { assert RowOf(s, rows[k]); }
  }

  /** The whole trip can be made: some export of any image of under 2^32 rows has a codec. */
  lemma TripExists(s: Image, rs: seq<SnapRecord>, now: nat)
    requires WellFormed(s) && Exports(s, rs) && |rs| <= 0x1_0000_0000
    ensures exists encode: SnapRecord -> seq<byte>, decode: seq<byte> -> Option<SnapRecord> ::
              && Codec(encode, decode, rs) && AllFit(encode, rs)
              && Installed(decode, FileOf(encode, rs), now) == Ok(Refreshed(s, now))
  {
    hide WellFormed;
    hide Exports;
    hide Installed;
    hide FileOf;
    hide Fits;
    CodecExists(rs);
    var encode: SnapRecord -> seq<byte>, decode: seq<byte> -> Option<SnapRecord> :| Codec(encode, decode, rs);
    RoundTrip(encode, decode, s, rs, now);
  }
}
