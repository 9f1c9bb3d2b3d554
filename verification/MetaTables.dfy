/**
 The metadata tables and what each replicated request does to them.

 A request runs inside one write transaction which is committed even when the
 request returns a typed error (crates/meta/src/heed_store.rs:792-801), so every
 operation here returns the tables it leaves behind next to its result: an error
 that is raised halfway through an operation carries the half-made changes.
 */
module MetaTables {
  import opened Types

  type DentryKey = (InodeId, string)
  type XattrKey = (InodeId, string)
  type Presence = (InodeId, string)

  /** A write ticket; `chunks` is sorted and de-duplicated in the source. */
  datatype Reservation = Reservation(
    inode: InodeId, expectedGeneration: nat, chunks: set<ChunkId>, expiresAt: nat)

  datatype Tombstone = Tombstone(initialized: bool, pending: set<TargetId>)

  datatype Tables = Tables(
    inodes: map<InodeId, Inode>,
    dentries: map<DentryKey, InodeId>,
    manifests: map<ManifestId, Manifest>,
    xattrs: map<XattrKey, seq<byte>>,
    reservations: map<Ticket, Reservation>,
    tombstones: map<ChunkId, Tombstone>,
    presences: set<Presence>,
    nextInode: InodeId,
    nextManifest: ManifestId)

  /** The tables an operation leaves behind, and its result. */
  datatype Outcome<+T> = Outcome(tables: Tables, result: Result<T>)

  datatype XattrMode = Upsert | CreateOnly | ReplaceOnly

  datatype Request =
    | Create(parent: InodeId, name: string, fileType: FileType, mode: nat, uid: nat, gid: nat,
             expParent: Option<nat>)
    | MakeSymlink(parent: InodeId, name: string, target: string, uid: nat, gid: nat, expParent: Option<nat>)
    | Link(id: InodeId, parent: InodeId, name: string, expParent: Option<nat>)
    | Unlink(parent: InodeId, name: string, expParent: Option<nat>)
    | Rmdir(parent: InodeId, name: string, expParent: Option<nat>)
    | Rename(oldParent: InodeId, oldName: string, expOld: Option<nat>,
             newParent: InodeId, newName: string, expNew: Option<nat>, noReplace: bool)
    | ImportExternal(parent: InodeId, name: string, template: Inode, imported: Option<Manifest>,
                     expParent: Option<nat>)
    | SetXattr(expected: nat, id: InodeId, name: string, bytes: seq<byte>, xattrMode: XattrMode)
    | RemoveXattr(expected: nat, id: InodeId, name: string)
    | PutInodeCas(expected: nat, inode: Inode)
    | PutManifest(manifest: Manifest)
    | CommitInodeManifest(expected: nat, inode: Inode, manifest: Manifest)
    | CommitReserved(ticket: Ticket, expected: nat, inode: Inode, manifest: Manifest)
    | ReserveChunks(ticket: Ticket, id: InodeId, expected: nat, chunkIds: set<ChunkId>, expiresAt: nat)
    | AbortReservation(ticket: Ticket)
    | ExpireReservations(cutoff: nat, max: nat)
    | TombstoneBatch(candidates: set<ChunkId>)
    | FinalizeTombstones(chunks: seq<ChunkId>)
    | InitializeTargets(chunks: seq<ChunkId>, targets: set<TargetId>)
    | AcknowledgeDeletes(deleted: seq<(ChunkId, TargetId)>)
    | BeginFlush(expected: nat, id: InodeId, intent: FlushIntent)
    | CommitFlush(expected: nat, id: InodeId, flushId: FlushId, published: UfsObject)
    | FailFlush(expected: nat, id: InodeId, flushId: FlushId, message: string)
    | OpenInode(session: string, id: InodeId)
    | CloseInode(session: string, id: InodeId)
    | RecoverSession(session: string)

  datatype Response =
    | InodeResponse(inode: Inode)
    | ManifestResponse(id: ManifestId)
    | BatchResponse(tombstoned: set<ChunkId>, removedManifests: nat)
    | Empty
    | Failed(error: FluxError)

  // ---------------------------------------------------------------- helpers

  predicate BadName(name: string) {
    name == "" || '/' in name || name == "." || name == ".."
  }

  /** Link and rename also enforce NAME_MAX; create and import do not. */
  predicate BadDentryName(name: string) {
    BadName(name) || |name| > 255
  }

  predicate BadSession(session: string) {
    || session == ""
    || |session| > 128
    || exists c | c in session ::
         !('a' <= c <= 'z' || 'A' <= c <= 'Z' || '0' <= c <= '9' || c == '-' || c == '_' || c == '.')
  }

  predicate HasPresence(presences: set<Presence>, id: InodeId) {
    exists p | p in presences :: p.0 == id
  }

  predicate HasChildren(t: Tables, dir: InodeId) {
    exists k | k in t.dentries :: k.0 == dir
  }

  /** Load the parent directory, check its generation, then bump it. */
  function BumpParent(t: Tables, parent: InodeId, expected: Option<nat>, now: int): Result<Tables> {
    if parent !in t.inodes then Err(NotFound)
    else
      var p := t.inodes[parent];
      if p.fileType != Directory then Err(NotDirectory)
      else if expected.Some? && expected.value != p.generation then Err(CasFailed(expected.value, p.generation))
      else Ok(t.(inodes := t.inodes[parent := Bumped(p, now)]))
  }

  function Bumped(p: Inode, now: int): Inode {
    p.(generation := p.generation + 1, times := p.times.(mtime := now, ctime := now))
  }

  /** Drop inodes together with their reservations, attributes and presences. */
  function DeleteInodes(t: Tables, dead: set<InodeId>): Tables {
    t.(inodes := t.inodes - dead,
       reservations := map k | k in t.reservations && t.reservations[k].inode !in dead :: t.reservations[k],
       xattrs := map k | k in t.xattrs && k.0 !in dead :: t.xattrs[k],
       presences := set p | p in t.presences && p.0 !in dead)
  }

  /** Take one name away; the inode goes with its last name unless it is open. */
  function RemoveLink(t: Tables, child: Inode, now: int): Outcome<()> {
    if child.linkCount == 0 then Outcome(t, Err(Meta))
    else
      var next := child.(linkCount := child.linkCount - 1, generation := child.generation + 1,
                         times := child.times.(ctime := now));
      if next.linkCount == 0 && !HasPresence(t.presences, child.id)
      then Outcome(DeleteInodes(t, {child.id}), Ok(()))
      else Outcome(t.(inodes := t.inodes[child.id := next]), Ok(()))
  }

  // -------------------------------------------------------------- namespace

  function FreshInode(id: InodeId, fileType: FileType, mode: nat, uid: nat, gid: nat,
                      target: Option<string>, now: int): Inode
  {
    Inode(id, fileType, mode, uid, gid,
          if target.Some? then |target.value| else 0,
          Times(now, now, now),
          if fileType == Directory then 2 else 1,
          target, 1, 1, 0, None, LabelEphemeral,
          Some(LocalityFields(EphemeralMount, Ephemeral, Idle, FluxCreated)),
          None, None, None, None)
  }

  const ACL_ACCESS: string := "system.posix_acl_access"
  const ACL_DEFAULT: string := "system.posix_acl_default"

  /** A child inherits its parent's default ACL. */
  function InheritAcl(xattrs: map<XattrKey, seq<byte>>, parent: InodeId, id: InodeId, fileType: FileType)
    : map<XattrKey, seq<byte>>
  {
    if (parent, ACL_DEFAULT) !in xattrs then xattrs
    else
      var acl := xattrs[(parent, ACL_DEFAULT)];
      var withAccess := xattrs[(id, ACL_ACCESS) := acl];
      if fileType == Directory then withAccess[(id, ACL_DEFAULT) := acl] else withAccess
  }

  function CreateNode(t: Tables, expected: Option<nat>, parent: InodeId, name: string, fileType: FileType,
                      mode: nat, uid: nat, gid: nat, target: Option<string>, now: int): Outcome<Inode>
  {
    if BadName(name) then Outcome(t, Err(InvalidArg))
    else if (parent, name) in t.dentries then Outcome(t, Err(AlreadyExists))
    else match BumpParent(t, parent, expected, now)
      case Err(e) => Outcome(t, Err(e))
      case Ok(t1) =>
        var id := t1.nextInode;
        var inode := FreshInode(id, fileType, mode, uid, gid, target, now);
        Outcome(t1.(nextInode := id + 1,
                    inodes := t1.inodes[id := inode],
                    dentries := t1.dentries[(parent, name) := id],
                    xattrs := InheritAcl(t1.xattrs, parent, id, fileType)),
                Ok(inode))
  }

  function SymlinkNode(t: Tables, expected: Option<nat>, parent: InodeId, name: string, target: string,
                       uid: nat, gid: nat, now: int): Outcome<Inode>
  {
    if target == "" || '\0' in target || |target| > 4096 then Outcome(t, Err(InvalidArg))
    else CreateNode(t, expected, parent, name, Symlink, 0x1ff, uid, gid, Some(target), now)
  }

  function LinkNode(t: Tables, expected: Option<nat>, id: InodeId, parent: InodeId, name: string, now: int)
    : Outcome<Inode>
  {
    if BadDentryName(name) then Outcome(t, Err(InvalidArg))
    else if (parent, name) in t.dentries then Outcome(t, Err(AlreadyExists))
    else if id !in t.inodes then Outcome(t, Err(NotFound))
    else
      var source := t.inodes[id];
      if source.fileType == Directory then Outcome(t, Err(NotPermitted))
      else if source.linkCount == 0 then Outcome(t, Err(NotFound))
      else match BumpParent(t, parent, expected, now)
        case Err(e) => Outcome(t, Err(e))
        case Ok(t1) =>
          var next := source.(linkCount := source.linkCount + 1, generation := source.generation + 1,
                              times := source.times.(ctime := now));
          Outcome(t1.(inodes := t1.inodes[source.id := next],
                      dentries := t1.dentries[(parent, name) := source.id]),
                  Ok(next))
  }

  function UnlinkNode(t: Tables, expected: Option<nat>, parent: InodeId, name: string, now: int): Outcome<()> {
    if (parent, name) !in t.dentries then Outcome(t, Err(NotFound))
    else
      var id := t.dentries[(parent, name)];
      if id !in t.inodes then Outcome(t, Err(NotFound))
      else if t.inodes[id].fileType == Directory then Outcome(t, Err(IsDirectory))
      else match BumpParent(t, parent, expected, now)
        case Err(e) => Outcome(t, Err(e))
        case Ok(t1) =>
          RemoveLink(t1.(dentries := t1.dentries - {(parent, name)}), t.inodes[id], now)
  }

  function RmdirNode(t: Tables, expected: Option<nat>, parent: InodeId, name: string, now: int): Outcome<()> {
    if (parent, name) !in t.dentries then Outcome(t, Err(NotFound))
    else
      var id := t.dentries[(parent, name)];
      if id !in t.inodes then Outcome(t, Err(NotFound))
      else if t.inodes[id].fileType != Directory then Outcome(t, Err(NotDirectory))
      else if HasChildren(t, id) then Outcome(t, Err(NotEmpty))
      else match BumpParent(t, parent, expected, now)
        case Err(e) => Outcome(t, Err(e))
        case Ok(t1) =>
          Outcome(DeleteInodes(t1.(dentries := t1.dentries - {(parent, name)}), {id}), Ok(()))
  }

  /** Some name in directory `a` denotes `b`. */
  ghost predicate Edge(d: map<DentryKey, InodeId>, a: InodeId, b: InodeId) {
    exists n: string :: (a, n) in d && d[(a, n)] == b
  }

  ghost predicate IsPath(d: map<DentryKey, InodeId>, p: seq<InodeId>, a: InodeId, b: InodeId) {
    && |p| > 0 && p[0] == a && p[|p|-1] == b
    && forall i, j | 0 <= i && j == i + 1 && j < |p| :: Edge(d, p[i], p[j])
  }

  /** `b` is `a` itself or lies somewhere below it. */
  ghost predicate Reaches(d: map<DentryKey, InodeId>, a: InodeId, b: InodeId) {
    exists p :: IsPath(d, p, a, b)
  }

  /** The checks rename makes before it changes anything. */
  ghost function RenameCheck(t: Tables, source: Inode, destination: Option<InodeId>, newParent: InodeId,
                             noReplace: bool): Option<FluxError>
  {
    if source.fileType == Directory && Reaches(t.dentries, source.id, newParent) then Some(InvalidArg)
    else if noReplace && destination.Some? then Some(AlreadyExists)
    else if destination.None? || destination.value == source.id then None
    else if destination.value !in t.inodes then Some(NotFound)
    else
      var d := t.inodes[destination.value];
      if source.fileType == Directory && d.fileType != Directory then Some(NotDirectory)
      else if source.fileType != Directory && d.fileType == Directory then Some(IsDirectory)
      else if d.fileType == Directory && HasChildren(t, d.id) then Some(NotEmpty)
      else None
  }

  /** Remove what a rename replaces. */
  function ClearDestination(t: Tables, key: DentryKey, now: int): Outcome<()> {
    if key !in t.dentries then Outcome(t, Ok(()))
    else
      var id := t.dentries[key];
      var t1 := t.(dentries := t.dentries - {key});
      if id !in t1.inodes then Outcome(t1, Err(NotFound))
      else if t1.inodes[id].fileType == Directory then Outcome(DeleteInodes(t1, {id}), Ok(()))
      else RemoveLink(t1, t1.inodes[id], now)
  }

  /** The changes rename makes after its checks. */
  function RenameMove(t: Tables, source: Inode, oldKey: DentryKey, expOld: Option<nat>,
                      newKey: DentryKey, expNew: Option<nat>, now: int): Outcome<Inode>
  {
    match BumpParent(t, oldKey.0, expOld, now)
    case Err(e) => Outcome(t, Err(e))
    case Ok(t1) =>
      match (if newKey.0 == oldKey.0 then Ok(t1) else BumpParent(t1, newKey.0, expNew, now))
      case Err(e) => Outcome(t1, Err(e))
      case Ok(t2) =>
        var cleared := ClearDestination(t2, newKey, now);
        if cleared.result.Err? then Outcome(cleared.tables, Err(cleared.result.error))
        else
          var t3 := cleared.tables;
          var next := source.(generation := source.generation + 1, times := source.times.(ctime := now));
          Outcome(t3.(dentries := (t3.dentries - {oldKey})[newKey := source.id],
                      inodes := t3.inodes[source.id := next]),
                  Ok(next))
  }

  predicate Mismatch(inode: Inode, expected: Option<nat>) {
    expected.Some? && expected.value != inode.generation
  }

  ghost function RenameNode(t: Tables, oldParent: InodeId, oldName: string, expOld: Option<nat>,
                            newParent: InodeId, newName: string, expNew: Option<nat>,
                            noReplace: bool, now: int): Outcome<Inode>
  {
    var oldKey := (oldParent, oldName);
    var newKey := (newParent, newName);
    if BadDentryName(oldName) || BadDentryName(newName) then Outcome(t, Err(InvalidArg))
    else if oldKey !in t.dentries then Outcome(t, Err(NotFound))
    else if t.dentries[oldKey] !in t.inodes then Outcome(t, Err(NotFound))
    else if oldParent !in t.inodes || newParent !in t.inodes then Outcome(t, Err(NotFound))
    else
      var source := t.inodes[t.dentries[oldKey]];
      var op := t.inodes[oldParent];
      var np := t.inodes[newParent];
      if op.fileType != Directory || np.fileType != Directory then Outcome(t, Err(NotDirectory))
      else if Mismatch(op, expOld) then Outcome(t, Err(CasFailed(expOld.value, op.generation)))
      else if Mismatch(np, expNew) then Outcome(t, Err(CasFailed(expNew.value, np.generation)))
      else if oldKey == newKey then Outcome(t, Ok(source))
      else
        var destination := if newKey in t.dentries then Some(t.dentries[newKey]) else None;
        var failure := RenameCheck(t, source, destination, newParent, noReplace);
        if failure.Some? then Outcome(t, Err(failure.value))
        else if destination == Some(source.id) then Outcome(t, Ok(source))
        else RenameMove(t, source, oldKey, expOld, newKey, expNew, now)
  }

  /** Import one object of the backing store as an inode of `parent`. */
  function ImportNode(t: Tables, expected: Option<nat>, parent: InodeId, name: string, template: Inode,
                      manifest: Option<Manifest>, now: int): Outcome<Inode>
  {
    if BadName(name) then Outcome(t, Err(InvalidArg))
    else if !template.locality.LabelExternal? && !(template.fields.Some? && template.fields.value.origin.Imported?)
    then Outcome(t, Err(InvalidArg))
    else if (parent, name) in t.dentries then Outcome(t, Err(AlreadyExists))
    else match BumpParent(t, parent, expected, now)
      case Err(e) => Outcome(t, Err(e))
      case Ok(t1) =>
        var id := t1.nextInode;
        var t2 := t1.(nextInode := id + 1);
        var base := template.(id := id, locality := LabelExternal,
                              fields := if template.fields.Some? then template.fields
                                        else Some(LocalityFields(UfsBacked, UfsClean, Idle, Imported)));
        if manifest.Some? && !Ordered(manifest.value.extents) then Outcome(t2, Err(InvalidArg))
        else
          var stored := if manifest.Some? then StoreManifest(t2, manifest.value.(inode := id)) else t2;
          var inode := if manifest.Some?
                       then base.(manifestId := Some(t2.nextManifest), size := manifest.value.size)
                       else base.(manifestId := None);
          Outcome(stored.(inodes := stored.inodes[id := inode],
                          dentries := stored.dentries[(parent, name) := id]),
                  Ok(inode))
  }

  // ------------------------------------------------------------- attributes

  predicate ValidXattrName(name: string) {
    && 0 < |name| <= 255 && '\0' !in name
    && exists p | p in ["user.", "trusted.", "security.", "system."] :: p < name
  }

  function AclTag(v: seq<byte>, i: nat): nat
    requires 4 + 8 * i + 4 <= |v|
  {
    (v[4 + 8 * i] as nat) + 256 * (v[4 + 8 * i + 1] as nat)
  }

  /** How many entries of the extended-attribute ACL carry `tag`. */
  function AclCount(v: seq<byte>, n: nat, tag: nat): nat
    requires 4 + 8 * n <= |v|
  {
    if n == 0 then 0 else AclCount(v, n - 1, tag) + (if AclTag(v, n - 1) == tag then 1 else 0)
  }

  predicate ValidAcl(v: seq<byte>) {
    && |v| >= 4 && (|v| - 4) % 8 == 0
    && v[..4] == [2, 0, 0, 0]
    && (var n := (|v| - 4) / 8;
        && (forall i | 0 <= i < n ::
              && AclTag(v, i) in {1, 2, 4, 8, 16, 32}
              && v[4 + 8 * i + 2] < 8 && v[4 + 8 * i + 3] == 0)
        && AclCount(v, n, 1) == 1 && AclCount(v, n, 4) == 1 && AclCount(v, n, 32) == 1
        && AclCount(v, n, 16) <= 1
        && (AclCount(v, n, 2) + AclCount(v, n, 8) > 0 ==> AclCount(v, n, 16) == 1))
  }

  function XattrError(inode: Inode, name: string, value: seq<byte>): Option<FluxError> {
    if !ValidXattrName(name) then Some(InvalidArg)
    else if |value| > 64 * 1024 then Some(NoSpace)
    else if name == ACL_ACCESS || name == ACL_DEFAULT then
      if inode.fileType == Symlink then Some(InvalidArg)
      else if name == ACL_DEFAULT && inode.fileType != Directory then Some(InvalidArg)
      else if !ValidAcl(value) then Some(InvalidArg) else None
    else None
  }

  function XattrKeys(t: Tables, id: InodeId): set<XattrKey> {
    set k | k in t.xattrs && k.0 == id
  }

  ghost function TotalBytes(xattrs: map<XattrKey, seq<byte>>, keys: set<XattrKey>): nat
    requires keys <= xattrs.Keys
  {
    if keys == {} then 0
    else var k :| k in keys; |xattrs[k]| + TotalBytes(xattrs, keys - {k})
  }

  ghost function SetXattrNode(t: Tables, expected: nat, id: InodeId, name: string, value: seq<byte>,
                              mode: XattrMode, now: int): Outcome<Inode>
  {
    if id !in t.inodes then Outcome(t, Err(NotFound))
    else
      var inode := t.inodes[id];
      var present := (id, name) in t.xattrs;
      if inode.generation != expected then Outcome(t, Err(CasFailed(expected, inode.generation)))
      else if XattrError(inode, name, value).Some? then Outcome(t, Err(XattrError(inode, name, value).value))
      else if mode == CreateOnly && present then Outcome(t, Err(AlreadyExists))
      else if mode == ReplaceOnly && !present then Outcome(t, Err(NoData))
      else if !present && |XattrKeys(t, id)| >= 64 then Outcome(t, Err(NoSpace))
      else
        var total := TotalBytes(t.xattrs, XattrKeys(t, id));
        if total - (if present then |t.xattrs[(id, name)]| else 0) + |value| > 256 * 1024
        then Outcome(t, Err(NoSpace))
        else
          var next := inode.(generation := inode.generation + 1, times := inode.times.(ctime := now));
          Outcome(t.(xattrs := t.xattrs[(id, name) := value], inodes := t.inodes[inode.id := next]), Ok(next))
  }

  function RemoveXattrNode(t: Tables, expected: nat, id: InodeId, name: string, now: int): Outcome<Inode> {
    if !ValidXattrName(name) then Outcome(t, Err(InvalidArg))
    else if id !in t.inodes then Outcome(t, Err(NotFound))
    else
      var inode := t.inodes[id];
      if inode.generation != expected then Outcome(t, Err(CasFailed(expected, inode.generation)))
      else if (id, name) !in t.xattrs then Outcome(t, Err(NoData))
      else
        var next := inode.(generation := inode.generation + 1, times := inode.times.(ctime := now));
        Outcome(t.(xattrs := t.xattrs - {(id, name)}, inodes := t.inodes[inode.id := next]), Ok(next))
  }

  /** Everything a compare-and-set of POSIX attributes must not touch. */
  predicate SameData(a: Inode, b: Inode) {
    b == a.(mode := b.mode, uid := b.uid, gid := b.gid, times := b.times, generation := b.generation)
  }

  function PutInodeCasNode(t: Tables, expected: nat, inode: Inode): Outcome<Inode> {
    if inode.id !in t.inodes then Outcome(t, Err(NotFound))
    else
      var current := t.inodes[inode.id];
      if current.generation != expected then Outcome(t, Err(CasFailed(expected, current.generation)))
      else if inode.generation != expected + 1 then Outcome(t, Err(InvalidArg))
      else if !SameData(current, inode) then Outcome(t, Err(InvalidArg))
      else Outcome(t.(inodes := t.inodes[inode.id := inode]), Ok(inode))
  }

  // -------------------------------------------------------------- manifests

  function StoreManifest(t: Tables, m: Manifest): Tables {
    t.(manifests := t.manifests[t.nextManifest := m], nextManifest := t.nextManifest + 1)
  }

  function PutManifestNode(t: Tables, m: Manifest): Outcome<ManifestId> {
    if !Ordered(m.extents) then Outcome(t, Err(InvalidArg))
    else Outcome(StoreManifest(t, m), Ok(t.nextManifest))
  }

  function CommitManifestNode(t: Tables, expected: nat, inode: Inode, m: Manifest): Outcome<Inode> {
    if m.inode != inode.id then Outcome(t, Err(InvalidArg))
    else if inode.id !in t.inodes then Outcome(t, Err(NotFound))
    else
      var current := t.inodes[inode.id];
      if current.generation != expected then Outcome(t, Err(CasFailed(expected, current.generation)))
      else if current.flushIntent.Some? then Outcome(t, Err(Busy))
      else if !Ordered(m.extents) then Outcome(t, Err(InvalidArg))
      else
        var next := inode.(manifestId := Some(t.nextManifest));
        var t1 := StoreManifest(t, m);
        Outcome(t1.(inodes := t1.inodes[inode.id := next]), Ok(next))
  }

  function CommitUnreservedNode(t: Tables, expected: nat, inode: Inode, m: Manifest): Outcome<Inode> {
    if LocalChunks(m) != {} then Outcome(t, Err(InvalidArg))
    else CommitManifestNode(t, expected, inode, m)
  }

  function CommitReservedNode(t: Tables, ticket: Ticket, expected: nat, inode: Inode, m: Manifest): Outcome<Inode> {
    if ticket !in t.reservations then Outcome(t, Err(Busy))
    else
      var r := t.reservations[ticket];
      if r.inode != inode.id || r.expectedGeneration != expected then Outcome(t, Err(InvalidArg))
      else if LocalChunks(m) != r.chunks then Outcome(t, Err(InvalidArg))
      else
        var committed := CommitManifestNode(t, expected, inode, m);
        if committed.result.Err? then committed
        else Outcome(committed.tables.(reservations := committed.tables.reservations - {ticket}), committed.result)
  }

  // ----------------------------------------------- reservations, tombstones

  function ReserveNode(t: Tables, ticket: Ticket, id: InodeId, expected: nat, chunks: set<ChunkId>, expiresAt: nat)
    : Outcome<()>
  {
    if id !in t.inodes then Outcome(t, Err(NotFound))
    else if t.inodes[id].generation != expected then Outcome(t, Err(CasFailed(expected, t.inodes[id].generation)))
    else if chunks * t.tombstones.Keys != {} then Outcome(t, Err(Busy))
    else
      var r := Reservation(id, expected, chunks, expiresAt);
      if ticket in t.reservations
      then Outcome(t, if t.reservations[ticket] == r then Ok(()) else Err(AlreadyExists))
      else Outcome(t.(reservations := t.reservations[ticket := r]), Ok(()))
  }

  function ExpiredTickets(t: Tables, cutoff: nat): set<Ticket> {
    set k | k in t.reservations && t.reservations[k].expiresAt <= cutoff
  }

  /** (deadline, ticket) order, the order in which reservations are expired. */
  predicate ExpiresBefore(t: Tables, a: Ticket, b: Ticket)
    requires a in t.reservations && b in t.reservations
  {
    var x, y := t.reservations[a].expiresAt, t.reservations[b].expiresAt;
    x < y || (x == y && a <= b)
  }

  /** Drop the `max` oldest reservations whose deadline has passed. */
  ghost function ExpireNode(t: Tables, cutoff: nat, max: nat): Tables
    decreases max
  {
    if max == 0 || ExpiredTickets(t, cutoff) == {} then t
    else if k :| k in ExpiredTickets(t, cutoff) && forall j | j in ExpiredTickets(t, cutoff) :: ExpiresBefore(t, k, j)
    then ExpireNode(t.(reservations := t.reservations - {k}), cutoff, max - 1)
    else t
  }

  function HeldManifests(t: Tables): set<ManifestId> {
    set i | i in t.inodes && t.inodes[i].manifestId.Some? :: t.inodes[i].manifestId.value
  }

  function ReservedChunks(t: Tables): set<ChunkId> {
    set k, c | k in t.reservations && c in t.reservations[k].chunks :: c
  }

  /** Chunks referenced by a manifest that some inode holds. */
  function HeldChunks(t: Tables): set<ChunkId> {
    set k, c | k in t.manifests && k in HeldManifests(t) && c in LocalChunks(t.manifests[k]) :: c
  }

  function KeptManifests(t: Tables): map<ManifestId, Manifest> {
    map k | k in t.manifests && k in HeldManifests(t) :: t.manifests[k]
  }

  function FreshTombstones(chunks: set<ChunkId>): map<ChunkId, Tombstone> {
    map c | c in chunks :: Tombstone(false, {})
  }

  /** Mark the candidates nothing needs, and drop the manifests nobody holds. */
  function TombstoneNode(t: Tables, candidates: set<ChunkId>): (Tables, set<ChunkId>, int) {
    var tombstoned := candidates - HeldChunks(t) - ReservedChunks(t);
    (t.(manifests := KeptManifests(t), tombstones := t.tombstones + FreshTombstones(tombstoned)),
     tombstoned, |t.manifests| - |KeptManifests(t)|)
  }

  function FinalizeNode(t: Tables, chunks: seq<ChunkId>): Outcome<()>
    decreases |chunks|
  {
    if chunks == [] then Outcome(t, Ok(()))
    else if chunks[0] !in t.tombstones then Outcome(t, Err(NotFound))
    else
      var s := t.tombstones[chunks[0]];
      if !s.initialized || s.pending != {} then Outcome(t, Err(Busy))
      else FinalizeNode(t.(tombstones := t.tombstones - {chunks[0]}), chunks[1..])
  }

  function InitializeNode(t: Tables, chunks: seq<ChunkId>, targets: set<TargetId>): Outcome<()>
    decreases |chunks|
  {
    if chunks == [] then Outcome(t, Ok(()))
    else if chunks[0] !in t.tombstones then Outcome(t, Err(NotFound))
    else
      var s := t.tombstones[chunks[0]];
      var next := if s.initialized then t.tombstones else t.tombstones[chunks[0] := Tombstone(true, targets)];
      InitializeNode(t.(tombstones := next), chunks[1..], targets)
  }

  function AcknowledgeNode(t: Tables, deleted: seq<(ChunkId, TargetId)>): Outcome<()>
    decreases |deleted|
  {
    if deleted == [] then Outcome(t, Ok(()))
    else if deleted[0].0 !in t.tombstones then Outcome(t, Err(NotFound))
    else
      var s := t.tombstones[deleted[0].0];
      if !s.initialized then Outcome(t, Err(Busy))
      else
        var next := s.(pending := s.pending - {deleted[0].1});
        AcknowledgeNode(t.(tombstones := t.tombstones[deleted[0].0 := next]), deleted[1..])
  }

  // ------------------------------------------------------------------ flush

  function BeginFlushNode(t: Tables, expected: nat, id: InodeId, intent: FlushIntent): Outcome<Inode> {
    if id !in t.inodes then Outcome(t, Err(NotFound))
    else
      var inode := t.inodes[id];
      if inode.generation != expected then Outcome(t, Err(CasFailed(expected, inode.generation)))
      else if inode.fileType != Regular then Outcome(t, Err(IsDirectory))
      else if inode.fields.None? then Outcome(t, Err(Meta))
      else
        var f := inode.fields.value;
        if f.backing != UfsBacked || f.dataState != Dirty then Outcome(t, Err(InvalidArg))
        else if inode.headGen != intent.snapshotGen
        then Outcome(t, Err(CasFailed(intent.snapshotGen, inode.headGen)))
        else if inode.flushIntent.Some? || f.opState != Idle then Outcome(t, Err(Busy))
        else
          var g := f.(opState := Flushing(intent));
          var next := inode.(fields := Some(g), flushIntent := Some(intent), lastError := None,
                             generation := inode.generation + 1,
                             locality := DeriveLabel(g, inode.headGen, inode.ufsGen));
          Outcome(t.(inodes := t.inodes[inode.id := next]), Ok(next))
  }

  function PublishedVersion(published: UfsObject, intent: FlushIntent): UfsVersion {
    if published.etag.Some? then EtagVersion(published.etag.value) else DigestVersion(intent.targetDigest)
  }

  /** The manifest of a freshly written-back file: one range over the new object. */
  function CleanManifest(inode: Inode, intent: FlushIntent, published: UfsObject): Manifest {
    Manifest(inode.id, intent.snapshotGen, inode.size,
             if inode.size == 0 then []
             else [UfsRange(0, inode.size, published.key, PublishedVersion(published, intent), 0)])
  }

  function CommitFlushNode(t: Tables, expected: nat, id: InodeId, flushId: FlushId, published: UfsObject)
    : Outcome<Inode>
  {
    if id !in t.inodes then Outcome(t, Err(NotFound))
    else
      var inode := t.inodes[id];
      if inode.generation != expected then Outcome(t, Err(CasFailed(expected, inode.generation)))
      else if inode.flushIntent.None? || inode.flushIntent.value.flushId != flushId then Outcome(t, Err(Busy))
      else if inode.fields.None? then Outcome(t, Err(Meta))
      else
        var intent := inode.flushIntent.value;
        var bumped := inode.(generation := inode.generation + 1, flushIntent := None);
        if inode.headGen == intent.snapshotGen then
          var f := inode.fields.value.(opState := Idle, dataState := UfsClean);
          var t1 := if inode.size == 0 then t else StoreManifest(t, CleanManifest(inode, intent, published));
          var next := bumped.(
            fields := Some(f),
            manifestId := if inode.size == 0 then None else Some(t.nextManifest),
            ufs := Some(published), ufsGen := intent.snapshotGen,
            ufsBaseVersion := Some(PublishedVersion(published, intent)), lastError := None,
            locality := DeriveLabel(f, inode.headGen, intent.snapshotGen));
          Outcome(t1.(inodes := t1.inodes[inode.id := next]), Ok(next))
        else
          var f := inode.fields.value.(opState := Idle, dataState := DirtyConflict);
          var next := bumped.(fields := Some(f), lastError := Some("head advanced during flush"),
                              locality := DeriveLabel(f, inode.headGen, inode.ufsGen));
          Outcome(t.(inodes := t.inodes[inode.id := next]), Ok(next))
  }

  function FailFlushNode(t: Tables, expected: nat, id: InodeId, flushId: FlushId, message: string): Outcome<Inode> {
    if id !in t.inodes then Outcome(t, Err(NotFound))
    else
      var inode := t.inodes[id];
      if inode.generation != expected then Outcome(t, Err(CasFailed(expected, inode.generation)))
      else if inode.flushIntent.None? || inode.flushIntent.value.flushId != flushId then Outcome(t, Err(Busy))
      else if inode.fields.None? then Outcome(t, Err(Meta))
      else
        var f := inode.fields.value.(opState := Idle, dataState := DirtyConflict);
        var next := inode.(fields := Some(f), flushIntent := None, lastError := Some(message),
                           generation := inode.generation + 1,
                           locality := DeriveLabel(f, inode.headGen, inode.ufsGen));
        Outcome(t.(inodes := t.inodes[inode.id := next]), Ok(next))
  }

  // ----------------------------------------------------------- open handles

  function OpenNode(t: Tables, session: string, id: InodeId): Outcome<()> {
    if BadSession(session) then Outcome(t, Err(InvalidArg))
    else if id !in t.inodes then Outcome(t, Err(NotFound))
    else if t.inodes[id].fileType != Regular then Outcome(t, Err(InvalidArg))
    else Outcome(t.(presences := t.presences + {(id, session)}), Ok(()))
  }

  /** Delete those of `ids` that have neither a name nor an open handle left. */
  function ReapUnopened(t: Tables, ids: set<InodeId>): Tables {
    DeleteInodes(t, set i | i in ids && i in t.inodes && t.inodes[i].linkCount == 0 && !HasPresence(t.presences, i))
  }

  function CloseNode(t: Tables, session: string, id: InodeId): Outcome<()> {
    if BadSession(session) then Outcome(t, Err(InvalidArg))
    else Outcome(ReapUnopened(t.(presences := t.presences - {(id, session)}), {id}), Ok(()))
  }

  function RecoverNode(t: Tables, session: string): Outcome<()> {
    if BadSession(session) then Outcome(t, Err(InvalidArg))
    else
      var stale := set p | p in t.presences && p.1 == session;
      Outcome(ReapUnopened(t.(presences := t.presences - stale), set p | p in stale :: p.0), Ok(()))
  }

  // --------------------------------------------------------------- dispatch

  function InodeReply(o: Outcome<Inode>): (Tables, Response) {
    (o.tables, match o.result case Ok(i) => InodeResponse(i) case Err(e) => Failed(e))
  }

  function UnitReply(o: Outcome<()>): (Tables, Response) {
    (o.tables, match o.result case Ok(_) => Empty case Err(e) => Failed(e))
  }

  predicate IsName(req: Request) {
    || req.Create? || req.MakeSymlink? || req.Link? || req.Unlink? || req.Rmdir? || req.Rename? || req.ImportExternal?
  }

  predicate IsRecord(req: Request) {
    req.SetXattr? || req.RemoveXattr? || req.PutInodeCas? || req.PutManifest?
  }

  predicate IsCommit(req: Request) {
    req.CommitInodeManifest? || req.CommitReserved?
  }

  predicate IsFlush(req: Request) {
    req.BeginFlush? || req.CommitFlush? || req.FailFlush?
  }

  predicate IsHandle(req: Request) {
    req.OpenInode? || req.CloseInode? || req.RecoverSession?
  }

  /** Requests that stop at the first bad chunk after handling the good ones before it. */
  predicate MultiChunk(req: Request) {
    req.FinalizeTombstones? || req.InitializeTargets? || req.AcknowledgeDeletes?
  }

  predicate IsCollector(req: Request) {
    || req.ReserveChunks? || req.AbortReservation? || req.ExpireReservations? || req.TombstoneBatch? || MultiChunk(req)
  }

  ghost function ExecuteName(t: Tables, req: Request, now: int): (Tables, Response)
    requires IsName(req)
  {
    match req
    case Create(parent, name, ft, mode, uid, gid, exp) =>
      InodeReply(CreateNode(t, exp, parent, name, ft, mode, uid, gid, None, now))
    case MakeSymlink(parent, name, target, uid, gid, exp) =>
      InodeReply(SymlinkNode(t, exp, parent, name, target, uid, gid, now))
    case Link(id, parent, name, exp) => InodeReply(LinkNode(t, exp, id, parent, name, now))
    case Unlink(parent, name, exp) => UnitReply(UnlinkNode(t, exp, parent, name, now))
    case Rmdir(parent, name, exp) => UnitReply(RmdirNode(t, exp, parent, name, now))
    case Rename(op, on, eo, np, nn, en, nr) => InodeReply(RenameNode(t, op, on, eo, np, nn, en, nr, now))
    case ImportExternal(parent, name, template, m, exp) =>
      InodeReply(ImportNode(t, exp, parent, name, template, m, now))
  }

  ghost function ExecuteRecord(t: Tables, req: Request, now: int): (Tables, Response)
    requires IsRecord(req)
  {
    match req
    case SetXattr(exp, id, name, value, mode) => InodeReply(SetXattrNode(t, exp, id, name, value, mode, now))
    case RemoveXattr(exp, id, name) => InodeReply(RemoveXattrNode(t, exp, id, name, now))
    case PutInodeCas(exp, inode) => InodeReply(PutInodeCasNode(t, exp, inode))
    case PutManifest(m) =>
      var o := PutManifestNode(t, m);
      (o.tables, match o.result case Ok(id) => ManifestResponse(id) case Err(e) => Failed(e))
  }

  function ExecuteCommit(t: Tables, req: Request): (Tables, Response)
    requires IsCommit(req)
  {
    match req
    case CommitInodeManifest(exp, inode, m) => InodeReply(CommitUnreservedNode(t, exp, inode, m))
    case CommitReserved(ticket, exp, inode, m) => InodeReply(CommitReservedNode(t, ticket, exp, inode, m))
  }

  function ExecuteFlush(t: Tables, req: Request): (Tables, Response)
    requires IsFlush(req)
  {
    match req
    case BeginFlush(exp, id, intent) => InodeReply(BeginFlushNode(t, exp, id, intent))
    case CommitFlush(exp, id, flushId, published) => InodeReply(CommitFlushNode(t, exp, id, flushId, published))
    case FailFlush(exp, id, flushId, message) => InodeReply(FailFlushNode(t, exp, id, flushId, message))
  }

  function ExecuteHandle(t: Tables, req: Request): (Tables, Response)
    requires IsHandle(req)
  {
    match req
    case OpenInode(session, id) => UnitReply(OpenNode(t, session, id))
    case CloseInode(session, id) => UnitReply(CloseNode(t, session, id))
    case RecoverSession(session) => UnitReply(RecoverNode(t, session))
  }

  ghost function ExecuteCollector(t: Tables, req: Request): (Tables, Response)
    requires IsCollector(req)
  {
    match req
    case ReserveChunks(ticket, id, exp, chunks, expires) =>
      UnitReply(ReserveNode(t, ticket, id, exp, chunks, expires))
    case AbortReservation(ticket) => (t.(reservations := t.reservations - {ticket}), Empty)
    case ExpireReservations(cutoff, max) => (ExpireNode(t, cutoff, max), Empty)
    case TombstoneBatch(candidates) =>
      var b := TombstoneNode(t, candidates);
      (b.0, BatchResponse(b.1, if b.2 >= 0 then b.2 else 0))
    case FinalizeTombstones(chunks) => UnitReply(FinalizeNode(t, chunks))
    case InitializeTargets(chunks, targets) => UnitReply(InitializeNode(t, chunks, targets))
    case AcknowledgeDeletes(deleted) => UnitReply(AcknowledgeNode(t, deleted))
  }

  /** One request against the tables; `now` is the applying node's clock. */
  ghost function Execute(t: Tables, req: Request, now: int): (Tables, Response) {
    if IsName(req) then ExecuteName(t, req, now)
    else if IsRecord(req) then ExecuteRecord(t, req, now)
    else if IsCommit(req) then ExecuteCommit(t, req)
    else if IsFlush(req) then ExecuteFlush(t, req)
    else if IsHandle(req) then ExecuteHandle(t, req)
    else ExecuteCollector(t, req)
  }

  lemma Dispatch(t: Tables, req: Request, now: int)
    ensures IsName(req) ==> Execute(t, req, now) == ExecuteName(t, req, now)
    ensures IsRecord(req) ==> Execute(t, req, now) == ExecuteRecord(t, req, now)
    ensures IsCommit(req) ==> Execute(t, req, now) == ExecuteCommit(t, req)
    ensures IsFlush(req) ==> Execute(t, req, now) == ExecuteFlush(t, req)
    ensures IsHandle(req) ==> Execute(t, req, now) == ExecuteHandle(t, req)
    ensures IsCollector(req) ==> Execute(t, req, now) == ExecuteCollector(t, req)
  {
    hide ExecuteName;
    hide ExecuteRecord;
    hide ExecuteCommit;
    hide ExecuteFlush;
    hide ExecuteHandle;
    hide ExecuteCollector;
  }

  /** The answer carries the record or says that it was done, or it is the error. */
  lemma Replies(a: Outcome<Inode>, b: Outcome<()>)
    ensures InodeReply(a).0 == a.tables && UnitReply(b).0 == b.tables
    ensures a.result.Ok? ==> InodeReply(a).1 == InodeResponse(a.result.value)
    ensures a.result.Err? ==> InodeReply(a).1 == Failed(a.result.error)
    ensures b.result.Ok? ==> UnitReply(b).1 == Empty
    ensures b.result.Err? ==> UnitReply(b).1 == Failed(b.result.error)
  {
  }

  /** Each request for names runs its own operation with its own arguments. */
  lemma NameRequests(t: Tables, now: int, parent: InodeId, name: string, fileType: FileType, mode: nat, uid: nat,
                     gid: nat, exp: Option<nat>, id: InodeId, target: string)
    ensures Execute(t, Create(parent, name, fileType, mode, uid, gid, exp), now)
            == InodeReply(CreateNode(t, exp, parent, name, fileType, mode, uid, gid, None, now))
    ensures Execute(t, MakeSymlink(parent, name, target, uid, gid, exp), now)
            == InodeReply(SymlinkNode(t, exp, parent, name, target, uid, gid, now))
    ensures Execute(t, Link(id, parent, name, exp), now) == InodeReply(LinkNode(t, exp, id, parent, name, now))
    ensures Execute(t, Unlink(parent, name, exp), now) == UnitReply(UnlinkNode(t, exp, parent, name, now))
    ensures Execute(t, Rmdir(parent, name, exp), now) == UnitReply(RmdirNode(t, exp, parent, name, now))
  {
    hide Execute;
    hide InodeReply;
    hide UnitReply;
    hide CreateNode;
    hide SymlinkNode;
    hide LinkNode;
    hide UnlinkNode;
    hide RmdirNode;
    Dispatch(t, Create(parent, name, fileType, mode, uid, gid, exp), now);
    Dispatch(t, MakeSymlink(parent, name, target, uid, gid, exp), now);
    Dispatch(t, Link(id, parent, name, exp), now);
    Dispatch(t, Unlink(parent, name, exp), now);
    Dispatch(t, Rmdir(parent, name, exp), now);
  }

  lemma MoveRequests(t: Tables, now: int, parent: InodeId, name: string, exp: Option<nat>, newParent: InodeId,
                     newName: string, expNew: Option<nat>, noReplace: bool, template: Inode, m: Option<Manifest>)
    ensures Execute(t, Rename(parent, name, exp, newParent, newName, expNew, noReplace), now)
            == InodeReply(RenameNode(t, parent, name, exp, newParent, newName, expNew, noReplace, now))
    ensures Execute(t, ImportExternal(parent, name, template, m, exp), now)
            == InodeReply(ImportNode(t, exp, parent, name, template, m, now))
  {
    hide Execute;
    hide InodeReply;
    hide RenameNode;
    hide ImportNode;
    Dispatch(t, Rename(parent, name, exp, newParent, newName, expNew, noReplace), now);
    Dispatch(t, ImportExternal(parent, name, template, m, exp), now);
  }

  /** So does each request for attributes, records and manifests. */
  lemma RecordRequests(t: Tables, now: int, exp: nat, id: InodeId, name: string, value: seq<byte>, mode: XattrMode,
                       inode: Inode, m: Manifest)
    ensures Execute(t, SetXattr(exp, id, name, value, mode), now)
            == InodeReply(SetXattrNode(t, exp, id, name, value, mode, now))
    ensures Execute(t, RemoveXattr(exp, id, name), now) == InodeReply(RemoveXattrNode(t, exp, id, name, now))
    ensures Execute(t, PutInodeCas(exp, inode), now) == InodeReply(PutInodeCasNode(t, exp, inode))
    ensures Execute(t, PutManifest(m), now)
            == if Ordered(m.extents) then (StoreManifest(t, m), ManifestResponse(t.nextManifest))
               else (t, Failed(InvalidArg))
  {
    hide Execute;
    hide InodeReply;
    hide SetXattrNode;
    hide RemoveXattrNode;
    hide PutInodeCasNode;
    hide Ordered;
    hide StoreManifest;
    Dispatch(t, SetXattr(exp, id, name, value, mode), now);
    Dispatch(t, RemoveXattr(exp, id, name), now);
    Dispatch(t, PutInodeCas(exp, inode), now);
    Dispatch(t, PutManifest(m), now);
  }

  /** So does each request for file data. */
  lemma DataRequests(t: Tables, now: int, exp: nat, id: InodeId, inode: Inode, m: Manifest, ticket: Ticket,
                     intent: FlushIntent, flush: FlushId, published: UfsObject, text: string)
    ensures Execute(t, CommitInodeManifest(exp, inode, m), now) == InodeReply(CommitUnreservedNode(t, exp, inode, m))
    ensures Execute(t, CommitReserved(ticket, exp, inode, m), now)
            == InodeReply(CommitReservedNode(t, ticket, exp, inode, m))
    ensures Execute(t, BeginFlush(exp, id, intent), now) == InodeReply(BeginFlushNode(t, exp, id, intent))
    ensures Execute(t, CommitFlush(exp, id, flush, published), now)
            == InodeReply(CommitFlushNode(t, exp, id, flush, published))
    ensures Execute(t, FailFlush(exp, id, flush, text), now) == InodeReply(FailFlushNode(t, exp, id, flush, text))
  {
    hide Execute;
    hide InodeReply;
    hide CommitUnreservedNode;
    hide CommitReservedNode;
    hide BeginFlushNode;
    hide CommitFlushNode;
    hide FailFlushNode;
    Dispatch(t, CommitInodeManifest(exp, inode, m), now);
    Dispatch(t, CommitReserved(ticket, exp, inode, m), now);
    Dispatch(t, BeginFlush(exp, id, intent), now);
    Dispatch(t, CommitFlush(exp, id, flush, published), now);
    Dispatch(t, FailFlush(exp, id, flush, text), now);
  }

  /** So does each request for handles and reservations; giving a ticket up removes it and nothing else. */
  lemma HoldRequests(t: Tables, now: int, session: string, ticket: Ticket, id: InodeId, exp: nat, chunks: set<ChunkId>,
                     at: nat, max: nat)
    ensures Execute(t, OpenInode(session, id), now) == UnitReply(OpenNode(t, session, id))
    ensures Execute(t, CloseInode(session, id), now) == UnitReply(CloseNode(t, session, id))
    ensures Execute(t, RecoverSession(session), now) == UnitReply(RecoverNode(t, session))
    ensures Execute(t, ReserveChunks(ticket, id, exp, chunks, at), now)
            == UnitReply(ReserveNode(t, ticket, id, exp, chunks, at))
    ensures Execute(t, AbortReservation(ticket), now) == (t.(reservations := t.reservations - {ticket}), Empty)
    ensures Execute(t, ExpireReservations(at, max), now) == (ExpireNode(t, at, max), Empty)
  {
    hide Execute;
    hide UnitReply;
    hide OpenNode;
    hide CloseNode;
    hide RecoverNode;
    hide ReserveNode;
    hide ExpireNode;
    Dispatch(t, OpenInode(session, id), now);
    Dispatch(t, CloseInode(session, id), now);
    Dispatch(t, RecoverSession(session), now);
    Dispatch(t, ReserveChunks(ticket, id, exp, chunks, at), now);
    Dispatch(t, AbortReservation(ticket), now);
    Dispatch(t, ExpireReservations(at, max), now);
  }

  /** So does each request of the collector. */
  lemma CollectorRequests(t: Tables, now: int, chunks: set<ChunkId>, list: seq<ChunkId>, targets: set<TargetId>,
                          deleted: seq<(ChunkId, TargetId)>)
    ensures Execute(t, FinalizeTombstones(list), now) == UnitReply(FinalizeNode(t, list))
    ensures Execute(t, InitializeTargets(list, targets), now) == UnitReply(InitializeNode(t, list, targets))
    ensures Execute(t, AcknowledgeDeletes(deleted), now) == UnitReply(AcknowledgeNode(t, deleted))
    ensures var (t', reply) := Execute(t, TombstoneBatch(chunks), now);
            && t' == TombstoneNode(t, chunks).0 && reply.BatchResponse?
            && reply.tombstoned == TombstoneNode(t, chunks).1
            && (TombstoneNode(t, chunks).2 >= 0 ==> reply.removedManifests == TombstoneNode(t, chunks).2)
  {
    hide Execute;
    hide UnitReply;
    hide FinalizeNode;
    hide InitializeNode;
    hide AcknowledgeNode;
    hide TombstoneNode;
    Dispatch(t, FinalizeTombstones(list), now);
    Dispatch(t, InitializeTargets(list, targets), now);
    Dispatch(t, AcknowledgeDeletes(deleted), now);
    Dispatch(t, TombstoneBatch(chunks), now);
  }
}
