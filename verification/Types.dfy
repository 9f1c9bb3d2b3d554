/**
 Shared value types of FluxFS: errors, locality state, inodes, extents and
 manifests.

 Content addresses, request ids and tickets are fixed-width byte strings whose
 byte order, hexadecimal order and big-endian numeric order coincide, so they
 are modelled as natural numbers.
 */
module Types {

  datatype Option<+T> = None | Some(value: T)

  datatype FluxError =
    | NotFound
    | AlreadyExists
    | NotDirectory
    | IsDirectory
    | NotEmpty
    | NoData
    | NoSpace
    | NotPermitted
    | InvalidArg
    | CasFailed(expected: nat, actual: nat)
    | DirtyConflictError
    | Busy
    | Io
    | Meta

  datatype Result<+T> = Ok(value: T) | Err(error: FluxError)

  type byte = b: int | 0 <= b < 256

  type InodeId = nat
  type ManifestId = nat
  type ChunkId = nat
  type Ticket = nat
  type TargetId = nat
  type FlushId = nat

  const ROOT_INODE: InodeId := 1

  const CHUNK_SIZE: nat := 4 * 1024 * 1024

  datatype FileType = Directory | Regular | Symlink

  datatype BackingMode = UfsBacked | EphemeralMount

  datatype DataState = UfsClean | Dirty | DirtyConflict | Ephemeral

  datatype Origin = FluxCreated | Imported

  /** Recorded durably before a write-back upload starts. */
  datatype FlushIntent = FlushIntent(
    flushId: FlushId,
    snapshotGen: nat,
    manifestRoot: ChunkId,
    expectedVersion: Option<UfsVersion>,
    targetDigest: ChunkId)

  datatype OpState = Idle | Hydrating(token: nat) | Flushing(intent: FlushIntent)

  datatype LocalityFields = LocalityFields(
    backing: BackingMode,
    dataState: DataState,
    opState: OpState,
    origin: Origin)

  datatype LocalityLabel =
    LabelDirty | LabelFlushing | LabelClean | LabelExternal | LabelEphemeral | LabelConflict

  /** The label shown to users, derived from the implementation fields. */
  function DeriveLabel(f: LocalityFields, headGen: nat, ufsGen: nat): LocalityLabel {
    if f.backing.EphemeralMount? then LabelEphemeral
    else if f.opState.Flushing? then LabelFlushing
    else match f.dataState
      case DirtyConflict => LabelConflict
      case Dirty => LabelDirty
      case UfsClean =>
        if headGen > ufsGen then LabelDirty
        else if f.origin.Imported? then LabelExternal
        else LabelClean
      case Ephemeral => LabelEphemeral
  }

  datatype UfsObject = UfsObject(key: string, size: nat, etag: Option<string>, mtime: Option<int>)

  /** A pinned object version: an ETag, or a stand-in derived from digest or size. */
  datatype UfsVersion = EtagVersion(etag: string) | DigestVersion(digest: ChunkId) | SizeVersion(size: nat)

  datatype Times = Times(mtime: int, ctime: int, atime: int)

  datatype Inode = Inode(
    id: InodeId,
    fileType: FileType,
    mode: nat,
    uid: nat,
    gid: nat,
    size: nat,
    times: Times,
    linkCount: nat,
    symlinkTarget: Option<string>,
    generation: nat,
    headGen: nat,
    ufsGen: nat,
    ufsBaseVersion: Option<UfsVersion>,
    locality: LocalityLabel,
    fields: Option<LocalityFields>,
    ufs: Option<UfsObject>,
    manifestId: Option<ManifestId>,
    flushIntent: Option<FlushIntent>,
    lastError: Option<string>)

  datatype Extent =
    | Local(offset: nat, len: nat, chunk: ChunkId)
    | UfsRange(offset: nat, len: nat, key: string, version: UfsVersion, objectOffset: nat)
  {
    function End(): nat { offset + len }
  }

  /** `extents` lists the extent tree in ascending offset order. */
  datatype Manifest = Manifest(inode: InodeId, gen: nat, size: nat, extents: seq<Extent>)

  /** No extent starts before its predecessor ends. */
  predicate Ordered(extents: seq<Extent>) {
    forall i | 0 < i < |extents| :: extents[i-1].End() <= extents[i].offset
  }

  /** What an extent tree can hold: its constructor and its deserializer refuse anything else. */
  predicate IsTree(extents: seq<Extent>) {
    Ordered(extents) && forall i | 0 <= i < |extents| :: extents[i].len > 0
  }

  /** The content addresses a manifest keeps alive. */
  function LocalChunks(m: Manifest): set<ChunkId> {
    set i | 0 <= i < |m.extents| && m.extents[i].Local? :: m.extents[i].chunk
  }
}
