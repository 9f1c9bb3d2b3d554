/**
 The requests the filesystem client sends. The server checks generations, names
 and ordering itself; these conditions say what it takes on trust: an imported
 record is one of the two templates the client builds, and a commit carries an
 inode that was read at the expected generation and then mutated by the data path.
 */
module Admission {
  import opened Types
  import opened MetaTables

  const IMPORTED_FIELDS: LocalityFields := LocalityFields(UfsBacked, UfsClean, Idle, Imported)

  /** The record and manifest built for an object or directory of the backing store. */
  predicate ImportTemplate(template: Inode, manifest: Option<Manifest>) {
    && template.locality == LabelExternal && template.fields == Some(IMPORTED_FIELDS)
    && template.generation == 1 && template.headGen == 0 && template.ufsGen == 0
    && template.flushIntent.None? && template.symlinkTarget.None? && template.ufs.Some?
    && match template.fileType
       case Directory => template.linkCount == 2 && template.size == 0 && manifest.None?
       case Regular =>
         && template.linkCount == 1 && template.ufsBaseVersion.Some? && template.ufs.value.size == template.size
         && manifest == (if template.size == 0 then None
                         else Some(ObjectManifest(0, 0, template.size, template.ufs.value.key,
                                                  template.ufsBaseVersion.value)))
       case Symlink => false
  }

  /** One range over a whole object. */
  function ObjectManifest(inode: InodeId, gen: nat, size: nat, key: string, version: UfsVersion): Manifest {
    Manifest(inode, gen, size, if size == 0 then [] else [UfsRange(0, size, key, version, 0)])
  }

  /** The locality fields of a file whose data was just changed. */
  function Mutated(f: LocalityFields): LocalityFields {
    LocalityFields(f.backing, if f.backing.UfsBacked? then Dirty else Ephemeral, Idle, f.origin)
  }

  /** `next` and `m` are what the data path makes of the record `cur`. */
  predicate DataCommit(cur: Inode, next: Inode, m: Manifest) {
    && cur.fileType == Regular && cur.fields.Some? && !cur.fields.value.dataState.DirtyConflict?
    && (var f := Mutated(cur.fields.value);
        next == cur.(generation := cur.generation + 1, headGen := cur.headGen + 1, size := m.size,
                     fields := Some(f), locality := DeriveLabel(f, cur.headGen + 1, cur.ufsGen),
                     mode := next.mode, uid := next.uid, gid := next.gid, times := next.times))
    && m.inode == cur.id && m.gen == cur.headGen + 1
  }

  /** A commit is built from the record it expects to replace. */
  predicate BuiltFromRead(t: Tables, expected: nat, next: Inode, m: Manifest) {
    next.id in t.inodes && t.inodes[next.id].generation == expected ==> DataCommit(t.inodes[next.id], next, m)
  }

  predicate Admissible(t: Tables, req: Request) {
    match req
    case ImportExternal(_, _, template, manifest, _) => ImportTemplate(template, manifest)
    case CommitInodeManifest(expected, inode, m) => BuiltFromRead(t, expected, inode, m)
    case CommitReserved(_, expected, inode, m) => BuiltFromRead(t, expected, inode, m)
    case _ => true
  }
}
