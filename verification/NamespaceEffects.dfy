/**
 What the namespace requests do to the names, seen from outside: when each one
 succeeds, which names change, and which inodes appear or go.
 */
module NamespaceEffects {
  import opened Types
  import opened MetaTables
  import opened Namespace
  import opened NamespaceOps

  /** A directory that may be changed by a request expecting this generation. */
  predicate Writable(t: Tables, dir: InodeId, expected: Option<nat>) {
    && dir in t.inodes && t.inodes[dir].fileType == Directory
    && (expected.Some? ==> expected.value == t.inodes[dir].generation)
  }

  /** Why a directory may not be changed. */
  function DirError(t: Tables, dir: InodeId, expected: Option<nat>): FluxError {
    if dir !in t.inodes then NotFound
    else if t.inodes[dir].fileType != Directory then NotDirectory
    else CasFailed(if expected.Some? then expected.value else 0, t.inodes[dir].generation)
  }

  /** Records outside `touched` are the same. */
  ghost predicate OthersSame(t: Tables, t': Tables, touched: set<InodeId>) {
    forall i | i !in touched :: (i in t.inodes <==> i in t'.inodes) && (i in t.inodes ==> t'.inodes[i] == t.inodes[i])
  }

  /** The directory got its next generation and was modified and changed now, nothing else. */
  ghost predicate DirBumped(t: Tables, t': Tables, dir: InodeId, now: int) {
    && dir in t.inodes && dir in t'.inodes
    && t'.inodes[dir] == t.inodes[dir].(generation := t.inodes[dir].generation + 1,
                                        times := Times(now, now, t.inodes[dir].times.atime))
  }

  /** The inode got its next generation and was changed now, nothing else but perhaps its link count. */
  predicate Changed(a: Inode, b: Inode, links: nat, now: int) {
    b == a.(linkCount := links, generation := a.generation + 1, times := Times(a.times.mtime, now, a.times.atime))
  }

  /** Reservations, attributes and presences of these inodes are gone, everybody else's are as they were. */
  ghost predicate RowsDropped(t: Tables, t': Tables, dead: set<InodeId>) {
    && t'.reservations.Keys == (set k | k in t.reservations && t.reservations[k].inode !in dead)
    && (forall k | k in t'.reservations :: t'.reservations[k] == t.reservations[k])
    && t'.xattrs.Keys == (set k | k in t.xattrs && k.0 !in dead)
    && (forall k | k in t'.xattrs :: t'.xattrs[k] == t.xattrs[k])
    && t'.presences == (set p | p in t.presences && p.0 !in dead)
    && t'.manifests == t.manifests && t'.tombstones == t.tombstones
    && t'.nextInode == t.nextInode && t'.nextManifest == t.nextManifest
  }

  predicate IsFresh(i: Inode, id: InodeId, fileType: FileType, mode: nat, uid: nat, gid: nat, target: Option<string>,
                    now: int)
  {
    && i.id == id && i.fileType == fileType && i.mode == mode && i.uid == uid && i.gid == gid
    && i.symlinkTarget == target && i.size == (if target.Some? then |target.value| else 0)
    && i.linkCount == (if fileType == Directory then 2 else 1)
    && i.times.mtime == now && i.times.ctime == now && i.times.atime == now
    && i.generation == 1 && i.headGen == 1 && i.ufsGen == 0
    && i.locality == LabelEphemeral && i.fields.Some? && i.fields.value.backing == EphemeralMount
    && i.fields.value.dataState == Ephemeral && i.fields.value.opState == Idle && i.fields.value.origin == FluxCreated
    && i.manifestId.None? && i.ufs.None? && i.ufsBaseVersion.None? && i.flushIntent.None? && i.lastError.None?
  }

  /** A parent is bumped exactly when it may be changed. */
  lemma BumpEffect(t: Tables, parent: InodeId, expected: Option<nat>, now: int)
    ensures var r := BumpParent(t, parent, expected, now);
            && (r.Ok? <==> Writable(t, parent, expected))
            && (r.Ok? ==>
                  && DirBumped(t, r.value, parent, now) && OthersSame(t, r.value, {parent})
                  && r.value == t.(inodes := r.value.inodes))
            && (r.Err? ==> r.error == DirError(t, parent, expected))
  {
  }

  lemma FreshIs(id: InodeId, fileType: FileType, mode: nat, uid: nat, gid: nat, target: Option<string>, now: int)
    ensures IsFresh(FreshInode(id, fileType, mode, uid, gid, target, now), id, fileType, mode, uid, gid, target, now)
  {
  }

  // -------------------------------------------------------- create and link

  lemma CreateEffect(t: Tables, expected: Option<nat>, parent: InodeId, name: string, fileType: FileType,
                     mode: nat, uid: nat, gid: nat, target: Option<string>, now: int)
    requires Ids(t)
    ensures var o := CreateNode(t, expected, parent, name, fileType, mode, uid, gid, target, now);
            && (o.result.Ok? <==>
                  && name != "" && '/' !in name && name != "." && name != ".." && (parent, name) !in t.dentries
                  && Writable(t, parent, expected))
            && (o.result.Ok? ==>
                  var child := o.result.value;
                  && IsFresh(child, t.nextInode, fileType, mode, uid, gid, target, now)
                  && child.id !in t.inodes && child.id in o.tables.inodes && o.tables.inodes[child.id] == child
                  && o.tables.dentries == t.dentries[(parent, name) := child.id]
                  && DirBumped(t, o.tables, parent, now) && OthersSame(t, o.tables, {parent, child.id})
                  && o.tables == t.(inodes := o.tables.inodes, dentries := o.tables.dentries,
                                    xattrs := o.tables.xattrs, nextInode := t.nextInode + 1))
            && (o.result.Err? ==>
                  && o.tables == t
                  && o.result.error == if name == "" || '/' in name || name == "." || name == ".." then InvalidArg
                                       else if (parent, name) in t.dentries then AlreadyExists
                                       else DirError(t, parent, expected))
  {
    hide InheritAcl;
    hide BumpParent;
    hide FreshInode;
    hide IsFresh;
    hide Writable;
    hide DirError;
    BumpEffect(t, parent, expected, now);
    FreshIs(t.nextInode, fileType, mode, uid, gid, target, now);
    var o := CreateNode(t, expected, parent, name, fileType, mode, uid, gid, target, now);
    if o.result.Ok? { FreshId(t, t.nextInode, fileType, mode, uid, gid, target, now); }
  }

  lemma FreshId(t: Tables, id: InodeId, fileType: FileType, mode: nat, uid: nat, gid: nat, target: Option<string>,
                now: int)
    requires Ids(t) && id == t.nextInode
    ensures id !in t.inodes && FreshInode(id, fileType, mode, uid, gid, target, now).id == id
  {
  }

  /** A symbolic link is a node with a target that is not empty, has no NUL and fits. */
  lemma SymlinkEffect(t: Tables, expected: Option<nat>, parent: InodeId, name: string, target: string, uid: nat,
                      gid: nat, now: int)
    ensures var o := SymlinkNode(t, expected, parent, name, target, uid, gid, now);
            if target != "" && '\0' !in target && |target| <= 4096
            then o == CreateNode(t, expected, parent, name, Symlink, 0x1ff, uid, gid, Some(target), now)
            else o == Outcome(t, Err(InvalidArg))
  {
    hide CreateNode;
  }

  /** A child of a directory with a default ACL starts with it, and only such a child gets attributes. */
  lemma CreateInherits(t: Tables, expected: Option<nat>, parent: InodeId, name: string, fileType: FileType,
                       mode: nat, uid: nat, gid: nat, target: Option<string>, now: int, key: XattrKey)
    requires Ids(t) && (forall k | k in t.xattrs :: k.0 in t.inodes)
    requires CreateNode(t, expected, parent, name, fileType, mode, uid, gid, target, now).result.Ok?
    ensures var t' := CreateNode(t, expected, parent, name, fileType, mode, uid, gid, target, now).tables;
            var access, default := "system.posix_acl_access", "system.posix_acl_default";
            if key.0 in t.inodes
            then (key in t'.xattrs <==> key in t.xattrs) && (key in t.xattrs ==> t'.xattrs[key] == t.xattrs[key])
            else
              && (key in t'.xattrs <==>
                    && key.0 == t.nextInode && (parent, default) in t.xattrs
                    && (key.1 == access || (key.1 == default && fileType == Directory)))
              && (key in t'.xattrs ==> t'.xattrs[key] == t.xattrs[(parent, default)])
  {
    hide BadName;
  }

  lemma LinkEffect(t: Tables, expected: Option<nat>, id: InodeId, parent: InodeId, name: string, now: int)
    requires Ids(t)
    ensures var o := LinkNode(t, expected, id, parent, name, now);
            && (o.result.Ok? <==>
                  && name != "" && '/' !in name && name != "." && name != ".." && |name| <= 255
                  && (parent, name) !in t.dentries && Writable(t, parent, expected)
                  && id in t.inodes && t.inodes[id].fileType != Directory && t.inodes[id].linkCount > 0)
            && (o.result.Ok? ==>
                  && o.tables.dentries == t.dentries[(parent, name) := id]
                  && id in o.tables.inodes && o.tables.inodes[id] == o.result.value
                  && Changed(t.inodes[id], o.result.value, t.inodes[id].linkCount + 1, now)
                  && DirBumped(t, o.tables, parent, now) && OthersSame(t, o.tables, {parent, id})
                  && o.tables == t.(inodes := o.tables.inodes, dentries := o.tables.dentries))
            && (o.result.Err? ==>
                  && o.tables == t
                  && o.result.error == if name == "" || '/' in name || name == "." || name == ".." || |name| > 255
                                       then InvalidArg
                                       else if (parent, name) in t.dentries then AlreadyExists
                                       else if id !in t.inodes then NotFound
                                       else if t.inodes[id].fileType == Directory then NotPermitted
                                       else if t.inodes[id].linkCount == 0 then NotFound
                                       else DirError(t, parent, expected))
  {
  }

  // --------------------------------------------------------------- removal

  /** The inode whose name was taken away: gone if that was all that kept it, or with one link less. */
  ghost predicate Unnamed(t: Tables, t': Tables, id: InodeId, now: int)
    requires id in t.inodes
  {
    if |NamesOf(t.dentries, id)| == 1 && (forall p | p in t.presences :: p.0 != id)
    then id !in t'.inodes && RowsDropped(t, t', {id})
    else
      && t.inodes[id].linkCount > 0 && id in t'.inodes
      && Changed(t.inodes[id], t'.inodes[id], t.inodes[id].linkCount - 1, now) && RowsDropped(t, t', {})
  }

  /** Removing a name deletes the inode exactly when it was the last name and nothing has it open. */
  lemma UnlinkEffect(t: Tables, expected: Option<nat>, parent: InodeId, name: string, now: int)
    requires Tree(t)
    ensures var o, key := UnlinkNode(t, expected, parent, name, now), (parent, name);
            && (o.result.Ok? <==>
                  && key in t.dentries && t.inodes[t.dentries[key]].fileType != Directory
                  && Writable(t, parent, expected))
            && (o.result.Ok? ==>
                  var id := t.dentries[key];
                  && o.tables.dentries == t.dentries - {key} && Unnamed(t, o.tables, id, now)
                  && DirBumped(t, o.tables, parent, now) && OthersSame(t, o.tables, {parent, id}))
            && (o.result.Err? ==>
                  && o.tables == t
                  && o.result.error == if key !in t.dentries then NotFound
                                       else if t.inodes[t.dentries[key]].fileType == Directory then IsDirectory
                                       else DirError(t, parent, expected))
  {
    hide Tree;
    hide NamesOf;
    hide RemoveLink;
    hide OthersSame;
    hide Unnamed;
    TreeIds(t);
    var key := (parent, name);
    if key in t.dentries && t.inodes[t.dentries[key]].fileType != Directory && Writable(t, parent, expected) {
      NamedInTree(t, key);
      var t1 := BumpParent(t, parent, expected, now).value.(dentries := t.dentries - {key});
      LastLinkEffect(t1, t.inodes[t.dentries[key]], now);
      var t' := RemoveLink(t1, t.inodes[t.dentries[key]], now).tables;
      BumpedOthers(t, t1, parent, t', t.dentries[key], now);
      UnnamedIs(t, t1, t', t.dentries[key], now);
    }
  }

  lemma NamedInTree(t: Tables, key: DentryKey)
    requires Tree(t) && key in t.dentries && t.inodes[t.dentries[key]].fileType != Directory
    ensures t.inodes[t.dentries[key]].linkCount == |NamesOf(t.dentries, t.dentries[key])| > 0
    ensures t.dentries[key] != key.0
  {
    NamedHasLink(t, key);
  }

  /** Taking one link away, in terms of the tables just before. */
  lemma LastLinkEffect(t: Tables, child: Inode, now: int)
    requires child.linkCount > 0 && child.id in t.inodes
    ensures var o := RemoveLink(t, child, now);
            && o.result.Ok? && o.tables.dentries == t.dentries && OthersSame(t, o.tables, {child.id})
            && if child.linkCount == 1 && (forall p | p in t.presences :: p.0 != child.id)
               then child.id !in o.tables.inodes && RowsDropped(t, o.tables, {child.id})
               else
                 && child.id in o.tables.inodes && RowsDropped(t, o.tables, {})
                 && Changed(child, o.tables.inodes[child.id], child.linkCount - 1, now)
  {
    if child.linkCount == 1 && (forall p | p in t.presences :: p.0 != child.id) {
      DeleteEffect(t, child.id);
    } else {
      NothingDropped(t, RemoveLink(t, child, now).tables);
    }
  }

  lemma NothingDropped(t: Tables, t': Tables)
    requires t' == t.(inodes := t'.inodes, dentries := t'.dentries)
    ensures RowsDropped(t, t', {})
  {
  }

  lemma UnnamedIs(t: Tables, t1: Tables, t': Tables, id: InodeId, now: int)
    requires id in t.inodes && id in t1.inodes && t1.inodes[id] == t.inodes[id]
    requires t1 == t.(inodes := t1.inodes, dentries := t1.dentries)
    requires t.inodes[id].linkCount == |NamesOf(t.dentries, id)| > 0
    requires if t.inodes[id].linkCount == 1 && (forall p | p in t1.presences :: p.0 != id)
             then id !in t'.inodes && RowsDropped(t1, t', {id})
             else
               && id in t'.inodes && RowsDropped(t1, t', {})
               && Changed(t.inodes[id], t'.inodes[id], t.inodes[id].linkCount - 1, now)
    ensures Unnamed(t, t', id, now)
  {
    hide NamesOf;
  }

  lemma BumpedOthers(t: Tables, t1: Tables, parent: InodeId, t': Tables, id: InodeId, now: int)
    requires parent in t.inodes && parent in t1.inodes && t1.inodes == t.inodes[parent := t1.inodes[parent]]
    requires OthersSame(t1, t', {id}) && id != parent
    requires DirBumped(t, t1, parent, now)
    ensures OthersSame(t, t', {parent, id}) && DirBumped(t, t', parent, now)
  {
  }

  lemma RmdirEffect(t: Tables, expected: Option<nat>, parent: InodeId, name: string, now: int)
    requires Tree(t)
    ensures var o, key := RmdirNode(t, expected, parent, name, now), (parent, name);
            && (o.result.Ok? <==>
                  && key in t.dentries && t.inodes[t.dentries[key]].fileType == Directory
                  && (forall k | k in t.dentries :: k.0 != t.dentries[key]) && Writable(t, parent, expected))
            && (o.result.Ok? ==>
                  var id := t.dentries[key];
                  && o.tables.dentries == t.dentries - {key} && id !in o.tables.inodes && RowsDropped(t, o.tables, {id})
                  && DirBumped(t, o.tables, parent, now) && OthersSame(t, o.tables, {parent, id}))
            && (o.result.Err? ==>
                  && o.tables == t
                  && o.result.error == if key !in t.dentries then NotFound
                                       else if t.inodes[t.dentries[key]].fileType != Directory then NotDirectory
                                       else if exists k | k in t.dentries :: k.0 == t.dentries[key] then NotEmpty
                                       else DirError(t, parent, expected))
  {
    hide Tree;
    hide DeleteInodes;
    hide OthersSame;
    hide RowsDropped;
    TreeIds(t);
    var key := (parent, name);
    if key in t.dentries && !HasChildren(t, t.dentries[key]) && Writable(t, parent, expected) {
      var id := t.dentries[key];
      OwnerHasChildren(t, key);
      var t1 := BumpParent(t, parent, expected, now).value.(dentries := t.dentries - {key});
      DeleteEffect(t1, id);
      BumpedOthers(t, t1, parent, DeleteInodes(t1, {id}), id, now);
      DroppedThrough(t, t1, DeleteInodes(t1, {id}), {id});
    }
  }

  lemma OwnerHasChildren(t: Tables, key: DentryKey)
    requires key in t.dentries
    ensures HasChildren(t, key.0)
  {
  }

  lemma DeleteEffect(t: Tables, id: InodeId)
    ensures var t' := DeleteInodes(t, {id});
            t'.dentries == t.dentries && id !in t'.inodes && OthersSame(t, t', {id}) && RowsDropped(t, t', {id})
  {
  }

  lemma DroppedThrough(t: Tables, t1: Tables, t': Tables, dead: set<InodeId>)
    requires t1 == t.(inodes := t1.inodes, dentries := t1.dentries) && RowsDropped(t1, t', dead)
    ensures RowsDropped(t, t', dead)
  {
  }

  // ---------------------------------------------------------------- rename

  /** Link and rename want a usable name that fits. */
  predicate GoodEntry(name: string) {
    name != "" && '/' !in name && name != "." && name != ".." && |name| <= 255
  }

  /** Whether one inode may take the place of another. */
  predicate MayReplace(t: Tables, source: Inode, d: InodeId)
    requires d in t.inodes
  {
    if source.fileType == Directory then t.inodes[d].fileType == Directory && (forall k | k in t.dentries :: k.0 != d)
    else t.inodes[d].fileType != Directory
  }

  /** The names, parents and target allow the rename, and no directory moves below itself. */
  ghost predicate RenameAllowed(t: Tables, oldKey: DentryKey, expOld: Option<nat>, newKey: DentryKey,
                                expNew: Option<nat>, noReplace: bool)
  {
    && GoodEntry(oldKey.1) && GoodEntry(newKey.1) && oldKey in t.dentries && t.dentries[oldKey] in t.inodes
    && Writable(t, oldKey.0, expOld) && Writable(t, newKey.0, expNew)
    && (oldKey != newKey ==>
          && !(t.inodes[t.dentries[oldKey]].fileType == Directory && Reaches(t.dentries, t.dentries[oldKey], newKey.0))
          && (newKey in t.dentries ==>
                && !noReplace
                && (t.dentries[newKey] != t.dentries[oldKey] ==>
                      && t.dentries[newKey] in t.inodes
                      && MayReplace(t, t.inodes[t.dentries[oldKey]], t.dentries[newKey]))))
  }

  /** Both names already stand for the same inode. */
  predicate NothingToMove(t: Tables, oldKey: DentryKey, newKey: DentryKey) {
    oldKey == newKey || (newKey in t.dentries && oldKey in t.dentries && t.dentries[newKey] == t.dentries[oldKey])
  }

  lemma SuccessWasAllowed(t: Tables, oldParent: InodeId, oldName: string, expOld: Option<nat>,
                          newParent: InodeId, newName: string, expNew: Option<nat>, noReplace: bool, now: int)
    requires Ids(t)
    requires RenameNode(t, oldParent, oldName, expOld, newParent, newName, expNew, noReplace, now).result.Ok?
    ensures RenameAllowed(t, (oldParent, oldName), expOld, (newParent, newName), expNew, noReplace)
  {
    hide RenameMove;
    hide Reaches;
  }

  /** A rename that is not allowed says why, and changes nothing. */
  lemma RefusedRename(t: Tables, oldParent: InodeId, oldName: string, expOld: Option<nat>,
                      newParent: InodeId, newName: string, expNew: Option<nat>, noReplace: bool, now: int)
    requires Ids(t) && !RenameAllowed(t, (oldParent, oldName), expOld, (newParent, newName), expNew, noReplace)
    ensures var oldKey, newKey := (oldParent, oldName), (newParent, newName);
            var o := RenameNode(t, oldParent, oldName, expOld, newParent, newName, expNew, noReplace, now);
            && o.tables == t && o.result.Err?
            && o.result.error ==
               if !GoodEntry(oldName) || !GoodEntry(newName) then InvalidArg
               else if oldKey !in t.dentries || t.dentries[oldKey] !in t.inodes then NotFound
               else if oldParent !in t.inodes || newParent !in t.inodes then NotFound
               else if t.inodes[oldParent].fileType != Directory || t.inodes[newParent].fileType != Directory
               then NotDirectory
               else if !Writable(t, oldParent, expOld) then DirError(t, oldParent, expOld)
               else if !Writable(t, newParent, expNew) then DirError(t, newParent, expNew)
               else
                 var source := t.inodes[t.dentries[oldKey]];
                 if source.fileType == Directory && Reaches(t.dentries, t.dentries[oldKey], newParent) then InvalidArg
                 else if noReplace then AlreadyExists
                 else if t.dentries[newKey] !in t.inodes then NotFound
                 else if source.fileType == Directory && t.inodes[t.dentries[newKey]].fileType != Directory
                 then NotDirectory
                 else if source.fileType != Directory then IsDirectory else NotEmpty
  {
    hide RenameMove;
    hide Reaches;
  }

  lemma AllowedIsReady(t: Tables, oldKey: DentryKey, expOld: Option<nat>, newKey: DentryKey, expNew: Option<nat>,
                       noReplace: bool)
    requires Ids(t) && RenameAllowed(t, oldKey, expOld, newKey, expNew, noReplace) && !NothingToMove(t, oldKey, newKey)
    ensures MoveReady(t, t.inodes[t.dentries[oldKey]], oldKey, newKey)
  {
    hide Reaches;
    hide GoodEntry;
  }

  lemma AllowedRuns(t: Tables, oldParent: InodeId, oldName: string, expOld: Option<nat>,
                    newParent: InodeId, newName: string, expNew: Option<nat>, noReplace: bool, now: int)
    requires Ids(t) && RenameAllowed(t, (oldParent, oldName), expOld, (newParent, newName), expNew, noReplace)
    ensures var oldKey, newKey := (oldParent, oldName), (newParent, newName);
            var o := RenameNode(t, oldParent, oldName, expOld, newParent, newName, expNew, noReplace, now);
            var source := t.inodes[t.dentries[oldKey]];
            if NothingToMove(t, oldKey, newKey) then o == Outcome(t, Ok(source))
            else o == RenameMove(t, source, oldKey, expOld, newKey, expNew, now)
  {
    hide RenameMove;
    hide Reaches;
  }

  /**
   The name is moved, both directories are bumped once, the inode keeps everything but
   its generation and change time, and what it replaces loses that name.
   */
  ghost predicate MovedTo(t: Tables, t': Tables, oldKey: DentryKey, newKey: DentryKey, now: int) {
    && oldKey in t.dentries && t.dentries[oldKey] in t.inodes && t.dentries[oldKey] in t'.inodes
    && t'.dentries == (t.dentries - {oldKey})[newKey := t.dentries[oldKey]]
    && Changed(t.inodes[t.dentries[oldKey]], t'.inodes[t.dentries[oldKey]],
               t.inodes[t.dentries[oldKey]].linkCount, now)
    && DirBumped(t, t', oldKey.0, now) && DirBumped(t, t', newKey.0, now)
    && if newKey in t.dentries
       then && t.dentries[newKey] in t.inodes && Replaced(t, t', t.dentries[newKey], now)
            && OthersSame(t, t', {t.dentries[oldKey], oldKey.0, newKey.0, t.dentries[newKey]})
       else OthersSame(t, t', {t.dentries[oldKey], oldKey.0, newKey.0}) && RowsDropped(t, t', {})
  }

  /** A replaced directory is gone; another inode lost a name. */
  ghost predicate Replaced(t: Tables, t': Tables, id: InodeId, now: int)
    requires id in t.inodes
  {
    if t.inodes[id].fileType == Directory then id !in t'.inodes && RowsDropped(t, t', {id})
    else Unnamed(t, t', id, now)
  }

  /** Clearing the destination, in terms of the tables just before. */
  lemma ClearEffect(t: Tables, key: DentryKey, now: int)
    requires Tree(t)
    ensures var t' := ClearDestination(t, key, now).tables;
            if key in t.dentries
            then Replaced(t, t', t.dentries[key], now) && OthersSame(t, t', {t.dentries[key]})
            else t' == t
  {
    hide Tree;
    hide RemoveLink;
    hide DeleteInodes;
    hide RowsDropped;
    hide OthersSame;
    hide NamesOf;
    hide Unnamed;
    TreeIds(t);
    if key in t.dentries {
      var id, t1 := t.dentries[key], t.(dentries := t.dentries - {key});
      NamedStored(t, key);
      if t.inodes[id].fileType == Directory {
        DeleteEffect(t1, id);
        DroppedThrough(t, t1, DeleteInodes(t1, {id}), {id});
        SameRecords(t, t1, DeleteInodes(t1, {id}), {id});
      } else {
        NamedInTree(t, key);
        LastLinkEffect(t1, t.inodes[id], now);
        UnnamedIs(t, t1, RemoveLink(t1, t.inodes[id], now).tables, id, now);
        SameRecords(t, t1, RemoveLink(t1, t.inodes[id], now).tables, {id});
      }
    }
  }

  lemma NamedStored(t: Tables, key: DentryKey)
    requires Tree(t) && key in t.dentries
    ensures t.dentries[key] in t.inodes && t.inodes[t.dentries[key]].id == t.dentries[key]
  {
  }

  lemma SameRecords(t: Tables, t1: Tables, t': Tables, touched: set<InodeId>)
    requires t1.inodes == t.inodes && OthersSame(t1, t', touched)
    ensures OthersSame(t, t', touched)
  {
  }

  lemma BumpBothEffect(t: Tables, a: InodeId, expA: Option<nat>, b: InodeId, expB: Option<nat>, now: int)
    requires BumpBoth(t, a, expA, b, expB, now).Ok?
    ensures var t' := BumpBoth(t, a, expA, b, expB, now).value;
            && DirBumped(t, t', a, now) && DirBumped(t, t', b, now) && OthersSame(t, t', {a, b})
            && t' == t.(inodes := t'.inodes)
  {
    hide BumpParent;
    BumpEffect(t, a, expA, now);
    if a != b {
      var t1 := BumpParent(t, a, expA, now).value;
      BumpEffect(t1, b, expB, now);
      BumpedTwice(t, t1, BumpParent(t1, b, expB, now).value, a, b, now);
    } else {
      assert {a, b} == {a};
    }
  }

  lemma BumpedTwice(t: Tables, t1: Tables, t': Tables, a: InodeId, b: InodeId, now: int)
    requires a != b && DirBumped(t, t1, a, now) && OthersSame(t, t1, {a})
    requires DirBumped(t1, t', b, now) && OthersSame(t1, t', {b})
    ensures DirBumped(t, t', a, now) && DirBumped(t, t', b, now) && OthersSame(t, t', {a, b})
  {
  }

  /** Names are the same, so the same inodes lose the same things. */
  lemma ReplacedThrough(t: Tables, t2: Tables, t': Tables, id: InodeId, now: int)
    requires id in t.inodes && id in t2.inodes && t2 == t.(inodes := t2.inodes) && t2.inodes[id] == t.inodes[id]
    requires Replaced(t2, t', id, now)
    ensures Replaced(t, t', id, now)
  {
    hide NamesOf;
  }

  lemma MoveEffect(t: Tables, source: Inode, oldKey: DentryKey, expOld: Option<nat>,
                   newKey: DentryKey, expNew: Option<nat>, now: int)
    requires Tree(t) && MoveReady(t, source, oldKey, newKey)
    requires !Mismatch(t.inodes[oldKey.0], expOld) && !Mismatch(t.inodes[newKey.0], expNew)
    ensures RenameMove(t, source, oldKey, expOld, newKey, expNew, now).result.Ok?
    ensures MovedTo(t, RenameMove(t, source, oldKey, expOld, newKey, expNew, now).tables, oldKey, newKey, now)
  {
    hide Tree;
    hide RenameMove;
    hide MovedTo;
    hide NamespaceStep;
    hide ClearDestination;
    hide Replaced;
    hide OthersSame;
    hide DirBumped;
    hide Reaches;
    var t3 := MoveMiddle(t, source, oldKey, expOld, newKey, expNew, now);
    var t2 := BumpBoth(t, oldKey.0, expOld, newKey.0, expNew, now).value;
    BumpBothEffect(t, oldKey.0, expOld, newKey.0, expNew, now);
    BumpBothTree(t, oldKey.0, expOld, newKey.0, expNew, now);
    hide BumpBoth;
    SourceApart(t, source, oldKey, newKey);
    NamedStored(t, oldKey);
    ClearEffect(t2, newKey, now);
    if newKey in t.dentries { ReplacedHere(t, t2, t3, oldKey, newKey, now); }
    MoveDone(t, t2, t3, source, oldKey, newKey, now);
  }

  lemma ReplacedHere(t: Tables, t2: Tables, t3: Tables, oldKey: DentryKey, newKey: DentryKey, now: int)
    requires newKey in t.dentries && t.dentries[newKey] in t.inodes && t2 == t.(inodes := t2.inodes)
    requires OthersSame(t, t2, {oldKey.0, newKey.0})
    requires t.dentries[newKey] != oldKey.0 && t.dentries[newKey] != newKey.0
    requires t.dentries[newKey] in t2.inodes && Replaced(t2, t3, t.dentries[newKey], now)
    ensures Replaced(t, t3, t.dentries[newKey], now)
  {
    hide Replaced;
    ReplacedThrough(t, t2, t3, t.dentries[newKey], now);
  }

  /** The last step: the name goes to its new place and the inode's record follows. */
  lemma MoveDone(t: Tables, t2: Tables, t3: Tables, source: Inode, oldKey: DentryKey, newKey: DentryKey, now: int)
    requires oldKey in t.dentries && t.dentries[oldKey] in t.inodes && source == t.inodes[t.dentries[oldKey]]
    requires source.id == t.dentries[oldKey] && source.id != oldKey.0 && source.id != newKey.0
    requires newKey in t.dentries ==>
               && t.dentries[newKey] in t.inodes && t.dentries[newKey] != source.id
               && t.dentries[newKey] != oldKey.0 && t.dentries[newKey] != newKey.0
    requires DirBumped(t, t2, oldKey.0, now) && DirBumped(t, t2, newKey.0, now)
    requires OthersSame(t, t2, {oldKey.0, newKey.0}) && t2 == t.(inodes := t2.inodes)
    requires if newKey in t.dentries
             then Replaced(t, t3, t.dentries[newKey], now) && OthersSame(t2, t3, {t.dentries[newKey]})
             else t3 == t2
    requires source.id in t3.inodes && t3.inodes[source.id] == source && t3.dentries == t.dentries - {newKey}
    ensures var next := source.(generation := source.generation + 1, times := source.times.(ctime := now));
            MovedTo(t, t3.(dentries := (t3.dentries - {oldKey})[newKey := source.id],
                           inodes := t3.inodes[source.id := next]), oldKey, newKey, now)
  {
    hide Replaced;
    var next := source.(generation := source.generation + 1, times := source.times.(ctime := now));
    var t' := t3.(dentries := (t3.dentries - {oldKey})[newKey := source.id], inodes := t3.inodes[source.id := next]);
    assert t'.dentries == (t.dentries - {oldKey})[newKey := t.dentries[oldKey]];
    if newKey in t.dentries {
      ReplacedStays(t, t3, t', t.dentries[newKey], source.id, now);
    } else {
      NothingDropped(t, t');
    }
  }

  lemma ReplacedStays(t: Tables, t3: Tables, t': Tables, id: InodeId, source: InodeId, now: int)
    requires id in t.inodes && id != source && Replaced(t, t3, id, now) && source in t'.inodes
    requires t' == t3.(inodes := t'.inodes, dentries := t'.dentries)
    requires t'.inodes == t3.inodes[source := t'.inodes[source]]
    ensures Replaced(t, t', id, now)
  {
    hide NamesOf;
  }

  /** A rename succeeds exactly when it is allowed, and a success moves the name and nothing else. */
  lemma RenameEffect(t: Tables, oldParent: InodeId, oldName: string, expOld: Option<nat>,
                     newParent: InodeId, newName: string, expNew: Option<nat>, noReplace: bool, now: int)
    requires Tree(t)
    ensures var oldKey, newKey := (oldParent, oldName), (newParent, newName);
            var o := RenameNode(t, oldParent, oldName, expOld, newParent, newName, expNew, noReplace, now);
            && (o.result.Ok? <==> RenameAllowed(t, oldKey, expOld, newKey, expNew, noReplace))
            && (o.result.Ok? ==>
                  && oldKey in t.dentries && t.dentries[oldKey] in o.tables.inodes
                  && o.result.value == o.tables.inodes[t.dentries[oldKey]]
                  && if NothingToMove(t, oldKey, newKey) then o.tables == t
                     else MovedTo(t, o.tables, oldKey, newKey, now))
  {
    hide Tree;
    hide RenameNode;
    hide RenameMove;
    hide RenameAllowed;
    hide MoveReady;
    hide MovedTo;
    TreeIds(t);
    var oldKey, newKey := (oldParent, oldName), (newParent, newName);
    var o := RenameNode(t, oldParent, oldName, expOld, newParent, newName, expNew, noReplace, now);
    if o.result.Ok? { SuccessWasAllowed(t, oldParent, oldName, expOld, newParent, newName, expNew, noReplace, now); }
    if RenameAllowed(t, oldKey, expOld, newKey, expNew, noReplace) {
      AllowedRuns(t, oldParent, oldName, expOld, newParent, newName, expNew, noReplace, now);
      AllowedParents(t, oldKey, expOld, newKey, expNew, noReplace);
      if !NothingToMove(t, oldKey, newKey) {
        AllowedIsReady(t, oldKey, expOld, newKey, expNew, noReplace);
        MoveEffect(t, t.inodes[t.dentries[oldKey]], oldKey, expOld, newKey, expNew, now);
        MoveAnswer(t, t.inodes[t.dentries[oldKey]], oldKey, expOld, newKey, expNew, now);
      }
    }
  }

  lemma MoveAnswer(t: Tables, source: Inode, oldKey: DentryKey, expOld: Option<nat>,
                   newKey: DentryKey, expNew: Option<nat>, now: int)
    requires RenameMove(t, source, oldKey, expOld, newKey, expNew, now).result.Ok?
    ensures var o := RenameMove(t, source, oldKey, expOld, newKey, expNew, now);
            source.id in o.tables.inodes && o.tables.inodes[source.id] == o.result.value
  {
    hide ClearDestination;
    hide BumpParent;
  }

  lemma AllowedParents(t: Tables, oldKey: DentryKey, expOld: Option<nat>, newKey: DentryKey, expNew: Option<nat>,
                       noReplace: bool)
    requires RenameAllowed(t, oldKey, expOld, newKey, expNew, noReplace)
    ensures oldKey in t.dentries && t.dentries[oldKey] in t.inodes && oldKey.0 in t.inodes && newKey.0 in t.inodes
    ensures !Mismatch(t.inodes[oldKey.0], expOld) && !Mismatch(t.inodes[newKey.0], expNew)
  {
    hide Reaches;
  }

  // ---------------------------------------------------------------- import

  /** The imported record: the template under a fresh id, external, with its manifest if it has one. */
  predicate IsImport(i: Inode, template: Inode, id: InodeId, manifest: Option<Manifest>, manifestId: ManifestId) {
    && i.id == id && i.fileType == template.fileType && i.mode == template.mode && i.uid == template.uid
    && i.gid == template.gid && i.times == template.times && i.linkCount == template.linkCount
    && i.symlinkTarget == template.symlinkTarget && i.generation == template.generation
    && i.headGen == template.headGen && i.ufsGen == template.ufsGen && i.ufsBaseVersion == template.ufsBaseVersion
    && i.ufs == template.ufs && i.flushIntent == template.flushIntent && i.lastError == template.lastError
    && i.locality == LabelExternal
    && (if template.fields.Some? then i.fields == template.fields
        else i.fields == Some(LocalityFields(UfsBacked, UfsClean, Idle, Imported)))
    && if manifest.Some? then i.manifestId == Some(manifestId) && i.size == manifest.value.size
       else i.manifestId.None? && i.size == template.size
  }

  lemma ImportEffect(t: Tables, expected: Option<nat>, parent: InodeId, name: string, template: Inode,
                     manifest: Option<Manifest>, now: int)
    requires Ids(t) && (manifest.Some? ==> IsTree(manifest.value.extents))
    ensures var o := ImportNode(t, expected, parent, name, template, manifest, now);
            && (o.result.Ok? <==>
                  && name != "" && '/' !in name && name != "." && name != ".." && (parent, name) !in t.dentries
                  && (template.locality == LabelExternal
                      || (template.fields.Some? && template.fields.value.origin == Imported))
                  && Writable(t, parent, expected))
            && (o.result.Ok? ==>
                  var id := t.nextInode;
                  && id !in t.inodes && id in o.tables.inodes && o.tables.inodes[id] == o.result.value
                  && IsImport(o.result.value, template, id, manifest, t.nextManifest)
                  && o.tables.dentries == t.dentries[(parent, name) := id]
                  && DirBumped(t, o.tables, parent, now) && OthersSame(t, o.tables, {parent, id})
                  && o.tables.manifests == (if manifest.None? then t.manifests
                                            else t.manifests[t.nextManifest := manifest.value.(inode := id)])
                  && o.tables == t.(inodes := o.tables.inodes, dentries := o.tables.dentries,
                                    manifests := o.tables.manifests, nextInode := id + 1,
                                    nextManifest := t.nextManifest + if manifest.Some? then 1 else 0))
            && (o.result.Err? ==>
                  && o.tables == t
                  && o.result.error == if name == "" || '/' in name || name == "." || name == ".." then InvalidArg
                                       else if template.locality != LabelExternal
                                               && !(template.fields.Some? && template.fields.value.origin == Imported)
                                       then InvalidArg
                                       else if (parent, name) in t.dentries then AlreadyExists
                                       else DirError(t, parent, expected))
  {
    hide BumpParent;
    hide Writable;
    hide DirError;
    hide Ordered;
    BumpEffect(t, parent, expected, now);
    TreeOrdered(manifest);
  }

  lemma TreeOrdered(manifest: Option<Manifest>)
    requires manifest.Some? ==> IsTree(manifest.value.extents)
    ensures manifest.Some? ==> Ordered(manifest.value.extents)
  {
  }

  // --------------------------------------------------------------- handles

  predicate GoodSession(session: string) {
    && session != "" && |session| <= 128
    && forall c | c in session ::
         'a' <= c <= 'z' || 'A' <= c <= 'Z' || '0' <= c <= '9' || c == '-' || c == '_' || c == '.'
  }

  /** Opening a regular file records that the session has it open, and nothing else. */
  lemma OpenEffect(t: Tables, session: string, id: InodeId)
    ensures var o := OpenNode(t, session, id);
            && (o.result.Ok? <==> GoodSession(session) && id in t.inodes && t.inodes[id].fileType == Regular)
            && (o.result.Ok? ==> o.tables == t.(presences := t.presences + {(id, session)}))
            && (o.result.Err? ==>
                  && o.tables == t
                  && o.result.error == if GoodSession(session) && id !in t.inodes then NotFound else InvalidArg)
  {
  }

  /** Nobody names the inode, and only this session has it open. */
  predicate KeptOnlyBy(t: Tables, id: InodeId, session: string) {
    id in t.inodes && t.inodes[id].linkCount == 0 && forall p | p in t.presences && p.0 == id :: p.1 == session
  }

  /** Closing drops the session's hold, and the inode with it exactly when nothing else kept it. */
  lemma CloseEffect(t: Tables, session: string, id: InodeId)
    ensures var o := CloseNode(t, session, id);
            && (o.result.Ok? <==> GoodSession(session))
            && (o.result.Ok? ==>
                  && o.tables.dentries == t.dentries
                  && if KeptOnlyBy(t, id, session)
                     then id !in o.tables.inodes && OthersSame(t, o.tables, {id}) && RowsDropped(t, o.tables, {id})
                     else o.tables == t.(presences := t.presences - {(id, session)}))
            && (o.result.Err? ==> o.tables == t && o.result.error == InvalidArg)
  {
    hide RowsDropped;
    hide OthersSame;
    hide DeleteInodes;
    if GoodSession(session) {
      var t1 := t.(presences := t.presences - {(id, session)});
      assert KeptOnlyBy(t, id, session) <==>
               id in t.inodes && t.inodes[id].linkCount == 0 && !HasPresence(t1.presences, id);
      ReapsOne(t1, {id}, id);
      if KeptOnlyBy(t, id, session) {
        DeleteEffect(t1, id);
        ClosedRows(t, t1, DeleteInodes(t1, {id}), id, session);
      } else {
        DeleteNone(t1);
      }
    }
  }

  lemma ReapsOne(t: Tables, ids: set<InodeId>, id: InodeId)
    requires ids == {id}
    ensures id in t.inodes && t.inodes[id].linkCount == 0 && !HasPresence(t.presences, id)
            ==> ReapUnopened(t, ids) == DeleteInodes(t, {id})
    ensures !(id in t.inodes && t.inodes[id].linkCount == 0 && !HasPresence(t.presences, id))
            ==> ReapUnopened(t, ids) == DeleteInodes(t, {})
  {
    hide HasPresence;
    hide DeleteInodes;
    var dead := set i | i in ids && i in t.inodes && t.inodes[i].linkCount == 0 && !HasPresence(t.presences, i);
    assert dead == if id in t.inodes && t.inodes[id].linkCount == 0 && !HasPresence(t.presences, id) then {id} else {};
  }

  lemma ClosedRows(t: Tables, t1: Tables, t': Tables, id: InodeId, session: string)
    requires t1 == t.(presences := t.presences - {(id, session)})
    requires RowsDropped(t1, t', {id}) && OthersSame(t1, t', {id})
    ensures RowsDropped(t, t', {id}) && OthersSame(t, t', {id})
  {
  }

  lemma DeleteNone(t: Tables)
    ensures DeleteInodes(t, {}) == t
  {
    var u := DeleteInodes(t, {});
    assert u.inodes == t.inodes && u.reservations == t.reservations && u.xattrs == t.xattrs
           && u.presences == t.presences;
  }

  /** Recovery drops every hold of the session, and exactly the inodes nothing else kept. */
  lemma RecoverEffect(t: Tables, session: string)
    ensures var o := RecoverNode(t, session);
            && (o.result.Ok? <==> GoodSession(session))
            && (o.result.Ok? ==>
                  var dead := set p | p in t.presences && p.1 == session && KeptOnlyBy(t, p.0, session) :: p.0;
                  && o.tables.dentries == t.dentries && o.tables.inodes == t.inodes - dead
                  && o.tables.presences == (set p | p in t.presences && p.1 != session)
                  && o.tables.xattrs.Keys == (set k | k in t.xattrs && k.0 !in dead)
                  && (forall k | k in o.tables.xattrs :: o.tables.xattrs[k] == t.xattrs[k])
                  && o.tables.reservations.Keys == (set k | k in t.reservations && t.reservations[k].inode !in dead)
                  && (forall k | k in o.tables.reservations :: o.tables.reservations[k] == t.reservations[k])
                  && o.tables.manifests == t.manifests && o.tables.tombstones == t.tombstones
                  && o.tables.nextInode == t.nextInode && o.tables.nextManifest == t.nextManifest)
            && (o.result.Err? ==> o.tables == t && o.result.error == InvalidArg)
  {
    hide DeleteInodes;
    hide ReapUnopened;
    hide HasPresence;
    hide KeptOnlyBy;
    RecoverIs(t, session);
    if GoodSession(session) {
      var stale := set p | p in t.presences && p.1 == session;
      var t1, ids := t.(presences := t.presences - stale), set p | p in stale :: p.0;
      var dead := set p | p in t.presences && p.1 == session && KeptOnlyBy(t, p.0, session) :: p.0;
      RecoverReaps(t, t1, ids, dead, session);
      RecoveredTables(t, t1, dead, session);
    }
  }

  lemma RecoverIs(t: Tables, session: string)
    ensures var stale := set p | p in t.presences && p.1 == session;
            RecoverNode(t, session) ==
            if GoodSession(session)
            then Outcome(ReapUnopened(t.(presences := t.presences - stale), set p | p in stale :: p.0), Ok(()))
            else Outcome(t, Err(InvalidArg))
  {
    hide ReapUnopened;
  }

  lemma RecoverReaps(t: Tables, t1: Tables, ids: set<InodeId>, dead: set<InodeId>, session: string)
    requires t1 == t.(presences := t.presences - set p | p in t.presences && p.1 == session)
    requires ids == set p | p in t.presences && p.1 == session :: p.0
    requires dead == set p | p in t.presences && p.1 == session && KeptOnlyBy(t, p.0, session) :: p.0
    ensures ReapUnopened(t1, ids) == DeleteInodes(t1, dead)
  {
    hide DeleteInodes;
    hide HasPresence;
    hide KeptOnlyBy;
    forall i | i in ids
      ensures KeptOnlyBy(t, i, session) <==>
                i in t1.inodes && t1.inodes[i].linkCount == 0 && !HasPresence(t1.presences, i)
    {
      RecoverKept(t, session, i);
    }
    assert dead
        == set i | i in ids && i in t1.inodes && t1.inodes[i].linkCount == 0 && !HasPresence(t1.presences, i);
  }

  lemma RecoverKept(t: Tables, session: string, i: InodeId)
    ensures var left := t.presences - set p | p in t.presences && p.1 == session;
            KeptOnlyBy(t, i, session) <==> i in t.inodes && t.inodes[i].linkCount == 0 && !HasPresence(left, i)
  {
  }

  lemma RecoveredTables(t: Tables, t1: Tables, dead: set<InodeId>, session: string)
    requires t1 == t.(presences := t.presences - set p | p in t.presences && p.1 == session)
    requires forall i | i in dead :: KeptOnlyBy(t, i, session)
    ensures var t' := DeleteInodes(t1, dead);
            && t'.dentries == t.dentries && t'.inodes == t.inodes - dead
            && t'.presences == (set p | p in t.presences && p.1 != session)
            && t'.xattrs.Keys == (set k | k in t.xattrs && k.0 !in dead)
            && (forall k | k in t'.xattrs :: t'.xattrs[k] == t.xattrs[k])
            && t'.reservations.Keys == (set k | k in t.reservations && t.reservations[k].inode !in dead)
            && (forall k | k in t'.reservations :: t'.reservations[k] == t.reservations[k])
            && t'.manifests == t.manifests && t'.tombstones == t.tombstones
            && t'.nextInode == t.nextInode && t'.nextManifest == t.nextManifest
  {
  }
}
