/**
 The metadata store's operations in place: each method updates the tables step by
 step, as one write transaction does, and ends where the request's meaning says.
 */
module HeedStores {
  import opened Types
  import opened MetaTables
  import opened Namespace
  import opened NamespaceOps
  import opened Replay
  import opened CollectorEffects
  import opened AttributeEffects

  class HeedStore {
    var inodes: map<InodeId, Inode>
    var dentries: map<DentryKey, InodeId>
    var manifests: map<ManifestId, Manifest>
    var xattrs: map<XattrKey, seq<byte>>
    var reservations: map<Ticket, Reservation>
    var tombstones: map<ChunkId, Tombstone>
    var presences: set<Presence>
    var nextInode: InodeId
    var nextManifest: ManifestId

    function View(): Tables
      reads this
    {
      Tables(inodes, dentries, manifests, xattrs, reservations, tombstones, presences, nextInode, nextManifest)
    }

    // -------------------------------------------------------- name space

    method LoadAndBumpParent(parent: InodeId, expected: Option<nat>, now: int) returns (r: Result<()>)
      modifies this`inodes
      ensures var b := BumpParent(old(View()), parent, expected, now);
              if b.Ok? then r == Ok(()) && View() == b.value else r == Err(b.error) && View() == old(View())
    {
      if parent !in inodes {
        return Err(NotFound);
      }
      var p := inodes[parent];
      if p.fileType != Directory {
        return Err(NotDirectory);
      }
      if expected.Some? && expected.value != p.generation {
        return Err(CasFailed(expected.value, p.generation));
      }
      inodes := inodes[parent := Bumped(p, now)];
      r := Ok(());
    }

    method Create(expected: Option<nat>, parent: InodeId, name: string, fileType: FileType,
                  mode: nat, uid: nat, gid: nat, target: Option<string>, now: int) returns (r: Result<Inode>)
      modifies this
      ensures Outcome(View(), r)
              == CreateNode(old(View()), expected, parent, name, fileType, mode, uid, gid, target, now)
    {
      hide BadName;
      hide InheritAcl;
      hide BumpParent;
      if BadName(name) {
        return Err(InvalidArg);
      }
      if (parent, name) in dentries {
        return Err(AlreadyExists);
      }
      var bumped := LoadAndBumpParent(parent, expected, now);
      if bumped.Err? {
        return Err(bumped.error);
      }
      var id := nextInode;
      nextInode := id + 1;
      var inode := FreshInode(id, fileType, mode, uid, gid, target, now);
      inodes := inodes[id := inode];
      dentries := dentries[(parent, name) := id];
      InheritDefaultAcl(parent, id, fileType);
      r := Ok(inode);
    }

    method InheritDefaultAcl(parent: InodeId, id: InodeId, fileType: FileType)
      modifies this`xattrs
      ensures xattrs == InheritAcl(old(xattrs), parent, id, fileType)
    {
      if (parent, ACL_DEFAULT) in xattrs {
        var acl := xattrs[(parent, ACL_DEFAULT)];
        xattrs := xattrs[(id, ACL_ACCESS) := acl];
        if fileType == Directory {
          xattrs := xattrs[(id, ACL_DEFAULT) := acl];
        }
      }
    }

    method Link(expected: Option<nat>, id: InodeId, parent: InodeId, name: string, now: int) returns (r: Result<Inode>)
      modifies this
      ensures Outcome(View(), r) == LinkNode(old(View()), expected, id, parent, name, now)
    {
      if BadDentryName(name) {
        return Err(InvalidArg);
      }
      if (parent, name) in dentries {
        return Err(AlreadyExists);
      }
      if id !in inodes {
        return Err(NotFound);
      }
      var source := inodes[id];
      if source.fileType == Directory {
        return Err(NotPermitted);
      }
      if source.linkCount == 0 {
        return Err(NotFound);
      }
      var bumped := LoadAndBumpParent(parent, expected, now);
      if bumped.Err? {
        return Err(bumped.error);
      }
      source := source.(linkCount := source.linkCount + 1, generation := source.generation + 1,
                        times := source.times.(ctime := now));
      inodes := inodes[source.id := source];
      dentries := dentries[(parent, name) := source.id];
      r := Ok(source);
    }

    method CreateSymlink(expected: Option<nat>, parent: InodeId, name: string, target: string, uid: nat, gid: nat,
                         now: int)
      returns (r: Result<Inode>)
      modifies this
      ensures Outcome(View(), r) == SymlinkNode(old(View()), expected, parent, name, target, uid, gid, now)
    {
      hide CreateNode;
      if target == "" || '\0' in target || |target| > 4096 {
        return Err(InvalidArg);
      }
      r := Create(expected, parent, name, Symlink, 0x1ff, uid, gid, Some(target), now);
    }

    /** The manifest is checked after the parent was bumped and the id taken; none that can be received fails. */
    method ImportExternal(expected: Option<nat>, parent: InodeId, name: string, template: Inode,
                          manifest: Option<Manifest>, now: int) returns (r: Result<Inode>)
      modifies this
      ensures Outcome(View(), r) == ImportNode(old(View()), expected, parent, name, template, manifest, now)
    {
      hide BadName;
      hide Ordered;
      hide BumpParent;
      if BadName(name) {
        return Err(InvalidArg);
      }
      if template.locality != LabelExternal && !(template.fields.Some? && template.fields.value.origin == Imported) {
        return Err(InvalidArg);
      }
      if (parent, name) in dentries {
        return Err(AlreadyExists);
      }
      var bumped := LoadAndBumpParent(parent, expected, now);
      if bumped.Err? {
        return Err(bumped.error);
      }
      var inode := template.(id := nextInode, locality := LabelExternal, manifestId := None);
      nextInode := nextInode + 1;
      if inode.fields.None? {
        inode := inode.(fields := Some(LocalityFields(UfsBacked, UfsClean, Idle, Imported)));
      }
      if manifest.Some? {
        var put := PutManifest(manifest.value.(inode := inode.id));
        if put.Err? {
          return Err(put.error);
        }
        inode := inode.(manifestId := Some(put.value), size := manifest.value.size);
      }
      inodes := inodes[inode.id := inode];
      dentries := dentries[(parent, name) := inode.id];
      r := Ok(inode);
    }

    // ------------------------------------------- attributes and manifests

    method PutManifest(m: Manifest) returns (r: Result<ManifestId>)
      modifies this`manifests, this`nextManifest
      ensures Outcome(View(), r) == PutManifestNode(old(View()), m)
    {
      hide Ordered;
      if !Ordered(m.extents) {
        return Err(InvalidArg);
      }
      var id := nextManifest;
      nextManifest := id + 1;
      manifests := manifests[id := m];
      r := Ok(id);
    }

    /** How many attributes an inode has, and how many bytes they take. */
    method MeasureXattrs(id: InodeId) returns (count: nat, total: nat)
      ensures count == |XattrKeys(View(), id)| && total == TotalBytes(xattrs, XattrKeys(View(), id))
    {
      count, total := 0, 0;
      var keys := XattrKeys(View(), id);
      var todo := keys;
      while todo != {}
        invariant todo <= keys
        invariant count + |todo| == |keys|
        invariant total + TotalBytes(xattrs, todo) == TotalBytes(xattrs, keys)
        decreases |todo|
      {
        var k :| k in todo;
        TotalWithout(xattrs, todo, k);
        count, total := count + 1, total + |xattrs[k]|;
        todo := todo - {k};
      }
    }

    method SetXattr(expected: nat, id: InodeId, name: string, value: seq<byte>, mode: XattrMode, now: int)
      returns (r: Result<Inode>)
      modifies this`xattrs, this`inodes
      ensures Outcome(View(), r) == SetXattrNode(old(View()), expected, id, name, value, mode, now)
    {
      hide XattrError;
      hide XattrKeys;
      hide TotalBytes;
      if id !in inodes {
        return Err(NotFound);
      }
      var inode := inodes[id];
      if inode.generation != expected {
        return Err(CasFailed(expected, inode.generation));
      }
      var refused := XattrError(inode, name, value);
      if refused.Some? {
        return Err(refused.value);
      }
      var present := (id, name) in xattrs;
      if mode == CreateOnly && present {
        return Err(AlreadyExists);
      }
      if mode == ReplaceOnly && !present {
        return Err(NoData);
      }
      var count, total := MeasureXattrs(id);
      if !present && count >= 64 {
        return Err(NoSpace);
      }
      if total - (if present then |xattrs[(id, name)]| else 0) + |value| > 256 * 1024 {
        return Err(NoSpace);
      }
      inode := inode.(generation := inode.generation + 1, times := inode.times.(ctime := now));
      xattrs := xattrs[(id, name) := value];
      inodes := inodes[inode.id := inode];
      r := Ok(inode);
    }

    /** The row is deleted first; only then is its absence noticed. */
    method RemoveXattr(expected: nat, id: InodeId, name: string, now: int) returns (r: Result<Inode>)
      modifies this`xattrs, this`inodes
      ensures Outcome(View(), r) == RemoveXattrNode(old(View()), expected, id, name, now)
    {
      hide ValidXattrName;
      if !ValidXattrName(name) {
        return Err(InvalidArg);
      }
      if id !in inodes {
        return Err(NotFound);
      }
      var inode := inodes[id];
      if inode.generation != expected {
        return Err(CasFailed(expected, inode.generation));
      }
      var removed := (id, name) in xattrs;
      xattrs := xattrs - {(id, name)};
      if !removed {
        assert xattrs == old(xattrs);
        return Err(NoData);
      }
      inode := inode.(generation := inode.generation + 1, times := inode.times.(ctime := now));
      inodes := inodes[inode.id := inode];
      r := Ok(inode);
    }

    method PutInodeCas(expected: nat, inode: Inode) returns (r: Result<Inode>)
      modifies this`inodes
      ensures Outcome(View(), r) == PutInodeCasNode(old(View()), expected, inode)
    {
      if inode.id !in inodes {
        return Err(NotFound);
      }
      var current := inodes[inode.id];
      if current.generation != expected {
        return Err(CasFailed(expected, current.generation));
      }
      if inode.generation != expected + 1 {
        return Err(InvalidArg);
      }
      if current.id != inode.id || current.fileType != inode.fileType || current.size != inode.size
         || current.linkCount != inode.linkCount || current.symlinkTarget != inode.symlinkTarget
         || current.headGen != inode.headGen || current.ufsGen != inode.ufsGen
         || current.ufsBaseVersion != inode.ufsBaseVersion || current.locality != inode.locality
         || current.fields != inode.fields || current.ufs != inode.ufs || current.manifestId != inode.manifestId
         || current.flushIntent != inode.flushIntent || current.lastError != inode.lastError
      {
        return Err(InvalidArg);
      }
      inodes := inodes[inode.id := inode];
      r := Ok(inode);
    }

    /** Drop an inode with the reservations, attributes and presences that name it. */
    method DeleteInode(id: InodeId)
      modifies this
      ensures View() == DeleteInodes(old(View()), {id})
    {
      DropReservations(id);
      DropXattrs(id);
      DropPresences(id);
      inodes := inodes - {id};
    }

    method DropReservations(id: InodeId)
      modifies this`reservations
      ensures reservations == map k | k in old(reservations) && old(reservations)[k].inode !in {id} ::
                old(reservations)[k]
    {
      var all := reservations;
      var todo := reservations.Keys;
      while todo != {}
        invariant todo <= all.Keys
        invariant reservations == map k | k in all && (k in todo || all[k].inode !in {id}) :: all[k]
        decreases |todo|
      {
        var k :| k in todo;
        if all[k].inode == id {
          reservations := reservations - {k};
        }
        todo := todo - {k};
      }
    }

    method DropXattrs(id: InodeId)
      modifies this`xattrs
      ensures xattrs == map k | k in old(xattrs) && k.0 !in {id} :: old(xattrs)[k]
    {
      var all := xattrs;
      var todo := set k | k in xattrs && k.0 == id;
      while todo != {}
        invariant forall k | k in todo :: k in all && k.0 == id
        invariant xattrs == map k | k in all && (k in todo || k.0 !in {id}) :: all[k]
        decreases |todo|
      {
        var k :| k in todo;
        xattrs := xattrs - {k};
        todo := todo - {k};
      }
    }

    method DropPresences(id: InodeId)
      modifies this`presences
      ensures presences == set p | p in old(presences) && p.0 !in {id}
    {
      var all := presences;
      var todo := set p | p in presences && p.0 == id;
      while todo != {}
        invariant forall p | p in todo :: p in all && p.0 == id
        invariant presences == set p | p in all && (p in todo || p.0 !in {id})
        decreases |todo|
      {
        var p :| p in todo;
        presences := presences - {p};
        todo := todo - {p};
      }
    }

    method RemoveOneLink(child: Inode, now: int) returns (r: Result<()>)
      modifies this
      ensures Outcome(View(), r) == RemoveLink(old(View()), child, now)
    {
      if child.linkCount == 0 {
        return Err(FluxError.Meta);
      }
      var next := child.(linkCount := child.linkCount - 1, generation := child.generation + 1,
                         times := child.times.(ctime := now));
      if next.linkCount == 0 && !HasPresence(presences, child.id) {
        DeleteInode(child.id);
      } else {
        inodes := inodes[child.id := next];
      }
      r := Ok(());
    }

    method Unlink(expected: Option<nat>, parent: InodeId, name: string, now: int) returns (r: Result<()>)
      modifies this
      ensures Outcome(View(), r) == UnlinkNode(old(View()), expected, parent, name, now)
    {
      if (parent, name) !in dentries || dentries[(parent, name)] !in inodes {
        return Err(NotFound);
      }
      var child := inodes[dentries[(parent, name)]];
      if child.fileType == Directory {
        return Err(IsDirectory);
      }
      var bumped := LoadAndBumpParent(parent, expected, now);
      if bumped.Err? {
        return Err(bumped.error);
      }
      dentries := dentries - {(parent, name)};
      r := RemoveOneLink(child, now);
    }

    method Rmdir(expected: Option<nat>, parent: InodeId, name: string, now: int) returns (r: Result<()>)
      modifies this
      ensures Outcome(View(), r) == RmdirNode(old(View()), expected, parent, name, now)
    {
      if (parent, name) !in dentries || dentries[(parent, name)] !in inodes {
        return Err(NotFound);
      }
      var id := dentries[(parent, name)];
      if inodes[id].fileType != Directory {
        return Err(NotDirectory);
      }
      if HasChildren(View(), id) {
        return Err(NotEmpty);
      }
      var bumped := LoadAndBumpParent(parent, expected, now);
      if bumped.Err? {
        return Err(bumped.error);
      }
      dentries := dentries - {(parent, name)};
      DeleteInode(id);
      r := Ok(());
    }

    // ------------------------------------------------- descendant search

    /** Look at the entries of one directory: report a match, or queue the subdirectories. */
    method ScanChildren(ancestor: InodeId, candidate: InodeId, dir: InodeId, visited: set<InodeId>,
                        waiting: seq<InodeId>)
      returns (found: bool, pending: seq<InodeId>)
      requires Grounded(inodes, dentries, nextInode) && Reaches(dentries, ancestor, dir)
      requires Searched(inodes, dentries, ancestor, candidate, visited, waiting, ChildrenOf(dentries, dir))
      ensures found ==> Reaches(dentries, ancestor, candidate)
      ensures !found ==> Searched(inodes, dentries, ancestor, candidate, visited, pending, {})
    {
      hide Reaches;
      hide Searched;
      found, pending := false, waiting;
      var todo := ChildrenOf(dentries, dir);
      while todo != {} && !found
        invariant todo <= ChildrenOf(dentries, dir)
        invariant found ==> Reaches(dentries, ancestor, candidate)
        invariant !found ==> Searched(inodes, dentries, ancestor, candidate, visited, pending, todo)
        decreases |todo|, !found
      {
        var c :| c in todo;
        ChildIsEdge(dentries, dir, c);
        PathStep(dentries, dir, c);
        PathJoin(dentries, ancestor, dir, c);
        if c == candidate {
          found := true;
        } else {
          LookAt(inodes, dentries, ancestor, candidate, visited, pending, todo, c);
          if inodes[c].fileType == Directory {
            pending := pending + [c];
          }
          todo := todo - {c};
        }
      }
    }

    /** Depth-first search for `candidate` at or below `ancestor`, over directories only. */
    method IsDescendant(ancestor: InodeId, candidate: InodeId) returns (r: bool)
      requires Grounded(inodes, dentries, nextInode) && ancestor in inodes && inodes[ancestor].fileType == Directory
      ensures r <==> Reaches(dentries, ancestor, candidate)
    {
      PathSelf(dentries, ancestor);
      hide Reaches;
      if ancestor == candidate {
        return true;
      }
      var pending: seq<InodeId>, visited: set<InodeId> := [ancestor], {};
      assert Searched(inodes, dentries, ancestor, candidate, visited, pending, {});
      hide Searched;
      var found := false;
      while pending != [] && !found
        invariant visited <= inodes.Keys
        invariant found ==> Reaches(dentries, ancestor, candidate)
        invariant !found ==> Searched(inodes, dentries, ancestor, candidate, visited, pending, {})
        decreases inodes.Keys - visited, |pending|, !found
      {
        var dir := pending[|pending|-1];
        assert pending == pending[..|pending|-1] + [dir];
        pending := pending[..|pending|-1];
        if dir !in visited {
          VisitNext(inodes, dentries, ancestor, candidate, visited, pending, dir);
          visited := visited + {dir};
          found, pending := ScanChildren(ancestor, candidate, dir, visited, pending);
        } else {
          SkipVisited(inodes, dentries, ancestor, candidate, visited, pending, dir);
        }
      }
      if !found {
        NotBelow(inodes, dentries, nextInode, ancestor, candidate, visited);
      }
      r := found;
    }

    // ------------------------------------------------------------ rename

    /** The checks before a rename changes anything; the search decides whether it would make a cycle. */
    method CheckRename(source: Inode, destination: Option<InodeId>, newParent: InodeId, noReplace: bool)
      returns (failure: Option<FluxError>)
      requires Grounded(inodes, dentries, nextInode) && source.id in inodes && inodes[source.id] == source
      ensures failure == RenameCheck(View(), source, destination, newParent, noReplace)
    {
      hide Reaches;
      if source.fileType == Directory {
        var below := IsDescendant(source.id, newParent);
        if below {
          return Some(InvalidArg);
        }
      }
      if noReplace && destination.Some? {
        return Some(AlreadyExists);
      }
      if destination.None? || destination.value == source.id {
        return None;
      }
      if destination.value !in inodes {
        return Some(NotFound);
      }
      var d := inodes[destination.value];
      if source.fileType == Directory && d.fileType != Directory {
        return Some(NotDirectory);
      }
      if source.fileType != Directory && d.fileType == Directory {
        return Some(IsDirectory);
      }
      failure := if d.fileType == Directory && HasChildren(View(), d.id) then Some(NotEmpty) else None;
    }

    /** Remove what a rename replaces. */
    method Clear(key: DentryKey, now: int) returns (r: Result<()>)
      modifies this
      ensures Outcome(View(), r) == ClearDestination(old(View()), key, now)
    {
      if key !in dentries {
        return Ok(());
      }
      var id := dentries[key];
      dentries := dentries - {key};
      if id !in inodes {
        return Err(NotFound);
      }
      if inodes[id].fileType == Directory {
        DeleteInode(id);
        return Ok(());
      }
      r := RemoveOneLink(inodes[id], now);
    }

    /** Bump both parents, clear the destination, and move the entry. */
    method Move(source: Inode, oldKey: DentryKey, expOld: Option<nat>, newKey: DentryKey, expNew: Option<nat>, now: int)
      returns (r: Result<Inode>)
      modifies this
      ensures Outcome(View(), r) == RenameMove(old(View()), source, oldKey, expOld, newKey, expNew, now)
    {
      hide BumpParent;
      hide ClearDestination;
      var bumped := LoadAndBumpParent(oldKey.0, expOld, now);
      if bumped.Err? {
        return Err(bumped.error);
      }
      if newKey.0 != oldKey.0 {
        bumped := LoadAndBumpParent(newKey.0, expNew, now);
        if bumped.Err? {
          return Err(bumped.error);
        }
      }
      var cleared := Clear(newKey, now);
      if cleared.Err? {
        return Err(cleared.error);
      }
      dentries := (dentries - {oldKey})[newKey := source.id];
      var next := source.(generation := source.generation + 1, times := source.times.(ctime := now));
      inodes := inodes[source.id := next];
      r := Ok(next);
    }

    method Rename(oldParent: InodeId, oldName: string, expOld: Option<nat>, newParent: InodeId, newName: string,
                  expNew: Option<nat>, noReplace: bool, now: int) returns (r: Result<Inode>)
      requires Grounded(inodes, dentries, nextInode)
      modifies this
      ensures Outcome(View(), r)
              == RenameNode(old(View()), oldParent, oldName, expOld, newParent, newName, expNew, noReplace, now)
    {
      hide RenameCheck;
      hide RenameMove;
      hide BadDentryName;
      var oldKey, newKey := (oldParent, oldName), (newParent, newName);
      if BadDentryName(oldName) || BadDentryName(newName) {
        return Err(InvalidArg);
      }
      if oldKey !in dentries || dentries[oldKey] !in inodes || oldParent !in inodes || newParent !in inodes {
        return Err(NotFound);
      }
      var source, op, np := inodes[dentries[oldKey]], inodes[oldParent], inodes[newParent];
      if op.fileType != Directory || np.fileType != Directory {
        return Err(NotDirectory);
      }
      if Mismatch(op, expOld) {
        return Err(CasFailed(expOld.value, op.generation));
      }
      if Mismatch(np, expNew) {
        return Err(CasFailed(expNew.value, np.generation));
      }
      if oldKey == newKey {
        return Ok(source);
      }
      var destination := if newKey in dentries then Some(dentries[newKey]) else None;
      var failure := CheckRename(source, destination, newParent, noReplace);
      if failure.Some? {
        return Err(failure.value);
      }
      if destination == Some(source.id) {
        return Ok(source);
      }
      r := Move(source, oldKey, expOld, newKey, expNew, now);
    }

    // ------------------------------------------------------ open handles

    method ReapIfUnopened(id: InodeId)
      modifies this
      ensures View() == ReapUnopened(old(View()), {id})
    {
      if id in inodes && inodes[id].linkCount == 0 && !HasPresence(presences, id) {
        DeleteInode(id);
      } else {
        NothingToReap(View(), {});
      }
    }

    method CloseInode(session: string, id: InodeId) returns (r: Result<()>)
      modifies this
      ensures Outcome(View(), r) == CloseNode(old(View()), session, id)
    {
      hide ReapUnopened;
      hide BadSession;
      if BadSession(session) {
        return Err(InvalidArg);
      }
      presences := presences - {(id, session)};
      ReapIfUnopened(id);
      r := Ok(());
    }

    /** Drop a session's handles, then reap one by one what only they kept. */
    method RecoverSession(session: string) returns (r: Result<()>)
      modifies this
      ensures Outcome(View(), r) == RecoverNode(old(View()), session)
    {
      hide BadSession;
      hide ReapUnopened;
      if BadSession(session) {
        return Err(InvalidArg);
      }
      var stale := set p | p in presences && p.1 == session;
      presences := presences - stale;
      ghost var base := View();
      var ids := set p | p in stale :: p.0;
      var todo := ids;
      ReapNone(base);
      assert ids - todo == {};
      while todo != {}
        invariant todo <= ids && View() == ReapUnopened(base, ids - todo)
        decreases |todo|
      {
        var id :| id in todo;
        ReapNext(base, ids - todo, id);
        ReapIfUnopened(id);
        assert ids - todo + {id} == ids - (todo - {id});
        todo := todo - {id};
      }
      assert ids - todo == ids;
      r := Ok(());
    }

    method OpenInode(session: string, id: InodeId) returns (r: Result<()>)
      modifies this`presences
      ensures Outcome(View(), r) == OpenNode(old(View()), session, id)
    {
      hide BadSession;
      if BadSession(session) {
        return Err(InvalidArg);
      }
      if id !in inodes {
        return Err(NotFound);
      }
      if inodes[id].fileType != Regular {
        return Err(InvalidArg);
      }
      presences := presences + {(id, session)};
      r := Ok(());
    }

    // -------------------------------------------------------------- flush

    /** Record the intent before any upload starts. */
    method BeginFlush(expected: nat, id: InodeId, intent: FlushIntent) returns (r: Result<Inode>)
      modifies this`inodes
      ensures Outcome(View(), r) == BeginFlushNode(old(View()), expected, id, intent)
    {
      if id !in inodes {
        return Err(NotFound);
      }
      var inode := inodes[id];
      if inode.generation != expected {
        return Err(CasFailed(expected, inode.generation));
      }
      if inode.fileType != Regular {
        return Err(IsDirectory);
      }
      if inode.fields.None? {
        return Err(FluxError.Meta);
      }
      var fields := inode.fields.value;
      if fields.backing != UfsBacked || fields.dataState != Dirty {
        return Err(InvalidArg);
      }
      if inode.headGen != intent.snapshotGen {
        return Err(CasFailed(intent.snapshotGen, inode.headGen));
      }
      if inode.flushIntent.Some? || fields.opState != Idle {
        return Err(Busy);
      }
      fields := fields.(opState := Flushing(intent));
      inode := inode.(fields := Some(fields), flushIntent := Some(intent), lastError := None,
                      generation := inode.generation + 1, locality := DeriveLabel(fields, inode.headGen, inode.ufsGen));
      inodes := inodes[inode.id := inode];
      r := Ok(inode);
    }

    /** Resolve the intent: switch the clean file to the published object, or record a conflict. */
    method CommitFlush(expected: nat, id: InodeId, flushId: FlushId, published: UfsObject) returns (r: Result<Inode>)
      modifies this`inodes, this`manifests, this`nextManifest
      ensures Outcome(View(), r) == CommitFlushNode(old(View()), expected, id, flushId, published)
    {
      if id !in inodes {
        return Err(NotFound);
      }
      var inode := inodes[id];
      if inode.generation != expected {
        return Err(CasFailed(expected, inode.generation));
      }
      if inode.flushIntent.None? || inode.flushIntent.value.flushId != flushId {
        return Err(Busy);
      }
      if inode.fields.None? {
        return Err(FluxError.Meta);
      }
      var intent := inode.flushIntent.value;
      var fields := inode.fields.value.(opState := Idle);
      if inode.headGen == intent.snapshotGen {
        fields := fields.(dataState := UfsClean);
        if inode.size == 0 {
          inode := inode.(manifestId := None);
        } else {
          var m := CleanManifest(inode, intent, published);
          inode := inode.(manifestId := Some(nextManifest));
          manifests := manifests[nextManifest := m];
          nextManifest := nextManifest + 1;
        }
        inode := inode.(ufs := Some(published), ufsGen := intent.snapshotGen,
                        ufsBaseVersion := Some(PublishedVersion(published, intent)), lastError := None);
      } else {
        fields := fields.(dataState := DirtyConflict);
        inode := inode.(lastError := Some("head advanced during flush"));
      }
      inode := inode.(fields := Some(fields), flushIntent := None, generation := inode.generation + 1,
                      locality := DeriveLabel(fields, inode.headGen, inode.ufsGen));
      inodes := inodes[inode.id := inode];
      r := Ok(inode);
    }

    /** Give the intent up: the file stays dirty, in conflict. */
    method FailFlush(expected: nat, id: InodeId, flushId: FlushId, message: string) returns (r: Result<Inode>)
      modifies this`inodes
      ensures Outcome(View(), r) == FailFlushNode(old(View()), expected, id, flushId, message)
    {
      if id !in inodes {
        return Err(NotFound);
      }
      var inode := inodes[id];
      if inode.generation != expected {
        return Err(CasFailed(expected, inode.generation));
      }
      if inode.flushIntent.None? || inode.flushIntent.value.flushId != flushId {
        return Err(Busy);
      }
      if inode.fields.None? {
        return Err(FluxError.Meta);
      }
      var fields := inode.fields.value.(dataState := DirtyConflict);
      fields := fields.(opState := Idle);
      inode := inode.(fields := Some(fields), flushIntent := None, lastError := Some(message),
                      generation := inode.generation + 1, locality := DeriveLabel(fields, inode.headGen, inode.ufsGen));
      inodes := inodes[inode.id := inode];
      r := Ok(inode);
    }

    // ------------------------------------------- reservations and commits

    method Reserve(ticket: Ticket, id: InodeId, expected: nat, chunks: set<ChunkId>, expiresAt: nat)
      returns (r: Result<()>)
      modifies this`reservations
      ensures Outcome(View(), r) == ReserveNode(old(View()), ticket, id, expected, chunks, expiresAt)
    {
      if id !in inodes {
        return Err(NotFound);
      }
      if inodes[id].generation != expected {
        return Err(CasFailed(expected, inodes[id].generation));
      }
      var todo := chunks;
      while todo != {}
        invariant todo <= chunks && (chunks - todo) * tombstones.Keys == {}
        decreases |todo|
      {
        var c :| c in todo;
        if c in tombstones {
          assert c in chunks * tombstones.Keys;
          return Err(Busy);
        }
        todo := todo - {c};
      }
      assert chunks - todo == chunks;
      var reservation := Reservation(id, expected, chunks, expiresAt);
      if ticket in reservations {
        return if reservations[ticket] == reservation then Ok(()) else Err(AlreadyExists);
      }
      reservations := reservations[ticket := reservation];
      r := Ok(());
    }

    /** Expire the oldest due reservations, at most `max` of them. */
    method ExpireReservations(cutoff: nat, max: nat)
      modifies this`reservations
      ensures View() == ExpireNode(old(View()), cutoff, max)
      ensures Expires(old(reservations), cutoff, max, reservations)
    {
      hide Expires;
      hide ExpiresBefore;
      var left: nat := max;
      ghost var t := View();
      var due := set k | k in reservations && reservations[k].expiresAt <= cutoff;
      while due != {} && left > 0
        invariant left <= max && due == ExpiredTickets(View(), cutoff)
        invariant ExpireNode(t, cutoff, max) == ExpireNode(View(), cutoff, left)
        decreases left
      {
        var k := OldestOf(due);
        ExpireStep(View(), cutoff, left, k);
        reservations := reservations - {k};
        assert due - {k} == ExpiredTickets(View(), cutoff);
        due := due - {k};
        left := left - 1;
      }
      assert left == 0 || ExpiredTickets(View(), cutoff) == {};
      assert ExpireNode(View(), cutoff, left) == View();
      ExpireEffect(t, cutoff, max);
    }

    /** The ticket that expires first among `due`. */
    method OldestOf(due: set<Ticket>) returns (k: Ticket)
      requires due != {} && due <= reservations.Keys
      ensures k in due && forall j | j in due :: ExpiresBefore(View(), k, j)
    {
      k :| k in due;
      var todo := due - {k};
      while todo != {}
        invariant k in due && todo <= due && forall j | j in due && j !in todo :: ExpiresBefore(View(), k, j)
        decreases |todo|
      {
        var j :| j in todo;
        if !ExpiresBefore(View(), k, j) { k := j; }
        todo := todo - {j};
      }
    }

    method CommitManifest(expected: nat, inode: Inode, m: Manifest) returns (r: Result<Inode>)
      modifies this
      ensures Outcome(View(), r) == CommitManifestNode(old(View()), expected, inode, m)
    {
      hide Ordered;
      if m.inode != inode.id {
        return Err(InvalidArg);
      }
      if inode.id !in inodes {
        return Err(NotFound);
      }
      if inodes[inode.id].generation != expected {
        return Err(CasFailed(expected, inodes[inode.id].generation));
      }
      if inodes[inode.id].flushIntent.Some? {
        return Err(Busy);
      }
      var put := PutManifest(m);
      if put.Err? {
        return Err(put.error);
      }
      var next := inode.(manifestId := Some(put.value));
      inodes := inodes[inode.id := next];
      r := Ok(next);
    }

    method CommitUnreserved(expected: nat, inode: Inode, m: Manifest) returns (r: Result<Inode>)
      modifies this
      ensures Outcome(View(), r) == CommitUnreservedNode(old(View()), expected, inode, m)
    {
      hide CommitManifestNode;
      hide LocalChunks;
      if LocalChunks(m) != {} {
        return Err(InvalidArg);
      }
      r := CommitManifest(expected, inode, m);
    }

    method CommitReserved(ticket: Ticket, expected: nat, inode: Inode, m: Manifest) returns (r: Result<Inode>)
      modifies this
      ensures Outcome(View(), r) == CommitReservedNode(old(View()), ticket, expected, inode, m)
    {
      hide CommitManifestNode;
      hide LocalChunks;
      if ticket !in reservations {
        return Err(Busy);
      }
      var reservation := reservations[ticket];
      if reservation.inode != inode.id || reservation.expectedGeneration != expected {
        return Err(InvalidArg);
      }
      if LocalChunks(m) != reservation.chunks {
        return Err(InvalidArg);
      }
      r := CommitManifest(expected, inode, m);
      if r.Ok? {
        reservations := reservations - {ticket};
      }
    }

    // --------------------------------------------------------- collector

    method FinalizeTombstones(chunks: seq<ChunkId>) returns (r: Result<()>)
      modifies this`tombstones
      ensures Outcome(View(), r) == FinalizeNode(old(View()), chunks)
    {
      ghost var t := View();
      for k := 0 to |chunks|
        invariant FinalizeNode(t, chunks) == FinalizeNode(View(), chunks[k..])
      {
        if chunks[k] !in tombstones {
          return Err(NotFound);
        }
        if !tombstones[chunks[k]].initialized || tombstones[chunks[k]].pending != {} {
          return Err(Busy);
        }
        tombstones := tombstones - {chunks[k]};
        assert chunks[k..][1..] == chunks[k+1..];
      }
      r := Ok(());
    }

    method InitializeTargets(chunks: seq<ChunkId>, targets: set<TargetId>) returns (r: Result<()>)
      modifies this`tombstones
      ensures Outcome(View(), r) == InitializeNode(old(View()), chunks, targets)
    {
      ghost var t := View();
      for k := 0 to |chunks|
        invariant InitializeNode(t, chunks, targets) == InitializeNode(View(), chunks[k..], targets)
      {
        if chunks[k] !in tombstones {
          return Err(NotFound);
        }
        if !tombstones[chunks[k]].initialized {
          tombstones := tombstones[chunks[k] := Tombstone(true, targets)];
        }
        assert chunks[k..][1..] == chunks[k+1..];
      }
      r := Ok(());
    }

    method AcknowledgeDeletes(deleted: seq<(ChunkId, TargetId)>) returns (r: Result<()>)
      modifies this`tombstones
      ensures Outcome(View(), r) == AcknowledgeNode(old(View()), deleted)
    {
      ghost var t := View();
      for k := 0 to |deleted|
        invariant AcknowledgeNode(t, deleted) == AcknowledgeNode(View(), deleted[k..])
      {
        var chunk := deleted[k].0;
        if chunk !in tombstones {
          return Err(NotFound);
        }
        var tombstone := tombstones[chunk];
        if !tombstone.initialized {
          return Err(Busy);
        }
        tombstones := tombstones[chunk := tombstone.(pending := tombstone.pending - {deleted[k].1})];
        assert deleted[k..][1..] == deleted[k+1..];
      }
      r := Ok(());
    }

    /** The manifests inodes hold, gathered inode by inode. */
    method ActiveManifests() returns (active: set<ManifestId>)
      ensures active == HeldManifests(View())
    {
      active := {};
      var todo := inodes.Keys;
      while todo != {}
        invariant todo <= inodes.Keys
        invariant active == set i | i in inodes && i !in todo && inodes[i].manifestId.Some? ::
                    inodes[i].manifestId.value
        decreases |todo|
      {
        var i :| i in todo;
        if inodes[i].manifestId.Some? {
          active := active + {inodes[i].manifestId.value};
        }
        todo := todo - {i};
      }
    }

    /** The chunks of the manifests that are held. */
    method LiveChunks(active: set<ManifestId>) returns (live: set<ChunkId>)
      ensures live == set k, c | k in manifests && k in active && c in LocalChunks(manifests[k]) :: c
    {
      hide LocalChunks;
      live := {};
      var todo := manifests.Keys;
      while todo != {}
        invariant todo <= manifests.Keys
        invariant live == set k, c | k in manifests && k !in todo && k in active && c in LocalChunks(manifests[k]) :: c
        decreases |todo|
      {
        var k :| k in todo;
        if k in active {
          live := live + LocalChunks(manifests[k]);
        }
        todo := todo - {k};
      }
    }

    /** Drop the manifests nobody holds. */
    method DropUnheld(active: set<ManifestId>) returns (removed: nat)
      modifies this`manifests
      ensures manifests == map k | k in old(manifests) && k in active :: old(manifests)[k]
      ensures removed == |old(manifests)| - |manifests|
    {
      var all := manifests;
      removed := 0;
      var todo := manifests.Keys;
      while todo != {}
        invariant todo <= all.Keys
        invariant manifests == map k | k in all && (k in todo || k in active) :: all[k]
        invariant |all| == |manifests| + removed
        decreases |todo|
      {
        var k :| k in todo;
        if k !in active {
          assert manifests.Keys == (manifests - {k}).Keys + {k};
          manifests := manifests - {k};
          removed := removed + 1;
        }
        todo := todo - {k};
      }
    }

    /** Put a fresh tombstone on each of the chunks. */
    method MarkTombstones(chunks: set<ChunkId>)
      modifies this`tombstones
      ensures tombstones == old(tombstones) + FreshTombstones(chunks)
    {
      ghost var before := tombstones;
      var todo := chunks;
      while todo != {}
        invariant todo <= chunks
        invariant tombstones == before + FreshTombstones(chunks - todo)
        decreases |todo|
      {
        var c :| c in todo;
        tombstones := tombstones[c := Tombstone(false, {})];
        todo := todo - {c};
      }
      assert chunks - todo == chunks;
    }

    /** Mark and sweep over the manifests. */
    method SweepUnheld() returns (live: set<ChunkId>, removed: nat)
      modifies this`manifests
      ensures manifests == KeptManifests(old(View())) && live == HeldChunks(old(View()))
      ensures removed == |old(manifests)| - |manifests|
    {
      hide LocalChunks;
      hide HeldManifests;
      ghost var t := View();
      var active := ActiveManifests();
      live := LiveChunks(active);
      removed := DropUnheld(active);
      SweptIs(t, active, manifests, live);
    }

    method TombstoneBatch(candidates: set<ChunkId>) returns (tombstoned: set<ChunkId>, removed: nat)
      modifies this
      ensures (View(), tombstoned, removed as int) == TombstoneNode(old(View()), candidates)
    {
      hide KeptManifests;
      hide HeldChunks;
      hide FreshTombstones;
      ghost var t := View();
      var live;
      live, removed := SweepUnheld();
      var reserved := set k, c | k in reservations && c in reservations[k].chunks :: c;
      assert reserved == ReservedChunks(t);
      hide ReservedChunks;
      tombstoned := candidates - live - reserved;
      MarkTombstones(tombstoned);
    }

    // ---------------------------------------------------------- dispatch

    method ApplyName(req: Request, now: int) returns (reply: Response)
      requires IsName(req) && (req.Rename? ==> Grounded(inodes, dentries, nextInode))
      modifies this
      ensures (View(), reply) == ExecuteName(old(View()), req, now)
    {
      hide CreateNode;
      hide SymlinkNode;
      hide LinkNode;
      hide UnlinkNode;
      hide RmdirNode;
      hide RenameNode;
      hide ImportNode;
      match req
      case Create(parent, name, fileType, mode, uid, gid, exp) =>
        var r := Create(exp, parent, name, fileType, mode, uid, gid, None, now);
        reply := InodeResponseOf(r);
      case MakeSymlink(parent, name, target, uid, gid, exp) =>
        var r := CreateSymlink(exp, parent, name, target, uid, gid, now);
        reply := InodeResponseOf(r);
      case Link(id, parent, name, exp) =>
        var r := Link(exp, id, parent, name, now);
        reply := InodeResponseOf(r);
      case Unlink(parent, name, exp) =>
        var r := Unlink(exp, parent, name, now);
        reply := UnitResponseOf(r);
      case Rmdir(parent, name, exp) =>
        var r := Rmdir(exp, parent, name, now);
        reply := UnitResponseOf(r);
      case Rename(oldParent, oldName, expOld, newParent, newName, expNew, noReplace) =>
        var r := Rename(oldParent, oldName, expOld, newParent, newName, expNew, noReplace, now);
        reply := InodeResponseOf(r);
      case ImportExternal(parent, name, template, manifest, exp) =>
        var r := ImportExternal(exp, parent, name, template, manifest, now);
        reply := InodeResponseOf(r);
    }

    method ApplyRecord(req: Request, now: int) returns (reply: Response)
      requires IsRecord(req)
      modifies this
      ensures (View(), reply) == ExecuteRecord(old(View()), req, now)
    {
      hide SetXattrNode;
      hide RemoveXattrNode;
      hide PutInodeCasNode;
      hide PutManifestNode;
      match req
      case SetXattr(exp, id, name, value, mode) =>
        var r := SetXattr(exp, id, name, value, mode, now);
        reply := InodeResponseOf(r);
      case RemoveXattr(exp, id, name) =>
        var r := RemoveXattr(exp, id, name, now);
        reply := InodeResponseOf(r);
      case PutInodeCas(exp, inode) =>
        var r := PutInodeCas(exp, inode);
        reply := InodeResponseOf(r);
      case PutManifest(m) =>
        var r := PutManifest(m);
        reply := if r.Ok? then ManifestResponse(r.value) else Failed(r.error);
    }

    method ApplyData(req: Request) returns (reply: Response)
      requires IsCommit(req) || IsFlush(req)
      modifies this
      ensures (View(), reply) == if IsCommit(req) then ExecuteCommit(old(View()), req)
              else ExecuteFlush(old(View()), req)
    {
      hide CommitUnreservedNode;
      hide CommitReservedNode;
      hide BeginFlushNode;
      hide CommitFlushNode;
      hide FailFlushNode;
      var r;
      match req {
        case CommitInodeManifest(exp, inode, m) => r := CommitUnreserved(exp, inode, m);
        case CommitReserved(ticket, exp, inode, m) => r := CommitReserved(ticket, exp, inode, m);
        case BeginFlush(exp, id, intent) => r := BeginFlush(exp, id, intent);
        case CommitFlush(exp, id, flushId, published) => r := CommitFlush(exp, id, flushId, published);
        case FailFlush(exp, id, flushId, message) => r := FailFlush(exp, id, flushId, message);
      }
      reply := InodeResponseOf(r);
    }

    method ApplyHandle(req: Request) returns (reply: Response)
      requires IsHandle(req)
      modifies this
      ensures (View(), reply) == ExecuteHandle(old(View()), req)
    {
      hide OpenNode;
      hide CloseNode;
      hide RecoverNode;
      var r;
      match req {
        case OpenInode(session, id) => r := OpenInode(session, id);
        case CloseInode(session, id) => r := CloseInode(session, id);
        case RecoverSession(session) => r := RecoverSession(session);
      }
      reply := UnitResponseOf(r);
    }

    method ApplyCollector(req: Request) returns (reply: Response)
      requires IsCollector(req)
      modifies this
      ensures (View(), reply) == ExecuteCollector(old(View()), req)
    {
      hide ReserveNode;
      hide ExpireNode;
      hide TombstoneNode;
      hide FinalizeNode;
      hide InitializeNode;
      hide AcknowledgeNode;
      match req
      case ReserveChunks(ticket, id, exp, chunks, expiresAt) =>
        var r := Reserve(ticket, id, exp, chunks, expiresAt);
        reply := UnitResponseOf(r);
      case AbortReservation(ticket) =>
        reservations := reservations - {ticket};
        reply := Empty;
      case ExpireReservations(cutoff, max) =>
        ExpireReservations(cutoff, max);
        reply := Empty;
      case TombstoneBatch(candidates) =>
        var tombstoned, removed := TombstoneBatch(candidates);
        reply := BatchResponse(tombstoned, removed);
      case FinalizeTombstones(chunks) =>
        var r := FinalizeTombstones(chunks);
        reply := UnitResponseOf(r);
      case InitializeTargets(chunks, targets) =>
        var r := InitializeTargets(chunks, targets);
        reply := UnitResponseOf(r);
      case AcknowledgeDeletes(deleted) =>
        var r := AcknowledgeDeletes(deleted);
        reply := UnitResponseOf(r);
    }

    /** One request in place: whatever it is, tables and reply are the ones it means. */
    method ApplyRequest(req: Request, now: int) returns (reply: Response)
      requires req.Rename? ==> Grounded(inodes, dentries, nextInode)
      modifies this
      ensures (View(), reply) == Execute(old(View()), req, now)
    {
      hide ExecuteName;
      hide ExecuteRecord;
      hide ExecuteCommit;
      hide ExecuteFlush;
      hide ExecuteHandle;
      hide ExecuteCollector;
      if IsName(req) {
        reply := ApplyName(req, now);
      } else if IsRecord(req) {
        reply := ApplyRecord(req, now);
      } else if IsCommit(req) || IsFlush(req) {
        reply := ApplyData(req);
      } else if IsHandle(req) {
        reply := ApplyHandle(req);
      } else {
        reply := ApplyCollector(req);
      }
    }
  }

  function InodeResponseOf(r: Result<Inode>): Response {
    match r case Ok(i) => InodeResponse(i) case Err(e) => Failed(e)
  }

  function UnitResponseOf(r: Result<()>): Response {
    match r case Ok(_) => Empty case Err(e) => Failed(e)
  }

  lemma SweptIs(t: Tables, active: set<ManifestId>, manifests: map<ManifestId, Manifest>, live: set<ChunkId>)
    requires active == HeldManifests(t)
    requires manifests == map k | k in t.manifests && k in active :: t.manifests[k]
    requires live == set k, c | k in t.manifests && k in active && c in LocalChunks(t.manifests[k]) :: c
    ensures manifests == KeptManifests(t) && live == HeldChunks(t)
  {
    hide LocalChunks;
    hide HeldManifests;
  }

  lemma NothingToReap(t: Tables, dead: set<InodeId>)
    requires dead == {}
    ensures DeleteInodes(t, dead) == t
  {
    var u := DeleteInodes(t, dead);
    assert u.reservations == t.reservations && u.xattrs == t.xattrs && u.presences == t.presences;
  }

  lemma ReapNone(t: Tables)
    ensures ReapUnopened(t, {}) == t
  {
    NothingToReap(t, {});
  }

  function Reapable(t: Tables, ids: set<InodeId>): set<InodeId> {
    set i | i in ids && i in t.inodes && t.inodes[i].linkCount == 0 && !HasPresence(t.presences, i)
  }

  /** Reaping one inode more. */
  lemma ReapNext(t: Tables, ids: set<InodeId>, id: InodeId)
    requires id !in ids
    ensures ReapUnopened(ReapUnopened(t, ids), {id}) == ReapUnopened(t, ids + {id})
  {
    hide DeleteInodes;
    hide HasPresence;
    var a := Reapable(t, ids);
    var u := DeleteInodes(t, a);
    StillReapable(t, ids, id);
    DeleteTwice(t, a, Reapable(u, {id}));
    assert Reapable(t, ids + {id}) == a + Reapable(u, {id});
  }

  /** Reaping others does not decide about `id`. */
  lemma StillReapable(t: Tables, ids: set<InodeId>, id: InodeId)
    requires id !in ids
    ensures Reapable(DeleteInodes(t, Reapable(t, ids)), {id}) == Reapable(t, {id})
  {
    hide HasPresence;
    var a := Reapable(t, ids);
    PresenceKept(t.presences, a);
    var u := DeleteInodes(t, a);
    assert HasPresence(u.presences, id) <==> HasPresence(t.presences, id);
  }

  lemma DeleteTwice(t: Tables, a: set<InodeId>, b: set<InodeId>)
    ensures DeleteInodes(DeleteInodes(t, a), b) == DeleteInodes(t, a + b)
  {
    var u, v := DeleteInodes(DeleteInodes(t, a), b), DeleteInodes(t, a + b);
    assert u.inodes == v.inodes && u.reservations == v.reservations && u.xattrs == v.xattrs
           && u.presences == v.presences;
  }

  function ChildrenOf(d: map<DentryKey, InodeId>, dir: InodeId): set<InodeId> {
    set k | k in d && k.0 == dir :: d[k]
  }

  lemma ChildIsEdge(d: map<DentryKey, InodeId>, dir: InodeId, c: InodeId)
    requires c in ChildrenOf(d, dir)
    ensures Edge(d, dir, c)
  {
    var k :| k in d && k.0 == dir && d[k] == c;
    assert (dir, k.1) in d;
  }

  /**
   The state of a search: what was seen lies below the ancestor and is no match,
   and every subdirectory of a visited directory is visited, waiting, or among
   the entries of the current directory still to be looked at.
   */
  ghost predicate Searched(inodes: map<InodeId, Inode>, d: map<DentryKey, InodeId>, ancestor: InodeId,
                           candidate: InodeId,
                           visited: set<InodeId>, pending: seq<InodeId>, todo: set<InodeId>)
  {
    && (ancestor in visited || ancestor in pending) && candidate !in visited && candidate !in pending
    && visited <= inodes.Keys
    && (forall i | i in visited || i in pending :: i in inodes && Reaches(d, ancestor, i))
    && (forall k | k in d && k.0 in visited && d[k] !in todo ::
          && d[k] != candidate
          && (d[k] in inodes && inodes[d[k]].fileType == Directory ==> d[k] in visited || d[k] in pending))
  }

  /** Popping an unvisited directory makes its entries the ones to look at. */
  lemma VisitNext(inodes: map<InodeId, Inode>, d: map<DentryKey, InodeId>, ancestor: InodeId, candidate: InodeId,
                  visited: set<InodeId>, pending: seq<InodeId>, dir: InodeId)
    requires Searched(inodes, d, ancestor, candidate, visited, pending + [dir], {})
    ensures Searched(inodes, d, ancestor, candidate, visited + {dir}, pending, ChildrenOf(d, dir))
    ensures dir in inodes && Reaches(d, ancestor, dir)
  {
    hide Reaches;
    assert dir in pending + [dir];
    assert forall k | k in d && k.0 == dir :: d[k] in ChildrenOf(d, dir);
  }

  /** One entry is looked at: it is no match, and a directory is queued. */
  lemma LookAt(inodes: map<InodeId, Inode>, d: map<DentryKey, InodeId>, ancestor: InodeId, candidate: InodeId,
               visited: set<InodeId>, pending: seq<InodeId>, todo: set<InodeId>, c: InodeId)
    requires Searched(inodes, d, ancestor, candidate, visited, pending, todo)
    requires c in inodes && c != candidate && Reaches(d, ancestor, c)
    ensures var pending' := if inodes[c].fileType == Directory then pending + [c] else pending;
            Searched(inodes, d, ancestor, candidate, visited, pending', todo - {c})
  {
    hide Reaches;
  }

  lemma SkipVisited(inodes: map<InodeId, Inode>, d: map<DentryKey, InodeId>, ancestor: InodeId, candidate: InodeId,
                    visited: set<InodeId>, pending: seq<InodeId>, dir: InodeId)
    requires Searched(inodes, d, ancestor, candidate, visited, pending + [dir], {}) && dir in visited
    ensures Searched(inodes, d, ancestor, candidate, visited, pending, {})
  {
  }

  /** A finished search that found nothing leaves no path. */
  lemma NotBelow(inodes: map<InodeId, Inode>, d: map<DentryKey, InodeId>, next: InodeId, ancestor: InodeId,
                 candidate: InodeId,
                 visited: set<InodeId>)
    requires Grounded(inodes, d, next) && Searched(inodes, d, ancestor, candidate, visited, [], {})
             && ancestor != candidate
    ensures !Reaches(d, ancestor, candidate)
  {
    forall p ensures !IsPath(d, p, ancestor, candidate) {
      if IsPath(d, p, ancestor, candidate) {
        PathVisited(inodes, d, next, ancestor, candidate, visited, p, |p| - 1);
      }
    }
  }

  lemma {:induction false} PathVisited(inodes: map<InodeId, Inode>, d: map<DentryKey, InodeId>, next: InodeId,
                                      ancestor: InodeId, candidate: InodeId, visited: set<InodeId>,
                                      p: seq<InodeId>, k: nat)
    requires Grounded(inodes, d, next) && Searched(inodes, d, ancestor, candidate, visited, [], {})
    requires IsPath(d, p, ancestor, candidate) && k < |p| && ancestor != candidate
    ensures p[k] != candidate && (k < |p| - 1 ==> p[k] in visited)
    decreases k
  {
    if k > 0 {
      PathVisited(inodes, d, next, ancestor, candidate, visited, p, k - 1);
      assert Edge(d, p[k-1], p[k]);
      var n: string :| (p[k-1], n) in d && d[(p[k-1], n)] == p[k];
      if k < |p| - 1 {
        assert Edge(d, p[k], p[k+1]);
        var m: string :| (p[k], m) in d && d[(p[k], m)] == p[k+1];
      }
    }
  }
}
