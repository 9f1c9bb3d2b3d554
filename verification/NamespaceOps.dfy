/**
 Every namespace request keeps the tree, leaves the tables alone when it fails,
 and touches file data only by deleting an inode.
 */
module NamespaceOps {
  import opened Types
  import opened MetaTables
  import opened Namespace

  /** The part of an inode that only data and flush requests may change. */
  datatype Content = Content(
    id: InodeId, fileType: FileType, size: nat, headGen: nat, ufsGen: nat, ufsBaseVersion: Option<UfsVersion>,
    locality: LocalityLabel, fields: Option<LocalityFields>, ufs: Option<UfsObject>,
    manifestId: Option<ManifestId>, flushIntent: Option<FlushIntent>)

  function ContentOf(i: Inode): Content {
    Content(i.id, i.fileType, i.size, i.headGen, i.ufsGen, i.ufsBaseVersion,
            i.locality, i.fields, i.ufs, i.manifestId, i.flushIntent)
  }

  /** An inode record is either untouched or carries a larger generation. */
  predicate Advances(a: Inode, b: Inode) {
    b == a || b.generation > a.generation
  }

  ghost predicate SurvivorsKept(t: Tables, t': Tables) {
    forall i | i in t.inodes && i in t'.inodes ::
      ContentOf(t'.inodes[i]) == ContentOf(t.inodes[i]) && Advances(t.inodes[i], t'.inodes[i])
  }

  predicate Bare(i: Inode) {
    && i.manifestId.None? && i.flushIntent.None? && i.headGen == 1 && i.ufsGen == 0
    && i.fields == Some(LocalityFields(EphemeralMount, Ephemeral, Idle, FluxCreated))
    && i.locality == LabelEphemeral && (i.fileType == Regular ==> i.size == 0)
  }

  /** New inodes take unused ids and start without data. */
  ghost predicate NewcomersBare(t: Tables, t': Tables) {
    && t.nextInode <= t'.nextInode
    && forall i | i in t'.inodes && i !in t.inodes ::
         && i >= t.nextInode
         && Bare(t'.inodes[i])
  }

  /** No reservation appears, and none outlives its inode. */
  ghost predicate ReservationsFollow(t: Tables, t': Tables) {
    && t'.reservations.Keys <= t.reservations.Keys
    && (forall k | k in t'.reservations ::
          && t'.reservations[k] == t.reservations[k]
          && (t.reservations[k].inode in t.inodes ==> t.reservations[k].inode in t'.inodes))
  }

  ghost predicate NamespaceStep(t: Tables, t': Tables) {
    && t'.manifests == t.manifests && t'.nextManifest == t.nextManifest && t'.tombstones == t.tombstones
    && SurvivorsKept(t, t') && NewcomersBare(t, t') && ReservationsFollow(t, t')
  }

  // ------------------------------------------------ composing the effects

  lemma StepTrans(t: Tables, u: Tables, v: Tables)
    requires Ids(t) && NamespaceStep(t, u) && NamespaceStep(u, v)
    ensures NamespaceStep(t, v)
  {
    forall i | i in t.inodes && i in v.inodes
      ensures i in u.inodes
    {
    }
  }

  /** Ids are handed out in ascending order and never reused. */
  ghost predicate Ids(t: Tables) {
    forall i | i in t.inodes :: t.inodes[i].id == i && i < t.nextInode
  }

  lemma StepUpdate(t: Tables, inode: Inode)
    requires inode.id in t.inodes
    requires ContentOf(inode) == ContentOf(t.inodes[inode.id]) && Advances(t.inodes[inode.id], inode)
    ensures NamespaceStep(t, t.(inodes := t.inodes[inode.id := inode]))
  {
  }

  lemma StepDelete(t: Tables, dead: set<InodeId>)
    requires dead <= t.inodes.Keys
    ensures NamespaceStep(t, DeleteInodes(t, dead))
  {
  }

  lemma StepBump(t: Tables, parent: InodeId, expected: Option<nat>, now: int)
    requires Ids(t) && BumpParent(t, parent, expected, now).Ok?
    ensures var t' := BumpParent(t, parent, expected, now).value;
            NamespaceStep(t, t') && Ids(t')
  {
    StepUpdate(t, Bumped(t.inodes[parent], now));
  }

  lemma StepRemoveLink(t: Tables, child: Inode, now: int)
    requires Ids(t) && child.id in t.inodes && child == t.inodes[child.id]
    ensures NamespaceStep(t, RemoveLink(t, child, now).tables)
  {
    StepDelete(t, {child.id});
    StepUpdate(t, child.(linkCount := if child.linkCount == 0 then 0 else child.linkCount - 1,
                         generation := child.generation + 1, times := child.times.(ctime := now)));
  }

  lemma BumpTree(t: Tables, parent: InodeId, expected: Option<nat>, now: int)
    requires Tree(t) && BumpParent(t, parent, expected, now).Ok?
    ensures Tree(BumpParent(t, parent, expected, now).value)
  {
    hide Tree;
    SameShapeTree(t, BumpParent(t, parent, expected, now).value);
  }

  lemma TreeIds(t: Tables)
    requires Tree(t)
    ensures Ids(t) && Grounded(t.inodes, t.dentries, t.nextInode)
  {
  }

  // ----------------------------------------------------------------- create

  lemma CreateKeepsTree(t: Tables, expected: Option<nat>, parent: InodeId, name: string, fileType: FileType,
                        mode: nat, uid: nat, gid: nat, target: Option<string>, now: int)
    requires Tree(t)
    ensures var o := CreateNode(t, expected, parent, name, fileType, mode, uid, gid, target, now);
            Tree(o.tables) && (o.result.Err? ==> o.tables == t)
  {
    hide Tree;
    var o := CreateNode(t, expected, parent, name, fileType, mode, uid, gid, target, now);
    if o.result.Ok? {
      var t1 := BumpParent(t, parent, expected, now).value;
      BumpTree(t, parent, expected, now);
      AttachTree(t1, o.tables, (parent, name), o.result.value);
    }
  }

  lemma CreateStep(t: Tables, expected: Option<nat>, parent: InodeId, name: string, fileType: FileType,
                   mode: nat, uid: nat, gid: nat, target: Option<string>, now: int)
    requires Ids(t) && (target.Some? ==> fileType == Symlink)
    ensures NamespaceStep(t, CreateNode(t, expected, parent, name, fileType, mode, uid, gid, target, now).tables)
  {
    var o := CreateNode(t, expected, parent, name, fileType, mode, uid, gid, target, now);
    if o.result.Ok? {
      StepBump(t, parent, expected, now);
      StepTrans(t, BumpParent(t, parent, expected, now).value, o.tables);
    }
  }

  lemma LinkKeepsTree(t: Tables, expected: Option<nat>, id: InodeId, parent: InodeId, name: string, now: int)
    requires Tree(t)
    ensures var o := LinkNode(t, expected, id, parent, name, now);
            Tree(o.tables) && (o.result.Err? ==> o.tables == t)
  {
    hide Tree;
    TreeIds(t);
    var o := LinkNode(t, expected, id, parent, name, now);
    if o.result.Ok? {
      BumpTree(t, parent, expected, now);
      AddNameTree(BumpParent(t, parent, expected, now).value, o.tables, (parent, name), o.result.value);
    }
  }

  lemma LinkStep(t: Tables, expected: Option<nat>, id: InodeId, parent: InodeId, name: string, now: int)
    requires Ids(t)
    ensures NamespaceStep(t, LinkNode(t, expected, id, parent, name, now).tables)
  {
    var o := LinkNode(t, expected, id, parent, name, now);
    if o.result.Ok? {
      var t1 := BumpParent(t, parent, expected, now).value;
      StepBump(t, parent, expected, now);
      StepUpdate(t1, o.result.value);
      StepTrans(t, t1, o.tables);
    }
  }

  // ----------------------------------------------------------------- remove

  lemma UnlinkKeepsTree(t: Tables, expected: Option<nat>, parent: InodeId, name: string, now: int)
    requires Tree(t)
    ensures var o := UnlinkNode(t, expected, parent, name, now);
            Tree(o.tables) && (o.result.Err? ==> o.tables == t)
  {
    hide Tree;
    TreeIds(t);
    var key := (parent, name);
    if key in t.dentries && t.inodes[t.dentries[key]].fileType != Directory
       && BumpParent(t, parent, expected, now).Ok? {
      var t1 := BumpParent(t, parent, expected, now).value;
      BumpTree(t, parent, expected, now);
      var t' := UnlinkNode(t, expected, parent, name, now).tables;
      RemoveNameTree(t1, t', key, now);
    }
  }

  lemma UnlinkStep(t: Tables, expected: Option<nat>, parent: InodeId, name: string, now: int)
    requires Ids(t)
    ensures NamespaceStep(t, UnlinkNode(t, expected, parent, name, now).tables)
  {
    var key := (parent, name);
    if key in t.dentries && t.dentries[key] in t.inodes && t.inodes[t.dentries[key]].fileType != Directory
       && BumpParent(t, parent, expected, now).Ok? {
      var t1 := BumpParent(t, parent, expected, now).value.(dentries := t.dentries - {key});
      StepBump(t, parent, expected, now);
      StepRemoveLink(t1, t.inodes[t.dentries[key]], now);
      StepTrans(t, t1, UnlinkNode(t, expected, parent, name, now).tables);
    }
  }

  lemma RmdirKeepsTree(t: Tables, expected: Option<nat>, parent: InodeId, name: string, now: int)
    requires Tree(t)
    ensures var o := RmdirNode(t, expected, parent, name, now);
            Tree(o.tables) && (o.result.Err? ==> o.tables == t)
  {
    hide Tree;
    TreeIds(t);
    var o := RmdirNode(t, expected, parent, name, now);
    if o.result.Ok? {
      var t1 := BumpParent(t, parent, expected, now).value;
      BumpTree(t, parent, expected, now);
      RemoveDirTree(t1, (parent, name));
    }
  }

  lemma RmdirStep(t: Tables, expected: Option<nat>, parent: InodeId, name: string, now: int)
    requires Ids(t)
    ensures NamespaceStep(t, RmdirNode(t, expected, parent, name, now).tables)
  {
    var o := RmdirNode(t, expected, parent, name, now);
    if o.result.Ok? {
      var t1 := BumpParent(t, parent, expected, now).value.(dentries := t.dentries - {(parent, name)});
      StepBump(t, parent, expected, now);
      StepDelete(t1, {t.dentries[(parent, name)]});
      StepTrans(t, t1, o.tables);
    }
  }

  // ----------------------------------------------------------------- rename

  /** What is left once the parents are bumped and the destination is cleared. */
  ghost predicate Cleared(t: Tables, newKey: DentryKey) {
    newKey in t.dentries ==>
      && t.dentries[newKey] in t.inodes
      && (t.inodes[t.dentries[newKey]].fileType == Directory ==> !HasChildren(t, t.dentries[newKey]))
  }

  lemma ClearTree(t: Tables, key: DentryKey, now: int)
    requires Tree(t) && Cleared(t, key)
    ensures var o := ClearDestination(t, key, now);
            o.result.Ok? && Tree(o.tables) && o.tables.dentries == t.dentries - {key}
  {
    hide Tree;
    if key in t.dentries {
      if t.inodes[t.dentries[key]].fileType == Directory {
        RemoveDirTree(t, key);
      } else {
        RemoveNameTree(t, ClearDestination(t, key, now).tables, key, now);
      }
    }
  }

  /** Clearing a destination deletes at most the destination. */
  lemma ClearKeeps(t: Tables, key: DentryKey, now: int, i: InodeId)
    requires Ids(t) && i in t.inodes && (key in t.dentries ==> t.dentries[key] != i)
    ensures i in ClearDestination(t, key, now).tables.inodes
    ensures ClearDestination(t, key, now).tables.inodes[i] == t.inodes[i]
  {
  }

  lemma ClearStep(t: Tables, key: DentryKey, now: int)
    requires Ids(t)
    ensures NamespaceStep(t, ClearDestination(t, key, now).tables)
  {
    if key in t.dentries && t.dentries[key] in t.inodes {
      var t1 := t.(dentries := t.dentries - {key});
      var id := t.dentries[key];
      if t.inodes[id].fileType == Directory { StepDelete(t1, {id}); } else { StepRemoveLink(t1, t1.inodes[id], now); }
    }
  }

  lemma FewerNamesReachLess(d: map<DentryKey, InodeId>, key: DentryKey, a: InodeId, b: InodeId)
    requires !Reaches(d, a, b)
    ensures !Reaches(d - {key}, a, b)
  {
    if Reaches(d - {key}, a, b) {
      var p :| IsPath(d - {key}, p, a, b);
      forall j | 0 <= j < |p| - 1 ensures Edge(d, p[j], p[j+1]) {
        assert Edge(d - {key}, p[j], p[j+1]);
      }
      PathKept(d, p, a, b);
    }
  }

  /** Everything rename has established before it starts to change tables. */
  ghost predicate MoveReady(t: Tables, source: Inode, oldKey: DentryKey, newKey: DentryKey) {
    && oldKey in t.dentries && oldKey != newKey && oldKey.0 in t.inodes && newKey.0 in t.inodes
    && t.inodes[oldKey.0].fileType == Directory && t.inodes[newKey.0].fileType == Directory
    && t.dentries[oldKey] in t.inodes && source == t.inodes[t.dentries[oldKey]]
    && (source.fileType == Directory ==> !Reaches(t.dentries, source.id, newKey.0))
    && (newKey in t.dentries ==>
          && t.dentries[newKey] != source.id && t.dentries[newKey] in t.inodes
          && (t.inodes[t.dentries[newKey]].fileType == Directory ==> source.fileType == Directory))
    && Cleared(t, newKey)
  }

  /** The two parents after they were bumped; the second bump is skipped within one directory. */
  function BumpBoth(t: Tables, a: InodeId, expA: Option<nat>, b: InodeId, expB: Option<nat>, now: int): Result<Tables> {
    match BumpParent(t, a, expA, now)
    case Err(e) => Err(e)
    case Ok(t1) => if a == b then Ok(t1) else BumpParent(t1, b, expB, now)
  }

  lemma BumpShape(t: Tables, parent: InodeId, expected: Option<nat>, now: int)
    requires BumpParent(t, parent, expected, now).Ok?
    ensures SameShape(t, BumpParent(t, parent, expected, now).value)
    ensures forall i | i in t.inodes && i != parent ::
              BumpParent(t, parent, expected, now).value.inodes[i] == t.inodes[i]
  {
  }

  lemma BumpBothShape(t: Tables, a: InodeId, expA: Option<nat>, b: InodeId, expB: Option<nat>, now: int)
    requires BumpBoth(t, a, expA, b, expB, now).Ok?
    ensures SameShape(t, BumpBoth(t, a, expA, b, expB, now).value)
    ensures forall i | i in t.inodes && i != a && i != b ::
              BumpBoth(t, a, expA, b, expB, now).value.inodes[i] == t.inodes[i]
  {
    hide BumpParent;
    BumpShape(t, a, expA, now);
    if a != b { BumpShape(BumpParent(t, a, expA, now).value, b, expB, now); }
  }

  lemma BumpBothTree(t: Tables, a: InodeId, expA: Option<nat>, b: InodeId, expB: Option<nat>, now: int)
    requires Tree(t) && BumpBoth(t, a, expA, b, expB, now).Ok?
    ensures var t' := BumpBoth(t, a, expA, b, expB, now).value; Tree(t') && NamespaceStep(t, t')
  {
    hide Tree;
    hide NamespaceStep;
    TreeIds(t);
    StepBump(t, a, expA, now);
    if a != b {
      var t1 := BumpParent(t, a, expA, now).value;
      StepBump(t1, b, expB, now);
      StepTrans(t, t1, BumpBoth(t, a, expA, b, expB, now).value);
    }
    BumpBothShape(t, a, expA, b, expB, now);
    SameShapeTree(t, BumpBoth(t, a, expA, b, expB, now).value);
  }

  /** The source is neither parent: a rename cannot put a directory into itself. */
  lemma SourceApart(t: Tables, source: Inode, oldKey: DentryKey, newKey: DentryKey)
    requires Tree(t) && MoveReady(t, source, oldKey, newKey)
    ensures source.id != oldKey.0 && source.id != newKey.0
    ensures newKey in t.dentries ==> t.dentries[newKey] != newKey.0 && t.dentries[newKey] != oldKey.0
  {
    assert t.dentries[(oldKey.0, oldKey.1)] == source.id;
    assert IsPath(t.dentries, [oldKey.0, source.id], oldKey.0, source.id);
    NoCycle(t, [oldKey.0, source.id], oldKey.0, source.id);
    PathSelf(t.dentries, source.id);
    if newKey in t.dentries {
      assert HasChildren(t, oldKey.0);
      assert t.dentries[newKey] == newKey.0 ==> HasChildren(t, newKey.0);
    }
  }

  /** Neither bump of the parents can fail once the checks have passed. */
  lemma MoveGoesThrough(t: Tables, source: Inode, oldKey: DentryKey, expOld: Option<nat>,
                        newKey: DentryKey, expNew: Option<nat>, now: int)
    requires MoveReady(t, source, oldKey, newKey)
    requires !Mismatch(t.inodes[oldKey.0], expOld) && !Mismatch(t.inodes[newKey.0], expNew)
    ensures BumpBoth(t, oldKey.0, expOld, newKey.0, expNew, now).Ok?
  {
  }

  /** The tables between the bumps and the final move. */
  lemma MoveMiddle(t: Tables, source: Inode, oldKey: DentryKey, expOld: Option<nat>,
                   newKey: DentryKey, expNew: Option<nat>, now: int) returns (t3: Tables)
    requires Tree(t) && MoveReady(t, source, oldKey, newKey)
    requires !Mismatch(t.inodes[oldKey.0], expOld) && !Mismatch(t.inodes[newKey.0], expNew)
    ensures Tree(t3) && NamespaceStep(t, t3)
    ensures BumpBoth(t, oldKey.0, expOld, newKey.0, expNew, now).Ok?
    ensures t3 == ClearDestination(BumpBoth(t, oldKey.0, expOld, newKey.0, expNew, now).value, newKey, now).tables
    ensures t3.dentries == t.dentries - {newKey}
    ensures source.id in t3.inodes && t3.inodes[source.id] == source
    ensures newKey.0 in t3.inodes && t3.inodes[newKey.0].fileType == Directory
    ensures var next := source.(generation := source.generation + 1, times := source.times.(ctime := now));
            RenameMove(t, source, oldKey, expOld, newKey, expNew, now) ==
            Outcome(t3.(dentries := (t3.dentries - {oldKey})[newKey := source.id],
                        inodes := t3.inodes[source.id := next]), Ok(next))
  {
    hide Tree;
    hide NamespaceStep;
    hide Reaches;
    TreeIds(t);
    MoveGoesThrough(t, source, oldKey, expOld, newKey, expNew, now);
    var t2 := BumpBoth(t, oldKey.0, expOld, newKey.0, expNew, now).value;
    BumpBothTree(t, oldKey.0, expOld, newKey.0, expNew, now);
    BumpBothShape(t, oldKey.0, expOld, newKey.0, expNew, now);
    TreeIds(t2);
    SourceApart(t, source, oldKey, newKey);
    ClearTree(t2, newKey, now);
    ClearStep(t2, newKey, now);
    t3 := ClearDestination(t2, newKey, now).tables;
    ClearKeeps(t2, newKey, now, source.id);
    ClearKeeps(t2, newKey, now, newKey.0);
    StepTrans(t, t2, t3);
  }

  lemma MoveKeepsTree(t: Tables, source: Inode, oldKey: DentryKey, expOld: Option<nat>,
                      newKey: DentryKey, expNew: Option<nat>, now: int)
    requires Tree(t) && MoveReady(t, source, oldKey, newKey)
    requires !Mismatch(t.inodes[oldKey.0], expOld) && !Mismatch(t.inodes[newKey.0], expNew)
    ensures var o := RenameMove(t, source, oldKey, expOld, newKey, expNew, now);
            o.result.Ok? && Tree(o.tables) && NamespaceStep(t, o.tables)
  {
    hide Tree;
    hide NamespaceStep;
    hide Reaches;
    hide RenameMove;
    TreeIds(t);
    var t3 := MoveMiddle(t, source, oldKey, expOld, newKey, expNew, now);
    TreeIds(t3);
    var o := RenameMove(t, source, oldKey, expOld, newKey, expNew, now);
    var next := source.(generation := source.generation + 1, times := source.times.(ctime := now));
    var t4 := t3.(inodes := t3.inodes[source.id := next]);
    StepUpdate(t3, next);
    StepTrans(t, t3, t4);
    StepNames(t, t4, o.tables);
    if source.fileType == Directory { FewerNamesReachLess(t.dentries, newKey, source.id, newKey.0); }
    MoveTree(t3, o.tables, oldKey, newKey, next);
  }

  lemma StepNames(t: Tables, u: Tables, v: Tables)
    requires NamespaceStep(t, u) && v == u.(dentries := v.dentries)
    ensures NamespaceStep(t, v)
  {
  }

  /** A rename that changes anything is a move. */
  lemma RenameIsMove(t: Tables, oldParent: InodeId, oldName: string, expOld: Option<nat>,
                     newParent: InodeId, newName: string, expNew: Option<nat>, noReplace: bool, now: int)
    ensures var o := RenameNode(t, oldParent, oldName, expOld, newParent, newName, expNew, noReplace, now);
            var oldKey := (oldParent, oldName);
            || o.tables == t
            || (oldKey in t.dentries && t.dentries[oldKey] in t.inodes
                && o == RenameMove(t, t.inodes[t.dentries[oldKey]], oldKey, expOld, (newParent, newName), expNew, now))
  {
    hide RenameMove;
    hide RenameCheck;
    hide BadDentryName;
  }

  /** Whatever a rename changes, it has checked first. */
  lemma RenameReady(t: Tables, oldParent: InodeId, oldName: string, expOld: Option<nat>,
                    newParent: InodeId, newName: string, expNew: Option<nat>, noReplace: bool, now: int)
    requires Grounded(t.inodes, t.dentries, t.nextInode)
    requires RenameNode(t, oldParent, oldName, expOld, newParent, newName, expNew, noReplace, now).tables != t
    ensures oldParent in t.inodes && newParent in t.inodes && (oldParent, oldName) in t.dentries
    ensures !Mismatch(t.inodes[oldParent], expOld) && !Mismatch(t.inodes[newParent], expNew)
    ensures MoveReady(t, t.inodes[t.dentries[(oldParent, oldName)]], (oldParent, oldName), (newParent, newName))
  {
    hide RenameMove;
    hide Reaches;
    hide BadDentryName;
    hide HasChildren;
  }

  lemma RenameKeepsTree(t: Tables, oldParent: InodeId, oldName: string, expOld: Option<nat>,
                        newParent: InodeId, newName: string, expNew: Option<nat>, noReplace: bool, now: int)
    requires Tree(t)
    ensures var o := RenameNode(t, oldParent, oldName, expOld, newParent, newName, expNew, noReplace, now);
            Tree(o.tables) && (o.result.Err? ==> o.tables == t) && NamespaceStep(t, o.tables)
  {
    hide Tree;
    hide Grounded;
    hide NamespaceStep;
    hide SameShape;
    hide RenameNode;
    hide RenameMove;
    hide MoveReady;
    TreeIds(t);
    StepSelf(t);
    RenameIsMove(t, oldParent, oldName, expOld, newParent, newName, expNew, noReplace, now);
    if RenameNode(t, oldParent, oldName, expOld, newParent, newName, expNew, noReplace, now).tables != t {
      RenameReady(t, oldParent, oldName, expOld, newParent, newName, expNew, noReplace, now);
      var oldKey := (oldParent, oldName);
      MoveKeepsTree(t, t.inodes[t.dentries[oldKey]], oldKey, expOld, (newParent, newName), expNew, now);
    }
  }

  lemma StepSelf(t: Tables)
    ensures NamespaceStep(t, t) && SameShape(t, t)
  {
  }

  // ------------------------------------------------------------ open handles

  lemma OpenKeepsTree(t: Tables, session: string, id: InodeId)
    requires Tree(t)
    ensures var o := OpenNode(t, session, id);
            Tree(o.tables) && (o.result.Err? ==> o.tables == t) && NamespaceStep(t, o.tables)
  {
    hide Rooted;
    hide Counted;
    hide Grounded;
    var o := OpenNode(t, session, id);
    forall i | HasPresence(t.presences, i) ensures HasPresence(o.tables.presences, i) {
      var p :| p in t.presences && p.0 == i;
      assert p in o.tables.presences;
    }
  }

  /** What reaping deletes has no name left. */
  lemma ReapedUnnamed(t: Tables, gone: set<Presence>, ids: set<InodeId>, i: InodeId)
    requires Linked(t) && i in t.inodes && i !in ReapUnopened(t.(presences := t.presences - gone), ids).inodes
    ensures t.inodes[i].fileType != Directory && NamesOf(t.dentries, i) == {}
  {
    var p :| p in t.presences && p.0 == i;
    assert |NamesOf(t.dentries, i)| == 0;
  }

  lemma ReapLinked(t: Tables, gone: set<Presence>, ids: set<InodeId>)
    requires Linked(t) && (forall p | p in gone :: p.0 in ids)
    ensures Linked(ReapUnopened(t.(presences := t.presences - gone), ids))
  {
    var t1 := t.(presences := t.presences - gone);
    var t' := ReapUnopened(t1, ids);
    forall i | i in t.inodes && i !in t'.inodes
      ensures t.inodes[i].fileType != Directory && NamesOf(t.dentries, i) == {} {
      ReapedUnnamed(t, gone, ids, i);
    }
    assert forall k | k in t.dentries :: k in NamesOf(t.dentries, t.dentries[k]);
    forall i | i in t'.inodes ensures t'.inodes[i].linkCount > 0 || HasPresence(t'.presences, i) {
      if t.inodes[i].linkCount == 0 {
        assert HasPresence(t1.presences, i) by {
          var p :| p in t.presences && p.0 == i;
          assert i in ids || p in t1.presences;
        }
        var q :| q in t1.presences && q.0 == i;
        assert q in t'.presences;
      }
    }
  }

  /** Dropping handles and reaping what only they kept alive. */
  lemma ReapTree(t: Tables, gone: set<Presence>, ids: set<InodeId>)
    requires Tree(t) && (forall p | p in gone :: p.0 in ids)
    ensures Tree(ReapUnopened(t.(presences := t.presences - gone), ids))
  {
    hide Linked;
    hide Reaches;
    ReapLinked(t, gone, ids);
  }

  lemma ReapStep(t: Tables, gone: set<Presence>, ids: set<InodeId>)
    ensures NamespaceStep(t, ReapUnopened(t.(presences := t.presences - gone), ids))
  {
    var t1 := t.(presences := t.presences - gone);
    StepDelete(t1, set i | i in ids && i in t1.inodes && t1.inodes[i].linkCount == 0 && !HasPresence(t1.presences, i));
  }

  lemma CloseKeepsTree(t: Tables, session: string, id: InodeId)
    requires Tree(t)
    ensures var o := CloseNode(t, session, id);
            Tree(o.tables) && (o.result.Err? ==> o.tables == t) && NamespaceStep(t, o.tables)
  {
    hide Tree;
    ReapTree(t, {(id, session)}, {id});
    ReapStep(t, {(id, session)}, {id});
  }

  lemma RecoverKeepsTree(t: Tables, session: string)
    requires Tree(t)
    ensures var o := RecoverNode(t, session);
            Tree(o.tables) && (o.result.Err? ==> o.tables == t) && NamespaceStep(t, o.tables)
  {
    hide Tree;
    var stale := set p | p in t.presences && p.1 == session;
    ReapTree(t, stale, set p | p in stale :: p.0);
    ReapStep(t, stale, set p | p in stale :: p.0);
  }
}
