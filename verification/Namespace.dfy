/**
 The namespace is a rooted tree: no directory entry dangles, every directory
 other than the root has exactly one name and is reachable from the root, and
 every other inode has as many names as its link count says.
 */
module Namespace {
  import opened Types
  import opened Sets
  import opened MetaTables

  ghost function NamesOf(d: map<DentryKey, InodeId>, c: InodeId): set<DentryKey> {
    set k | k in d && d[k] == c
  }

  /** How many names an inode must have. */
  function NameCount(inode: Inode): nat {
    if inode.id == ROOT_INODE then 0 else if inode.fileType == Directory then 1 else inode.linkCount
  }

  /** The root exists, ids are below the next one, and no directory entry dangles. */
  ghost predicate Grounded(inodes: map<InodeId, Inode>, d: map<DentryKey, InodeId>, next: InodeId) {
    && ROOT_INODE in inodes && inodes[ROOT_INODE].fileType == Directory
    && (forall i | i in inodes :: inodes[i].id == i && i < next)
    && (forall k | k in d :: k.0 in inodes && inodes[k.0].fileType == Directory && d[k] in inodes)
  }

  /** Every inode has as many names as it must have. */
  ghost predicate Counted(inodes: map<InodeId, Inode>, d: map<DentryKey, InodeId>) {
    forall i | i in inodes :: |NamesOf(d, i)| == NameCount(inodes[i])
  }

  /** What is stored has a name or is open, and only regular files are open. */
  ghost predicate Alive(inodes: map<InodeId, Inode>, presences: set<Presence>) {
    && (forall i | i in inodes :: inodes[i].linkCount > 0 || HasPresence(presences, i))
    && (forall p | p in presences :: p.0 in inodes && inodes[p.0].fileType == Regular)
  }

  /** Every directory is reachable from the root. */
  ghost predicate Rooted(inodes: map<InodeId, Inode>, d: map<DentryKey, InodeId>) {
    forall i | i in inodes && inodes[i].fileType == Directory :: Reaches(d, ROOT_INODE, i)
  }

  ghost predicate Linked(t: Tables) {
    Grounded(t.inodes, t.dentries, t.nextInode) && Counted(t.inodes, t.dentries) && Alive(t.inodes, t.presences)
  }

  ghost predicate Tree(t: Tables) {
    Linked(t) && Rooted(t.inodes, t.dentries)
  }

  // ------------------------------------------------------------------ paths

  ghost predicate Edges(d: map<DentryKey, InodeId>, p: seq<InodeId>) {
    forall i | 0 <= i < |p| - 1 :: Edge(d, p[i], p[i+1])
  }

  lemma PathKept(d: map<DentryKey, InodeId>, p: seq<InodeId>, a: InodeId, b: InodeId)
    requires |p| > 0 && p[0] == a && p[|p|-1] == b && Edges(d, p)
    ensures IsPath(d, p, a, b) && Reaches(d, a, b)
  {
    forall i, j | 0 <= i && j == i + 1 && j < |p| ensures Edge(d, p[i], p[j]) {
      assert Edge(d, p[i], p[i+1]);
    }
  }

  lemma PathJoin(d: map<DentryKey, InodeId>, a: InodeId, b: InodeId, c: InodeId)
    requires Reaches(d, a, b) && Reaches(d, b, c)
    ensures Reaches(d, a, c)
  {
    var p :| IsPath(d, p, a, b);
    var q :| IsPath(d, q, b, c);
    var r := p + q[1..];
    forall i | 0 <= i < |r| - 1 ensures Edge(d, r[i], r[i+1]) {
      if i < |p| - 1 {
        assert r[i] == p[i] && r[i+1] == p[i+1];
      } else {
        assert r[i] == q[i - (|p| - 1)] && r[i+1] == q[i - (|p| - 1) + 1];
      }
    }
    PathKept(d, r, a, c);
  }

  lemma PathStep(d: map<DentryKey, InodeId>, a: InodeId, b: InodeId)
    requires Edge(d, a, b)
    ensures Reaches(d, a, b)
  {
    assert IsPath(d, [a, b], a, b);
  }

  lemma PathSelf(d: map<DentryKey, InodeId>, a: InodeId)
    ensures Reaches(d, a, a)
  {
    assert IsPath(d, [a], a, a);
  }

  lemma PathPrefix(d: map<DentryKey, InodeId>, p: seq<InodeId>, a: InodeId, b: InodeId, k: nat)
    requires IsPath(d, p, a, b) && k < |p|
    ensures Reaches(d, a, p[k]) && Reaches(d, p[k], b)
  {
    assert IsPath(d, p[..k+1], a, p[k]);
    assert IsPath(d, p[k..], p[k], b);
  }

  // ------------------------------------------------------------------ names

  lemma NamesAdd(d: map<DentryKey, InodeId>, k: DentryKey, c: InodeId, x: InodeId)
    requires k !in d
    ensures |NamesOf(d[k := c], x)| == |NamesOf(d, x)| + (if x == c then 1 else 0)
  {
    if x == c {
      assert NamesOf(d[k := c], x) == NamesOf(d, x) + {k};
    } else {
      assert NamesOf(d[k := c], x) == NamesOf(d, x);
    }
  }

  lemma NamesRemove(d: map<DentryKey, InodeId>, k: DentryKey, x: InodeId)
    requires k in d
    ensures |NamesOf(d - {k}, x)| == |NamesOf(d, x)| - (if x == d[k] then 1 else 0)
  {
    if x == d[k] {
      assert NamesOf(d - {k}, x) == NamesOf(d, x) - {k};
    } else {
      assert NamesOf(d - {k}, x) == NamesOf(d, x);
    }
  }

  lemma OneName(d: map<DentryKey, InodeId>, k: DentryKey, l: DentryKey)
    requires k in d && l in d && d[k] == d[l] && |NamesOf(d, d[k])| == 1
    ensures k == l
  {
    if k != l {
      assert {k, l} <= NamesOf(d, d[k]);
      SubsetSize({k, l}, NamesOf(d, d[k]));
    }
  }

  // ----------------------------------------------------------- no cycles

  lemma RootHasNoParent(t: Tables, a: InodeId)
    requires Linked(t)
    ensures !Edge(t.dentries, a, ROOT_INODE)
  {
    assert |NamesOf(t.dentries, ROOT_INODE)| == 0;
    forall n: string ensures (a, n) !in NamesOf(t.dentries, ROOT_INODE) {
    }
  }

  /** A directory has one parent. */
  lemma OneParent(t: Tables, a: InodeId, b: InodeId, c: InodeId, next: InodeId)
    requires Linked(t) && Edge(t.dentries, a, c) && Edge(t.dentries, b, c) && Edge(t.dentries, c, next)
    ensures a == b
  {
    var d := t.dentries;
    var m: string :| (a, m) in d && d[(a, m)] == c;
    var n: string :| (b, n) in d && d[(b, n)] == c;
    var o: string :| (c, o) in d;
    assert (a, m) in NamesOf(d, c);
    OneName(d, (a, m), (b, n));
  }

  /** Walking back from a node on a cycle of directories never leaves the cycle. */
  lemma CycleReachesRoot(t: Tables, p: seq<InodeId>, x: InodeId, q: seq<InodeId>, j: nat, k: nat)
    requires Linked(t)
    requires |p| > 1 && IsPath(t.dentries, p, x, x)
    requires j < |q| && IsPath(t.dentries, q, ROOT_INODE, q[|q|-1])
    requires k < |p| - 1 && p[k] == q[j]
    ensures ROOT_INODE in p[1..]
    decreases j
  {
    var pred := if k == 0 then |p| - 2 else k - 1;
    assert p[pred + 1] == q[j];
    if j > 0 {
      OneParent(t, p[pred], q[j-1], q[j], p[k+1]);
      CycleReachesRoot(t, p, x, q, j - 1, pred);
    } else {
      assert p[1..][pred] == ROOT_INODE;
    }
  }

  /** No directory lies below itself: following names down never comes back. */
  lemma NoCycle(t: Tables, p: seq<InodeId>, x: InodeId, y: InodeId)
    requires Tree(t)
    requires |p| > 1 && IsPath(t.dentries, p, x, y)
    ensures x != y
  {
    if x == y {
      assert Edge(t.dentries, p[0], p[1]);
      var q :| IsPath(t.dentries, q, ROOT_INODE, x);
      CycleReachesRoot(t, p, x, q, |q| - 1, 0);
      var k :| 0 <= k < |p| - 1 && p[1..][k] == ROOT_INODE;
      assert Edge(t.dentries, p[k], p[k+1]);
      RootHasNoParent(t, p[k]);
    }
  }

  // ------------------------------------------------ reachability, by change

  /** Adding a name keeps everything reachable. */
  lemma AddReach(d: map<DentryKey, InodeId>, key: DentryKey, c: InodeId, b: InodeId)
    requires key !in d && Reaches(d, ROOT_INODE, b)
    ensures Reaches(d[key := c], ROOT_INODE, b)
  {
    var p :| IsPath(d, p, ROOT_INODE, b);
    forall j | 0 <= j < |p| - 1 ensures Edge(d[key := c], p[j], p[j+1]) {
      assert Edge(d, p[j], p[j+1]);
      var n: string :| (p[j], n) in d && d[(p[j], n)] == p[j+1];
      assert (p[j], n) in d[key := c];
    }
    PathKept(d[key := c], p, ROOT_INODE, b);
  }

  /** A path avoids a node without children unless it ends there. */
  lemma LeafOffPath(d: map<DentryKey, InodeId>, p: seq<InodeId>, a: InodeId, b: InodeId, leaf: InodeId, j: nat)
    requires IsPath(d, p, a, b) && b != leaf && j < |p|
    requires forall k | k in d :: k.0 != leaf
    ensures p[j] != leaf
  {
    if j < |p| - 1 {
      var n: string :| (p[j], n) in d && d[(p[j], n)] == p[j+1];
    }
  }

  /** Removing a name of a childless inode keeps everything else reachable. */
  lemma RemoveReach(d: map<DentryKey, InodeId>, key: DentryKey, b: InodeId)
    requires key in d && (forall k | k in d :: k.0 != d[key])
    requires b != d[key] && Reaches(d, ROOT_INODE, b)
    ensures Reaches(d - {key}, ROOT_INODE, b)
  {
    var p :| IsPath(d, p, ROOT_INODE, b);
    forall j | 0 <= j < |p| - 1 ensures Edge(d - {key}, p[j], p[j+1]) {
      var n: string :| (p[j], n) in d && d[(p[j], n)] == p[j+1];
      LeafOffPath(d, p, ROOT_INODE, b, d[key], j + 1);
      assert (p[j], n) in d - {key};
    }
    PathKept(d - {key}, p, ROOT_INODE, b);
  }

  /** The last occurrence of a node on a path. */
  lemma LastVisit(p: seq<InodeId>, x: InodeId) returns (k: nat)
    requires x in p
    ensures k < |p| && p[k] == x && forall j | k < j < |p| :: p[j] != x
  {
    k := |p| - 1;
    while p[k] != x
      invariant k < |p| && x in p[..k+1] && forall j | k < j < |p| :: p[j] != x
      decreases k
    {
      k := k - 1;
    }
  }

  /** Edges into other nodes survive moving one name. */
  lemma MovedEdge(d: map<DentryKey, InodeId>, oldKey: DentryKey, newKey: DentryKey, a: InodeId, b: InodeId)
    requires oldKey in d && newKey !in d && b != d[oldKey] && Edge(d, a, b)
    ensures Edge((d - {oldKey})[newKey := d[oldKey]], a, b)
  {
    var n: string :| (a, n) in d && d[(a, n)] == b;
    assert (a, n) in (d - {oldKey})[newKey := d[oldKey]];
  }

  lemma MovedPath(d: map<DentryKey, InodeId>, oldKey: DentryKey, newKey: DentryKey, p: seq<InodeId>,
                  a: InodeId, b: InodeId)
    requires oldKey in d && newKey !in d && IsPath(d, p, a, b)
    requires forall j | 0 < j < |p| :: p[j] != d[oldKey]
    ensures Reaches((d - {oldKey})[newKey := d[oldKey]], a, b)
  {
    var d' := (d - {oldKey})[newKey := d[oldKey]];
    forall j | 0 <= j < |p| - 1 ensures Edge(d', p[j], p[j+1]) {
      MovedEdge(d, oldKey, newKey, p[j], p[j+1]);
    }
    PathKept(d', p, a, b);
  }

  /** Moving a name keeps everything reachable unless it moves below itself. */
  lemma MoveReach(d: map<DentryKey, InodeId>, oldKey: DentryKey, newKey: DentryKey, b: InodeId)
    requires oldKey in d && newKey !in d
    requires Reaches(d, ROOT_INODE, newKey.0) && !Reaches(d, d[oldKey], newKey.0)
    requires Reaches(d, ROOT_INODE, b)
    ensures Reaches((d - {oldKey})[newKey := d[oldKey]], ROOT_INODE, b)
  {
    var c := d[oldKey];
    var d' := (d - {oldKey})[newKey := c];
    var p :| IsPath(d, p, ROOT_INODE, b);
    if c in p {
      var q :| IsPath(d, q, ROOT_INODE, newKey.0);
      forall j | 0 <= j < |q| ensures q[j] != c {
        if q[j] == c { PathPrefix(d, q, ROOT_INODE, newKey.0, j); }
      }
      MovedPath(d, oldKey, newKey, q, ROOT_INODE, newKey.0);
      var k := LastVisit(p, c);
      assert IsPath(d, p[k..], c, b);
      MovedPath(d, oldKey, newKey, p[k..], c, b);
      assert d'[(newKey.0, newKey.1)] == c;
      PathStep(d', newKey.0, c);
      PathJoin(d', ROOT_INODE, newKey.0, c);
      PathJoin(d', ROOT_INODE, c, b);
    } else {
      MovedPath(d, oldKey, newKey, p, ROOT_INODE, b);
    }
  }

  /** Nothing lies below an inode that is not a directory. */
  lemma NothingBelow(t: Tables, x: InodeId, y: InodeId)
    requires Linked(t) && x in t.inodes && t.inodes[x].fileType != Directory && x != y
    ensures !Reaches(t.dentries, x, y)
  {
    forall p ensures !IsPath(t.dentries, p, x, y) {
      if |p| > 1 {
        assert forall n: string :: (x, n) !in t.dentries;
        assert !Edge(t.dentries, x, p[1]);
      }
    }
  }

  // -------------------------------------------------------- kinds of change

  /** Changes that leave names, types, link counts and open handles alone. */
  ghost predicate SameShape(t: Tables, t': Tables) {
    && t'.dentries == t.dentries && t'.presences == t.presences && t'.nextInode == t.nextInode
    && t'.inodes.Keys == t.inodes.Keys
    && forall i | i in t.inodes ::
         && t'.inodes[i].id == t.inodes[i].id
         && t'.inodes[i].fileType == t.inodes[i].fileType
         && t'.inodes[i].linkCount == t.inodes[i].linkCount
  }

  lemma SameShapeTree(t: Tables, t': Tables)
    requires Tree(t) && SameShape(t, t')
    ensures Tree(t')
  {
    assert forall i | i in t'.inodes :: NameCount(t'.inodes[i]) == NameCount(t.inodes[i]);
  }

  /** Adding a fresh inode under a directory. */
  ghost predicate Attach(t: Tables, t': Tables, key: DentryKey, inode: Inode) {
    && key.0 in t.inodes && t.inodes[key.0].fileType == Directory && key !in t.dentries
    && inode.id == t.nextInode && inode.linkCount > 0 && (inode.fileType != Directory ==> inode.linkCount == 1)
    && t'.inodes == t.inodes[inode.id := inode]
    && t'.dentries == t.dentries[key := inode.id]
    && t'.presences == t.presences && t'.nextInode == t.nextInode + 1
  }

  lemma AttachCounted(t: Tables, t': Tables, key: DentryKey, inode: Inode)
    requires Grounded(t.inodes, t.dentries, t.nextInode) && Counted(t.inodes, t.dentries) && Attach(t, t', key, inode)
    ensures Counted(t'.inodes, t'.dentries)
  {
    assert NamesOf(t.dentries, inode.id) == {};
    forall i | i in t'.inodes ensures |NamesOf(t'.dentries, i)| == NameCount(t'.inodes[i]) {
      NamesAdd(t.dentries, key, inode.id, i);
    }
  }

  lemma AttachGrounded(t: Tables, t': Tables, key: DentryKey, inode: Inode)
    requires Grounded(t.inodes, t.dentries, t.nextInode) && Attach(t, t', key, inode)
    ensures Grounded(t'.inodes, t'.dentries, t'.nextInode)
  {
  }

  lemma AttachAlive(t: Tables, t': Tables, key: DentryKey, inode: Inode)
    requires Grounded(t.inodes, t.dentries, t.nextInode) && Alive(t.inodes, t.presences) && Attach(t, t', key, inode)
    ensures Alive(t'.inodes, t'.presences)
  {
    hide HasPresence;
  }

  lemma AttachRooted(t: Tables, t': Tables, key: DentryKey, inode: Inode)
    requires Grounded(t.inodes, t.dentries, t.nextInode) && Rooted(t.inodes, t.dentries) && Attach(t, t', key, inode)
    ensures Rooted(t'.inodes, t'.dentries)
  {
    forall i | i in t'.inodes && t'.inodes[i].fileType == Directory ensures Reaches(t'.dentries, ROOT_INODE, i) {
      AddReach(t.dentries, key, inode.id, if i == inode.id then key.0 else i);
      if i == inode.id {
        assert t'.dentries[(key.0, key.1)] == inode.id;
        PathStep(t'.dentries, key.0, inode.id);
        PathJoin(t'.dentries, ROOT_INODE, key.0, inode.id);
      }
    }
  }

  lemma AttachTree(t: Tables, t': Tables, key: DentryKey, inode: Inode)
    requires Tree(t) && Attach(t, t', key, inode)
    ensures Tree(t')
  {
    hide Grounded;
    hide Counted;
    hide Alive;
    hide Rooted;
    AttachCounted(t, t', key, inode);
    AttachGrounded(t, t', key, inode);
    AttachAlive(t, t', key, inode);
    AttachRooted(t, t', key, inode);
  }

  /** Adding a further name for an inode that is not a directory. */
  ghost predicate AddName(t: Tables, t': Tables, key: DentryKey, inode: Inode) {
    && key.0 in t.inodes && t.inodes[key.0].fileType == Directory && key !in t.dentries
    && inode.id in t.inodes && inode.fileType != Directory
    && inode.fileType == t.inodes[inode.id].fileType
    && inode.linkCount == t.inodes[inode.id].linkCount + 1
    && t'.inodes == t.inodes[inode.id := inode]
    && t'.dentries == t.dentries[key := inode.id]
    && t'.presences == t.presences && t'.nextInode == t.nextInode
  }

  lemma AddNameCounted(t: Tables, t': Tables, key: DentryKey, inode: Inode)
    requires Linked(t) && AddName(t, t', key, inode)
    ensures Counted(t'.inodes, t'.dentries)
  {
    forall i | i in t'.inodes ensures |NamesOf(t'.dentries, i)| == NameCount(t'.inodes[i]) {
      NamesAdd(t.dentries, key, inode.id, i);
    }
  }

  lemma AddNameGrounded(t: Tables, t': Tables, key: DentryKey, inode: Inode)
    requires Grounded(t.inodes, t.dentries, t.nextInode) && AddName(t, t', key, inode)
    ensures Grounded(t'.inodes, t'.dentries, t'.nextInode)
  {
  }

  lemma AddNameAlive(t: Tables, t': Tables, key: DentryKey, inode: Inode)
    requires Alive(t.inodes, t.presences) && AddName(t, t', key, inode)
    ensures Alive(t'.inodes, t'.presences)
  {
    hide HasPresence;
  }

  lemma AddNameRooted(t: Tables, t': Tables, key: DentryKey, inode: Inode)
    requires Tree(t) && AddName(t, t', key, inode)
    ensures Rooted(t'.inodes, t'.dentries)
  {
    forall i | i in t'.inodes && t'.inodes[i].fileType == Directory ensures Reaches(t'.dentries, ROOT_INODE, i) {
      AddReach(t.dentries, key, inode.id, i);
    }
  }

  lemma AddNameTree(t: Tables, t': Tables, key: DentryKey, inode: Inode)
    requires Tree(t) && AddName(t, t', key, inode)
    ensures Tree(t')
  {
    hide Grounded;
    hide Counted;
    hide Alive;
    hide Rooted;
    AddNameCounted(t, t', key, inode);
    AddNameGrounded(t, t', key, inode);
    AddNameAlive(t, t', key, inode);
    AddNameRooted(t, t', key, inode);
  }

  /** Handles on other inodes survive the deletion of some. */
  lemma PresenceKept(before: set<Presence>, dead: set<InodeId>)
    ensures forall i | i !in dead ::
              HasPresence((set p | p in before && p.0 !in dead), i) <==> HasPresence(before, i)
  {
    var after := set p | p in before && p.0 !in dead;
    forall i | i !in dead ensures HasPresence(after, i) <==> HasPresence(before, i) {
      if HasPresence(before, i) {
        var p :| p in before && p.0 == i;
        assert p in after;
      }
    }
  }

  /** Removing a name of a non-directory, by unlink or by replacement. */
  ghost predicate RemoveName(t: Tables, t': Tables, key: DentryKey, now: int) {
    && key in t.dentries && t.dentries[key] in t.inodes && t.inodes[t.dentries[key]].fileType != Directory
    && t' == RemoveLink(t.(dentries := t.dentries - {key}), t.inodes[t.dentries[key]], now).tables
  }

  lemma RemoveNameCounted(t: Tables, t': Tables, key: DentryKey, now: int)
    requires Grounded(t.inodes, t.dentries, t.nextInode) && Counted(t.inodes, t.dentries) && RemoveName(t, t', key, now)
    ensures Counted(t'.inodes, t'.dentries)
  {
    hide HasPresence;
    var id := t.dentries[key];
    NamedHasLink(t, key);
    forall i | i in t'.inodes ensures |NamesOf(t'.dentries, i)| == NameCount(t'.inodes[i]) {
      NamesRemove(t.dentries, key, i);
    }
  }

  lemma NamedHasLink(t: Tables, key: DentryKey)
    requires Grounded(t.inodes, t.dentries, t.nextInode) && Counted(t.inodes, t.dentries) && key in t.dentries
    requires t.inodes[t.dentries[key]].fileType != Directory
    ensures t.inodes[t.dentries[key]].linkCount == |NamesOf(t.dentries, t.dentries[key])| > 0
  {
    assert key in NamesOf(t.dentries, t.dentries[key]);
  }

  /** The last name of an inode goes before the inode does. */
  lemma NoNameLeft(t: Tables, t': Tables, key: DentryKey, now: int)
    requires Grounded(t.inodes, t.dentries, t.nextInode) && Counted(t.inodes, t.dentries) && RemoveName(t, t', key, now)
    ensures t.dentries[key] !in t'.inodes ==> t.dentries[key] !in t'.dentries.Values
  {
    hide HasPresence;
    hide Grounded;
    hide Counted;
    var id := t.dentries[key];
    NamedHasLink(t, key);
    NamesRemove(t.dentries, key, id);
    assert forall k | k in t'.dentries && t'.dentries[k] == id :: k in NamesOf(t'.dentries, id);
  }

  lemma RemoveNameGrounded(t: Tables, t': Tables, key: DentryKey, now: int)
    requires Grounded(t.inodes, t.dentries, t.nextInode) && Counted(t.inodes, t.dentries) && RemoveName(t, t', key, now)
    ensures Grounded(t'.inodes, t'.dentries, t'.nextInode)
  {
    hide Counted;
    NoNameLeft(t, t', key, now);
  }

  lemma RemoveNameAlive(t: Tables, t': Tables, key: DentryKey, now: int)
    requires Grounded(t.inodes, t.dentries, t.nextInode) && Alive(t.inodes, t.presences) && RemoveName(t, t', key, now)
    ensures Alive(t'.inodes, t'.presences)
  {
    var id := t.dentries[key];
    PresenceKept(t.presences, {id});
    forall i | i in t'.inodes
      ensures t'.inodes[i].linkCount > 0 || HasPresence(t'.presences, i)
    {
      if i != id { assert t.inodes[i].linkCount > 0 || HasPresence(t.presences, i); }
    }
  }

  lemma RemoveNameRooted(t: Tables, t': Tables, key: DentryKey, now: int)
    requires Tree(t) && RemoveName(t, t', key, now)
    ensures Rooted(t'.inodes, t'.dentries)
  {
    hide Counted;
    hide Alive;
    hide HasPresence;
    hide Reaches;
    RemovedNameKeeps(t, t', key, now);
    forall i | i in t'.inodes && t'.inodes[i].fileType == Directory ensures Reaches(t'.dentries, ROOT_INODE, i) {
      RemoveReach(t.dentries, key, i);
    }
  }

  lemma RemovedNameKeeps(t: Tables, t': Tables, key: DentryKey, now: int)
    requires Grounded(t.inodes, t.dentries, t.nextInode) && RemoveName(t, t', key, now)
    ensures t'.dentries == t.dentries - {key}
    ensures forall i | i in t'.inodes :: i in t.inodes && t'.inodes[i].fileType == t.inodes[i].fileType
  {
    hide HasPresence;
  }

  lemma RemoveNameTree(t: Tables, t': Tables, key: DentryKey, now: int)
    requires Tree(t) && RemoveName(t, t', key, now)
    ensures Tree(t') && t.inodes[t.dentries[key]].linkCount > 0
  {
    NamedHasLink(t, key);
    RemoveNameCounted(t, t', key, now);
    RemoveNameGrounded(t, t', key, now);
    RemoveNameAlive(t, t', key, now);
    RemoveNameRooted(t, t', key, now);
  }

  lemma RemoveDirCounted(t: Tables, key: DentryKey)
    requires Grounded(t.inodes, t.dentries, t.nextInode) && Counted(t.inodes, t.dentries) && key in t.dentries
    requires t.inodes[t.dentries[key]].fileType == Directory
    ensures Counted(t.inodes - {t.dentries[key]}, t.dentries - {key})
    ensures t.dentries[key] !in (t.dentries - {key}).Values
  {
    var id, d, d' := t.dentries[key], t.dentries, t.dentries - {key};
    assert key in NamesOf(d, id);
    NamesRemove(d, key, id);
    assert forall k | k in d' && d'[k] == id :: k in NamesOf(d', id);
    forall i | i in t.inodes - {id} ensures |NamesOf(d', i)| == NameCount((t.inodes - {id})[i]) {
      NamesRemove(d, key, i);
    }
  }

  lemma RemoveDirGrounded(t: Tables, key: DentryKey)
    requires Grounded(t.inodes, t.dentries, t.nextInode) && Counted(t.inodes, t.dentries) && key in t.dentries
    requires t.inodes[t.dentries[key]].fileType == Directory && !HasChildren(t, t.dentries[key])
    ensures Grounded(t.inodes - {t.dentries[key]}, t.dentries - {key}, t.nextInode)
  {
    RemoveDirCounted(t, key);
    assert t.dentries[key] != ROOT_INODE by { assert key in NamesOf(t.dentries, t.dentries[key]); }
    hide Counted;
  }

  lemma RemoveDirAlive(t: Tables, dead: InodeId)
    requires Alive(t.inodes, t.presences)
    ensures Alive(DeleteInodes(t, {dead}).inodes, DeleteInodes(t, {dead}).presences)
  {
    PresenceKept(t.presences, {dead});
    var t' := DeleteInodes(t, {dead});
    forall i | i in t'.inodes ensures t'.inodes[i].linkCount > 0 || HasPresence(t'.presences, i) {
      assert t.inodes[i].linkCount > 0 || HasPresence(t.presences, i);
    }
  }

  /** Removing an empty directory, by rmdir or by replacement. */
  lemma RemoveDirLinked(t: Tables, key: DentryKey)
    requires Linked(t) && key in t.dentries
    requires t.inodes[t.dentries[key]].fileType == Directory && !HasChildren(t, t.dentries[key])
    ensures Linked(DeleteInodes(t.(dentries := t.dentries - {key}), {t.dentries[key]}))
  {
    hide Grounded;
    hide Counted;
    hide Alive;
    RemoveDirCounted(t, key);
    RemoveDirGrounded(t, key);
    RemoveDirAlive(t.(dentries := t.dentries - {key}), t.dentries[key]);
  }

  lemma RemoveDirTree(t: Tables, key: DentryKey)
    requires Tree(t) && key in t.dentries
    requires t.inodes[t.dentries[key]].fileType == Directory && !HasChildren(t, t.dentries[key])
    ensures Tree(DeleteInodes(t.(dentries := t.dentries - {key}), {t.dentries[key]}))
  {
    RemoveDirLinked(t, key);
    var t' := DeleteInodes(t.(dentries := t.dentries - {key}), {t.dentries[key]});
    forall i | i in t'.inodes && t'.inodes[i].fileType == Directory ensures Reaches(t'.dentries, ROOT_INODE, i) {
      RemoveReach(t.dentries, key, i);
    }
  }

  /** Moving a name to a free place. */
  ghost predicate Move(t: Tables, t': Tables, oldKey: DentryKey, newKey: DentryKey, source: Inode) {
    && oldKey in t.dentries && newKey !in t.dentries
    && newKey.0 in t.inodes && t.inodes[newKey.0].fileType == Directory
    && source.id == t.dentries[oldKey] && source.id in t.inodes
    && source.fileType == t.inodes[source.id].fileType && source.linkCount == t.inodes[source.id].linkCount
    && t'.dentries == (t.dentries - {oldKey})[newKey := source.id]
    && t'.inodes == t.inodes[source.id := source]
    && t'.presences == t.presences && t'.nextInode == t.nextInode
  }

  lemma MoveCounted(t: Tables, t': Tables, oldKey: DentryKey, newKey: DentryKey, source: Inode)
    requires Linked(t) && Move(t, t', oldKey, newKey, source)
    ensures Counted(t'.inodes, t'.dentries)
  {
    forall i | i in t'.inodes ensures |NamesOf(t'.dentries, i)| == NameCount(t'.inodes[i]) {
      NamesRemove(t.dentries, oldKey, i);
      NamesAdd(t.dentries - {oldKey}, newKey, source.id, i);
    }
  }

  lemma MoveGrounded(t: Tables, t': Tables, oldKey: DentryKey, newKey: DentryKey, source: Inode)
    requires Grounded(t.inodes, t.dentries, t.nextInode) && Move(t, t', oldKey, newKey, source)
    ensures Grounded(t'.inodes, t'.dentries, t'.nextInode)
  {
  }

  lemma MoveAlive(t: Tables, t': Tables, oldKey: DentryKey, newKey: DentryKey, source: Inode)
    requires Alive(t.inodes, t.presences) && Move(t, t', oldKey, newKey, source)
    ensures Alive(t'.inodes, t'.presences)
  {
    hide HasPresence;
  }

  lemma MoveRooted(t: Tables, t': Tables, oldKey: DentryKey, newKey: DentryKey, source: Inode)
    requires Tree(t) && Move(t, t', oldKey, newKey, source)
    requires source.fileType == Directory ==> !Reaches(t.dentries, source.id, newKey.0)
    ensures Rooted(t'.inodes, t'.dentries)
  {
    if source.fileType != Directory {
      NothingBelow(t, source.id, newKey.0);
    }
    forall i | i in t'.inodes && t'.inodes[i].fileType == Directory ensures Reaches(t'.dentries, ROOT_INODE, i) {
      MoveReach(t.dentries, oldKey, newKey, i);
    }
  }

  lemma MoveTree(t: Tables, t': Tables, oldKey: DentryKey, newKey: DentryKey, source: Inode)
    requires Tree(t) && Move(t, t', oldKey, newKey, source)
    requires source.fileType == Directory ==> !Reaches(t.dentries, source.id, newKey.0)
    ensures Tree(t')
  {
    MoveCounted(t, t', oldKey, newKey, source);
    MoveGrounded(t, t', oldKey, newKey, source);
    MoveAlive(t, t', oldKey, newKey, source);
    MoveRooted(t, t', oldKey, newKey, source);
  }
}
