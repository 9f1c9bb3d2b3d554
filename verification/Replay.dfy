/**
 Applying the log is deterministic up to time stamps: operations read the
 applying node's clock, but no outcome depends on what it says.
 */
module Replay {
  import opened Types
  import opened MetaTables
  import opened Ledger

  /** The same record but for its times. */
  predicate SameInode(a: Inode, b: Inode) {
    b == a.(times := b.times)
  }

  ghost predicate Same(t: Tables, u: Tables) {
    && u == t.(inodes := u.inodes) && u.inodes.Keys == t.inodes.Keys
    && forall i | i in t.inodes :: SameInode(t.inodes[i], u.inodes[i])
  }

  predicate SameResult(a: Result<Inode>, b: Result<Inode>) {
    if a.Ok? && b.Ok? then SameInode(a.value, b.value) else a == b
  }

  predicate SameResponse(a: Response, b: Response) {
    if a.InodeResponse? && b.InodeResponse? then SameInode(a.inode, b.inode) else a == b
  }

  ghost predicate SameStep(a: (Tables, Response), b: (Tables, Response)) {
    Same(a.0, b.0) && SameResponse(a.1, b.1)
  }

  ghost predicate SameOutcome(a: Outcome<Inode>, b: Outcome<Inode>) {
    Same(a.tables, b.tables) && SameResult(a.result, b.result)
  }

  ghost predicate SameUnit(a: Outcome<()>, b: Outcome<()>) {
    Same(a.tables, b.tables) && a.result == b.result
  }

  /** What `Same` says without looking at every record. */
  lemma SameFields(t: Tables, u: Tables)
    requires Same(t, u)
    ensures u == t.(inodes := u.inodes) && u.inodes.Keys == t.inodes.Keys
  {
  }

  lemma SameAt(t: Tables, u: Tables, i: InodeId)
    requires Same(t, u) && i in t.inodes
    ensures i in u.inodes && SameInode(t.inodes[i], u.inodes[i])
  {
  }

  /** Storing the same record on both sides. */
  lemma SamePut(t: Tables, u: Tables, t': Tables, u': Tables, i: InodeId, a: Inode, b: Inode)
    requires Same(t, u) && SameInode(a, b)
    requires t'.inodes == t.inodes[i := a] && u'.inodes == u.inodes[i := b] && u' == t'.(inodes := u'.inodes)
    ensures Same(t', u')
  {
  }

  // ------------------------------------------------------------ name space

  lemma BumpSame(t: Tables, u: Tables, parent: InodeId, expected: Option<nat>, n: int, m: int)
    requires Same(t, u)
    ensures var a, b := BumpParent(t, parent, expected, n), BumpParent(u, parent, expected, m);
            (a.Ok? <==> b.Ok?) && (a.Ok? ==> Same(a.value, b.value)) && (a.Err? ==> a == b)
  {
  }

  lemma CreateSame(t: Tables, u: Tables, expected: Option<nat>, parent: InodeId, name: string, fileType: FileType,
                   mode: nat, uid: nat, gid: nat, target: Option<string>, n: int, m: int)
    requires Same(t, u)
    ensures SameOutcome(CreateNode(t, expected, parent, name, fileType, mode, uid, gid, target, n),
                        CreateNode(u, expected, parent, name, fileType, mode, uid, gid, target, m))
  {
    hide Same;
    hide BumpParent;
    hide BadName;
    SameFields(t, u);
    BumpSame(t, u, parent, expected, n, m);
    var a := CreateNode(t, expected, parent, name, fileType, mode, uid, gid, target, n);
    var b := CreateNode(u, expected, parent, name, fileType, mode, uid, gid, target, m);
    if a.result.Ok? {
      var t1, u1 := BumpParent(t, parent, expected, n).value, BumpParent(u, parent, expected, m).value;
      SameFields(t1, u1);
      SamePut(t1, u1, a.tables, b.tables, t1.nextInode, a.result.value, b.result.value);
    }
  }

  lemma LinkSame(t: Tables, u: Tables, expected: Option<nat>, id: InodeId, parent: InodeId, name: string, n: int,
                 m: int)
    requires Same(t, u)
    ensures SameOutcome(LinkNode(t, expected, id, parent, name, n), LinkNode(u, expected, id, parent, name, m))
  {
    hide Same;
    hide BumpParent;
    hide BadDentryName;
    SameFields(t, u);
    BumpSame(t, u, parent, expected, n, m);
    if id in t.inodes { SameAt(t, u, id); }
    var a, b := LinkNode(t, expected, id, parent, name, n), LinkNode(u, expected, id, parent, name, m);
    if a.result.Ok? {
      var t1, u1 := BumpParent(t, parent, expected, n).value, BumpParent(u, parent, expected, m).value;
      SameFields(t1, u1);
      SamePut(t1, u1, a.tables, b.tables, t.inodes[id].id, a.result.value, b.result.value);
    }
  }

  lemma DeleteSame(t: Tables, u: Tables, dead: set<InodeId>)
    requires Same(t, u)
    ensures Same(DeleteInodes(t, dead), DeleteInodes(u, dead))
  {
  }

  lemma RemoveLinkSame(t: Tables, u: Tables, a: Inode, b: Inode, n: int, m: int)
    requires Same(t, u) && SameInode(a, b)
    ensures SameUnit(RemoveLink(t, a, n), RemoveLink(u, b, m))
  {
    hide Same;
    hide DeleteInodes;
    hide HasPresence;
    SameFields(t, u);
    DeleteSame(t, u, {a.id});
    if a.linkCount > 0 {
      var a' := a.(linkCount := a.linkCount - 1, generation := a.generation + 1, times := a.times.(ctime := n));
      var b' := b.(linkCount := b.linkCount - 1, generation := b.generation + 1, times := b.times.(ctime := m));
      SamePut(t, u, t.(inodes := t.inodes[a.id := a']), u.(inodes := u.inodes[a.id := b']), a.id, a', b');
    }
  }

  lemma NamesSame(t: Tables, u: Tables, d: map<DentryKey, InodeId>)
    requires Same(t, u)
    ensures Same(t.(dentries := d), u.(dentries := d))
  {
  }

  lemma UnlinkSame(t: Tables, u: Tables, expected: Option<nat>, parent: InodeId, name: string, n: int, m: int)
    requires Same(t, u)
    ensures SameUnit(UnlinkNode(t, expected, parent, name, n), UnlinkNode(u, expected, parent, name, m))
  {
    hide BumpParent;
    hide RemoveLink;
    BumpSame(t, u, parent, expected, n, m);
    var key := (parent, name);
    var a, b := BumpParent(t, parent, expected, n), BumpParent(u, parent, expected, m);
    if key in t.dentries && t.dentries[key] in t.inodes && a.Ok? {
      NamesSame(a.value, b.value, a.value.dentries - {key});
      RemoveLinkSame(a.value.(dentries := a.value.dentries - {key}), b.value.(dentries := b.value.dentries - {key}),
                     t.inodes[t.dentries[key]], u.inodes[u.dentries[key]], n, m);
    }
  }

  lemma RmdirSame(t: Tables, u: Tables, expected: Option<nat>, parent: InodeId, name: string, n: int, m: int)
    requires Same(t, u)
    ensures SameUnit(RmdirNode(t, expected, parent, name, n), RmdirNode(u, expected, parent, name, m))
  {
    hide Same;
    hide HasChildren;
    hide BumpParent;
    hide DeleteInodes;
    SameFields(t, u);
    ChildrenSame(t, u);
    var key := (parent, name);
    if key in t.dentries && t.dentries[key] in t.inodes { SameAt(t, u, t.dentries[key]); }
    BumpSame(t, u, parent, expected, n, m);
    var a, b := BumpParent(t, parent, expected, n), BumpParent(u, parent, expected, m);
    if key in t.dentries && a.Ok? {
      SameFields(a.value, b.value);
      NamesSame(a.value, b.value, a.value.dentries - {key});
      DeleteSame(a.value.(dentries := a.value.dentries - {key}), b.value.(dentries := b.value.dentries - {key}),
                 {t.dentries[key]});
    }
  }

  lemma ClearSame(t: Tables, u: Tables, key: DentryKey, n: int, m: int)
    requires Same(t, u)
    ensures SameUnit(ClearDestination(t, key, n), ClearDestination(u, key, m))
  {
    hide DeleteInodes;
    hide RemoveLink;
    if key in t.dentries {
      var d := t.dentries - {key};
      NamesSame(t, u, d);
      DeleteSame(t.(dentries := d), u.(dentries := d), {t.dentries[key]});
      if t.dentries[key] in t.inodes {
        RemoveLinkSame(t.(dentries := d), u.(dentries := d), t.inodes[t.dentries[key]], u.inodes[t.dentries[key]],
                       n, m);
      }
    }
  }

  lemma MoveSame(t: Tables, u: Tables, a: Inode, b: Inode, oldKey: DentryKey, expOld: Option<nat>,
                 newKey: DentryKey, expNew: Option<nat>, n: int, m: int)
    requires Same(t, u) && SameInode(a, b)
    ensures SameOutcome(RenameMove(t, a, oldKey, expOld, newKey, expNew, n),
                        RenameMove(u, b, oldKey, expOld, newKey, expNew, m))
  {
    hide Same;
    hide BumpParent;
    hide ClearDestination;
    BumpSame(t, u, oldKey.0, expOld, n, m);
    var t1, u1 := BumpParent(t, oldKey.0, expOld, n), BumpParent(u, oldKey.0, expOld, m);
    if t1.Ok? {
      BumpSame(t1.value, u1.value, newKey.0, expNew, n, m);
      var t2 := if newKey.0 == oldKey.0 then t1 else BumpParent(t1.value, newKey.0, expNew, n);
      var u2 := if newKey.0 == oldKey.0 then u1 else BumpParent(u1.value, newKey.0, expNew, m);
      if t2.Ok? {
        ClearSame(t2.value, u2.value, newKey, n, m);
        var t3, u3 := ClearDestination(t2.value, newKey, n).tables, ClearDestination(u2.value, newKey, m).tables;
        SameFields(t3, u3);
        var a' := a.(generation := a.generation + 1, times := a.times.(ctime := n));
        var b' := b.(generation := b.generation + 1, times := b.times.(ctime := m));
        var d := (t3.dentries - {oldKey})[newKey := a.id];
        SamePut(t3, u3, t3.(dentries := d, inodes := t3.inodes[a.id := a']),
                u3.(dentries := d, inodes := u3.inodes[a.id := b']),
                a.id, a', b');
      }
    }
  }

  lemma RenameSame(t: Tables, u: Tables, oldParent: InodeId, oldName: string, expOld: Option<nat>,
                   newParent: InodeId, newName: string, expNew: Option<nat>, noReplace: bool, n: int, m: int)
    requires Same(t, u)
    ensures SameOutcome(RenameNode(t, oldParent, oldName, expOld, newParent, newName, expNew, noReplace, n),
                        RenameNode(u, oldParent, oldName, expOld, newParent, newName, expNew, noReplace, m))
  {
    hide Same;
    hide RenameMove;
    hide RenameCheck;
    hide BadDentryName;
    SameFields(t, u);
    if oldParent in t.inodes { SameAt(t, u, oldParent); }
    if newParent in t.inodes { SameAt(t, u, newParent); }
    var oldKey, newKey := (oldParent, oldName), (newParent, newName);
    if oldKey in t.dentries && t.dentries[oldKey] in t.inodes {
      SameAt(t, u, t.dentries[oldKey]);
      var a, b := t.inodes[t.dentries[oldKey]], u.inodes[u.dentries[oldKey]];
      MoveSame(t, u, a, b, oldKey, expOld, newKey, expNew, n, m);
      CheckSame(t, u, a, b, if newKey in t.dentries then Some(t.dentries[newKey]) else None, newParent, noReplace);
    }
  }

  lemma CheckSame(t: Tables, u: Tables, a: Inode, b: Inode, destination: Option<InodeId>, newParent: InodeId,
                  noReplace: bool)
    requires Same(t, u) && SameInode(a, b)
    ensures RenameCheck(t, a, destination, newParent, noReplace) == RenameCheck(u, b, destination, newParent, noReplace)
  {
    hide Reaches;
    hide HasChildren;
    assert forall d :: HasChildren(t, d) == HasChildren(u, d) by { ChildrenSame(t, u); }
  }

  lemma ChildrenSame(t: Tables, u: Tables)
    requires Same(t, u)
    ensures forall d :: HasChildren(t, d) == HasChildren(u, d)
  {
  }

  lemma ImportSame(t: Tables, u: Tables, expected: Option<nat>, parent: InodeId, name: string, template: Inode,
                   manifest: Option<Manifest>, n: int, m: int)
    requires Same(t, u)
    ensures SameOutcome(ImportNode(t, expected, parent, name, template, manifest, n),
                        ImportNode(u, expected, parent, name, template, manifest, m))
  {
    hide Same;
    hide BumpParent;
    hide BadName;
    hide Ordered;
    SameFields(t, u);
    BumpSame(t, u, parent, expected, n, m);
    var x, y := BumpParent(t, parent, expected, n), BumpParent(u, parent, expected, m);
    if x.Ok? {
      SameFields(x.value, y.value);
      var a := ImportNode(t, expected, parent, name, template, manifest, n);
      var b := ImportNode(u, expected, parent, name, template, manifest, m);
      if a.result.Ok? {
        SamePut(x.value, y.value, a.tables, b.tables, x.value.nextInode, a.result.value, b.result.value);
      } else {
        SameRest(x.value, y.value, x.value.(nextInode := x.value.nextInode + 1),
                 y.value.(nextInode := y.value.nextInode + 1));
      }
    }
  }

  // ------------------------------------------------- attributes and data

  lemma SetXattrSame(t: Tables, u: Tables, expected: nat, id: InodeId, name: string, value: seq<byte>,
                     mode: XattrMode, n: int, m: int)
    requires Same(t, u)
    ensures SameOutcome(SetXattrNode(t, expected, id, name, value, mode, n),
                        SetXattrNode(u, expected, id, name, value, mode, m))
  {
    hide Same;
    hide TotalBytes;
    hide ValidAcl;
    hide ValidXattrName;
    SameFields(t, u);
    if id in t.inodes {
      SameAt(t, u, id);
      assert XattrKeys(t, id) == XattrKeys(u, id);
      hide XattrKeys;
      var a, b := SetXattrNode(t, expected, id, name, value, mode, n),
          SetXattrNode(u, expected, id, name, value, mode, m);
      if a.result.Ok? { SamePut(t, u, a.tables, b.tables, t.inodes[id].id, a.result.value, b.result.value); }
    }
  }

  lemma RemoveXattrSame(t: Tables, u: Tables, expected: nat, id: InodeId, name: string, n: int, m: int)
    requires Same(t, u)
    ensures SameOutcome(RemoveXattrNode(t, expected, id, name, n), RemoveXattrNode(u, expected, id, name, m))
  {
    hide Same;
    hide ValidXattrName;
    SameFields(t, u);
    if id in t.inodes {
      SameAt(t, u, id);
      var a, b := RemoveXattrNode(t, expected, id, name, n), RemoveXattrNode(u, expected, id, name, m);
      if a.result.Ok? { SamePut(t, u, a.tables, b.tables, t.inodes[id].id, a.result.value, b.result.value); }
    }
  }

  lemma CasSame(t: Tables, u: Tables, expected: nat, inode: Inode)
    requires Same(t, u)
    ensures SameOutcome(PutInodeCasNode(t, expected, inode), PutInodeCasNode(u, expected, inode))
  {
    hide Same;
    SameFields(t, u);
    if inode.id in t.inodes {
      SameAt(t, u, inode.id);
      var a, b := PutInodeCasNode(t, expected, inode), PutInodeCasNode(u, expected, inode);
      if a.result.Ok? { SamePut(t, u, a.tables, b.tables, inode.id, inode, inode); }
    }
  }

  lemma CommitSame(t: Tables, u: Tables, expected: nat, inode: Inode, m: Manifest)
    requires Same(t, u)
    ensures SameOutcome(CommitManifestNode(t, expected, inode, m), CommitManifestNode(u, expected, inode, m))
  {
    hide Same;
    SameFields(t, u);
    if inode.id in t.inodes {
      SameAt(t, u, inode.id);
      var a, b := CommitManifestNode(t, expected, inode, m), CommitManifestNode(u, expected, inode, m);
      if a.result.Ok? { SamePut(t, u, a.tables, b.tables, inode.id, a.result.value, b.result.value); }
    }
  }

  /** Changes that leave the records alone. */
  lemma SameRest(t: Tables, u: Tables, t': Tables, u': Tables)
    requires Same(t, u) && t'.inodes == t.inodes && u'.inodes == u.inodes && u' == t'.(inodes := u'.inodes)
    ensures Same(t', u')
  {
  }

  lemma CommitReservedSame(t: Tables, u: Tables, ticket: Ticket, expected: nat, inode: Inode, m: Manifest)
    requires Same(t, u)
    ensures SameOutcome(CommitReservedNode(t, ticket, expected, inode, m),
                        CommitReservedNode(u, ticket, expected, inode, m))
  {
    hide Same;
    hide CommitManifestNode;
    hide LocalChunks;
    SameFields(t, u);
    CommitSame(t, u, expected, inode, m);
    var a, b := CommitManifestNode(t, expected, inode, m), CommitManifestNode(u, expected, inode, m);
    SameFields(a.tables, b.tables);
    SameRest(a.tables, b.tables, a.tables.(reservations := a.tables.reservations - {ticket}),
             b.tables.(reservations := b.tables.reservations - {ticket}));
  }

  lemma BeginFlushSame(t: Tables, u: Tables, expected: nat, id: InodeId, intent: FlushIntent)
    requires Same(t, u)
    ensures SameOutcome(BeginFlushNode(t, expected, id, intent), BeginFlushNode(u, expected, id, intent))
  {
    hide Same;
    SameFields(t, u);
    if id in t.inodes {
      SameAt(t, u, id);
      var a, b := BeginFlushNode(t, expected, id, intent), BeginFlushNode(u, expected, id, intent);
      if a.result.Ok? { SamePut(t, u, a.tables, b.tables, t.inodes[id].id, a.result.value, b.result.value); }
    }
  }

  lemma CommitFlushSame(t: Tables, u: Tables, expected: nat, id: InodeId, flushId: FlushId, published: UfsObject)
    requires Same(t, u)
    ensures SameOutcome(CommitFlushNode(t, expected, id, flushId, published),
                        CommitFlushNode(u, expected, id, flushId, published))
  {
    hide Same;
    hide CommitFlushNode;
    hide FlushStores;
    SameFields(t, u);
    FlushedTables(t, expected, id, flushId, published);
    FlushedTables(u, expected, id, flushId, published);
    if id in t.inodes {
      SameAt(t, u, id);
      FlushedRecord(t, u, expected, id, flushId, published);
      FlushedRest(t, expected, id, flushId, published);
      FlushedRest(u, expected, id, flushId, published);
      SameStores(t, u, t.inodes[id], u.inodes[id], published);
      var a, b := CommitFlushNode(t, expected, id, flushId, published),
          CommitFlushNode(u, expected, id, flushId, published);
      if a.result.Ok? { SamePut(t, u, a.tables, b.tables, t.inodes[id].id, a.result.value, b.result.value); }
    }
  }

  /** Resolving an intent rewrites one record or changes nothing. */
  lemma FlushedTables(t: Tables, expected: nat, id: InodeId, flushId: FlushId, published: UfsObject)
    ensures var a := CommitFlushNode(t, expected, id, flushId, published);
            if a.result.Ok? then id in t.inodes && a.tables.inodes == t.inodes[t.inodes[id].id := a.result.value]
            else a.tables == t && (id !in t.inodes ==> a.result == Err(NotFound))
  {
    hide DeriveLabel;
    hide PublishedVersion;
    hide CleanManifest;
  }

  lemma FlushedRecord(t: Tables, u: Tables, expected: nat, id: InodeId, flushId: FlushId, published: UfsObject)
    requires id in t.inodes && id in u.inodes && SameInode(t.inodes[id], u.inodes[id])
             && t.nextManifest == u.nextManifest
    ensures SameResult(CommitFlushNode(t, expected, id, flushId, published).result,
                       CommitFlushNode(u, expected, id, flushId, published).result)
  {
    hide DeriveLabel;
    hide PublishedVersion;
    hide CleanManifest;
  }

  /** The tables a commit leaves behind apart from the record. */
  function FlushStores(t: Tables, inode: Inode, published: UfsObject): Tables {
    if inode.flushIntent.Some? && inode.headGen == inode.flushIntent.value.snapshotGen && inode.size != 0
    then StoreManifest(t, CleanManifest(inode, inode.flushIntent.value, published)) else t
  }

  lemma FlushedRest(t: Tables, expected: nat, id: InodeId, flushId: FlushId, published: UfsObject)
    requires id in t.inodes
    ensures var a := CommitFlushNode(t, expected, id, flushId, published);
            a.result.Ok? ==> a.tables == FlushStores(t, t.inodes[id], published).(inodes := a.tables.inodes)
  {
    hide DeriveLabel;
    hide PublishedVersion;
    hide CleanManifest;
  }

  lemma SameStores(t: Tables, u: Tables, a: Inode, b: Inode, published: UfsObject)
    requires SameInode(a, b) && u == t.(inodes := u.inodes)
    ensures FlushStores(u, b, published) == FlushStores(t, a, published).(inodes := u.inodes)
  {
    hide CleanManifest;
    SameClean(a, b, published);
  }

  lemma SameClean(a: Inode, b: Inode, published: UfsObject)
    requires SameInode(a, b)
    ensures a.flushIntent.Some? ==>
              CleanManifest(a, a.flushIntent.value, published) == CleanManifest(b, b.flushIntent.value, published)
  {
  }

  lemma FailFlushSame(t: Tables, u: Tables, expected: nat, id: InodeId, flushId: FlushId, message: string)
    requires Same(t, u)
    ensures SameOutcome(FailFlushNode(t, expected, id, flushId, message),
                        FailFlushNode(u, expected, id, flushId, message))
  {
    hide Same;
    SameFields(t, u);
    if id in t.inodes {
      SameAt(t, u, id);
      var a, b := FailFlushNode(t, expected, id, flushId, message), FailFlushNode(u, expected, id, flushId, message);
      if a.result.Ok? { SamePut(t, u, a.tables, b.tables, t.inodes[id].id, a.result.value, b.result.value); }
    }
  }

  lemma OpenSame(t: Tables, u: Tables, session: string, id: InodeId)
    requires Same(t, u)
    ensures SameUnit(OpenNode(t, session, id), OpenNode(u, session, id))
  {
    hide BadSession;
  }

  lemma ReapSame(t: Tables, u: Tables, ids: set<InodeId>)
    requires Same(t, u)
    ensures Same(ReapUnopened(t, ids), ReapUnopened(u, ids))
  {
    hide HasPresence;
    hide DeleteInodes;
    var dead := set i | i in ids && i in t.inodes && t.inodes[i].linkCount == 0 && !HasPresence(t.presences, i);
    assert dead == set i | i in ids && i in u.inodes && u.inodes[i].linkCount == 0 && !HasPresence(u.presences, i);
    DeleteSame(t, u, dead);
  }

  lemma CloseSame(t: Tables, u: Tables, session: string, id: InodeId)
    requires Same(t, u)
    ensures SameUnit(CloseNode(t, session, id), CloseNode(u, session, id))
  {
    hide Same;
    hide BadSession;
    hide ReapUnopened;
    SameFields(t, u);
    var p := t.presences - {(id, session)};
    SameRest(t, u, t.(presences := p), u.(presences := p));
    ReapSame(t.(presences := p), u.(presences := p), {id});
  }

  lemma RecoverSame(t: Tables, u: Tables, session: string)
    requires Same(t, u)
    ensures SameUnit(RecoverNode(t, session), RecoverNode(u, session))
  {
    hide Same;
    hide BadSession;
    hide ReapUnopened;
    SameFields(t, u);
    var stale := set p | p in t.presences && p.1 == session;
    var p := t.presences - stale;
    SameRest(t, u, t.(presences := p), u.(presences := p));
    ReapSame(t.(presences := p), u.(presences := p), set p | p in stale :: p.0);
  }

  // ------------------------------------------------------------- collector

  lemma ReserveSame(t: Tables, u: Tables, ticket: Ticket, id: InodeId, expected: nat, chunks: set<ChunkId>,
                    expiresAt: nat)
    requires Same(t, u)
    ensures SameUnit(ReserveNode(t, ticket, id, expected, chunks, expiresAt),
                     ReserveNode(u, ticket, id, expected, chunks, expiresAt))
  {
    hide Same;
    SameFields(t, u);
    if id in t.inodes { SameAt(t, u, id); }
    var a, b := ReserveNode(t, ticket, id, expected, chunks, expiresAt),
        ReserveNode(u, ticket, id, expected, chunks, expiresAt);
    SameRest(t, u, a.tables, b.tables);
  }

  lemma TombstoneSame(t: Tables, u: Tables, candidates: set<ChunkId>)
    requires Same(t, u)
    ensures var a, b := TombstoneNode(t, candidates), TombstoneNode(u, candidates);
            Same(a.0, b.0) && a.1 == b.1 && a.2 == b.2
  {
    HeldSame(t, u);
    hide LocalChunks;
    hide HeldManifests;
    assert HeldChunks(t) == HeldChunks(u);
    assert ReservedChunks(t) == ReservedChunks(u);
    hide HeldChunks;
    hide ReservedChunks;
    assert (map k | k in t.manifests && k in HeldManifests(t) :: t.manifests[k])
        == (map k | k in u.manifests && k in HeldManifests(u) :: u.manifests[k]);
    SameFields(t, u);
    hide Same;
    SameRest(t, u, TombstoneNode(t, candidates).0, TombstoneNode(u, candidates).0);
  }

  lemma HeldSame(t: Tables, u: Tables)
    requires Same(t, u)
    ensures HeldManifests(t) == HeldManifests(u)
  {
    forall k | k in HeldManifests(t) ensures k in HeldManifests(u) {
      var i :| i in t.inodes && t.inodes[i].manifestId == Some(k);
      assert u.inodes[i].manifestId == Some(k);
    }
    forall k | k in HeldManifests(u) ensures k in HeldManifests(t) {
      var i :| i in u.inodes && u.inodes[i].manifestId == Some(k);
      assert t.inodes[i].manifestId == Some(k);
    }
  }

  lemma {:induction false} FinalizeSame(t: Tables, u: Tables, chunks: seq<ChunkId>)
    requires Same(t, u)
    ensures SameUnit(FinalizeNode(t, chunks), FinalizeNode(u, chunks))
    decreases |chunks|
  {
    if chunks != [] {
      var d := t.tombstones - {chunks[0]};
      SameRest(t, u, t.(tombstones := d), u.(tombstones := d));
      FinalizeSame(t.(tombstones := d), u.(tombstones := d), chunks[1..]);
    }
  }

  lemma {:induction false} InitializeSame(t: Tables, u: Tables, chunks: seq<ChunkId>, targets: set<TargetId>)
    requires Same(t, u)
    ensures SameUnit(InitializeNode(t, chunks, targets), InitializeNode(u, chunks, targets))
    decreases |chunks|
  {
    if chunks != [] && chunks[0] in t.tombstones {
      var d := if t.tombstones[chunks[0]].initialized then t.tombstones
               else t.tombstones[chunks[0] := Tombstone(true, targets)];
      SameRest(t, u, t.(tombstones := d), u.(tombstones := d));
      InitializeSame(t.(tombstones := d), u.(tombstones := d), chunks[1..], targets);
    }
  }

  lemma {:induction false} AcknowledgeSame(t: Tables, u: Tables, deleted: seq<(ChunkId, TargetId)>)
    requires Same(t, u)
    ensures SameUnit(AcknowledgeNode(t, deleted), AcknowledgeNode(u, deleted))
    decreases |deleted|
  {
    if deleted != [] && deleted[0].0 in t.tombstones {
      var s := t.tombstones[deleted[0].0];
      var d := t.tombstones[deleted[0].0 := s.(pending := s.pending - {deleted[0].1})];
      SameRest(t, u, t.(tombstones := d), u.(tombstones := d));
      AcknowledgeSame(t.(tombstones := d), u.(tombstones := d), deleted[1..]);
    }
  }

  /** `k` is the expired ticket that goes first. */
  ghost predicate Oldest(t: Tables, cutoff: nat, k: Ticket) {
    k in ExpiredTickets(t, cutoff) && forall j | j in ExpiredTickets(t, cutoff) :: ExpiresBefore(t, k, j)
  }

  lemma {:induction false} OldestExists(t: Tables, among: set<Ticket>) returns (k: Ticket)
    requires among != {} && among <= t.reservations.Keys
    ensures k in among && forall j | j in among :: ExpiresBefore(t, k, j)
    decreases |among|
  {
    var first :| first in among;
    k := first;
    if among != {first} {
      var j := OldestExists(t, among - {first});
      k := if ExpiresBefore(t, j, first) then j else first;
      forall x | x in among ensures ExpiresBefore(t, k, x) {
        assert x != first ==> ExpiresBefore(t, j, x);
      }
    }
  }

  /** The expiry order leaves no choice. */
  lemma ExpireStep(t: Tables, cutoff: nat, max: nat, k: Ticket)
    requires max > 0 && Oldest(t, cutoff, k)
    ensures ExpireNode(t, cutoff, max) == ExpireNode(t.(reservations := t.reservations - {k}), cutoff, max - 1)
  {
    var c :| Oldest(t, cutoff, c)
             && ExpireNode(t, cutoff, max) == ExpireNode(t.(reservations := t.reservations - {c}), cutoff, max - 1);
    assert Oldest(t, cutoff, c);
    assert k in ExpiredTickets(t, cutoff);
    assert c in ExpiredTickets(t, cutoff);
    assert ExpiresBefore(t, c, k) && ExpiresBefore(t, k, c);
  }

  lemma {:induction false} ExpireSame(t: Tables, u: Tables, cutoff: nat, max: nat)
    requires Same(t, u)
    ensures Same(ExpireNode(t, cutoff, max), ExpireNode(u, cutoff, max))
    decreases max
  {
    assert ExpiredTickets(t, cutoff) == ExpiredTickets(u, cutoff);
    if max > 0 && ExpiredTickets(t, cutoff) != {} {
      var k := OldestExists(t, ExpiredTickets(t, cutoff));
      ExpireStep(t, cutoff, max, k);
      ExpireStep(u, cutoff, max, k);
      var d := t.reservations - {k};
      SameRest(t, u, t.(reservations := d), u.(reservations := d));
      ExpireSame(t.(reservations := d), u.(reservations := d), cutoff, max - 1);
    }
  }

  // --------------------------------------------------------- every request

  lemma NamespaceSame(t: Tables, u: Tables, req: Request, n: int, m: int)
    requires Same(t, u)
    requires req.Create? || req.MakeSymlink? || req.Link? || req.Unlink? || req.Rmdir? || req.Rename?
             || req.ImportExternal?
    ensures SameStep(Execute(t, req, n), Execute(u, req, m))
  {
    hide Execute;
    hide Same;
    hide CreateNode;
    hide LinkNode;
    hide UnlinkNode;
    hide RmdirNode;
    hide RenameNode;
    hide ImportNode;
    Dispatch(t, req, n);
    Dispatch(u, req, m);
    match req
    case Create(parent, name, ft, mode, uid, gid, exp) =>
      CreateSame(t, u, exp, parent, name, ft, mode, uid, gid, None, n, m);
    case MakeSymlink(parent, name, target, uid, gid, exp) =>
      CreateSame(t, u, exp, parent, name, Symlink, 0x1ff, uid, gid, Some(target), n, m);
    case Link(id, parent, name, exp) => LinkSame(t, u, exp, id, parent, name, n, m);
    case Unlink(parent, name, exp) => UnlinkSame(t, u, exp, parent, name, n, m);
    case Rmdir(parent, name, exp) => RmdirSame(t, u, exp, parent, name, n, m);
    case Rename(op, on, eo, np, nn, en, nr) => RenameSame(t, u, op, on, eo, np, nn, en, nr, n, m);
    case ImportExternal(parent, name, template, mf, exp) => ImportSame(t, u, exp, parent, name, template, mf, n, m);
  }

  lemma RecordSame(t: Tables, u: Tables, req: Request, n: int, m: int)
    requires Same(t, u) && (req.SetXattr? || req.RemoveXattr? || req.PutInodeCas? || req.PutManifest?)
    ensures SameStep(Execute(t, req, n), Execute(u, req, m))
  {
    hide Execute;
    hide Same;
    hide SetXattrNode;
    hide RemoveXattrNode;
    hide PutInodeCasNode;
    Dispatch(t, req, n);
    Dispatch(u, req, m);
    SameFields(t, u);
    match req
    case SetXattr(exp, id, name, value, mode) => SetXattrSame(t, u, exp, id, name, value, mode, n, m);
    case RemoveXattr(exp, id, name) => RemoveXattrSame(t, u, exp, id, name, n, m);
    case PutInodeCas(exp, inode) => CasSame(t, u, exp, inode);
    case PutManifest(mf) => SameRest(t, u, StoreManifest(t, mf), StoreManifest(u, mf));
  }

  lemma DataSame(t: Tables, u: Tables, req: Request, n: int, m: int)
    requires Same(t, u)
    requires req.CommitInodeManifest? || req.CommitReserved? || req.BeginFlush? || req.CommitFlush? || req.FailFlush?
    ensures SameStep(Execute(t, req, n), Execute(u, req, m))
  {
    hide Execute;
    hide Same;
    hide CommitManifestNode;
    hide CommitReservedNode;
    hide BeginFlushNode;
    hide CommitFlushNode;
    hide FailFlushNode;
    hide LocalChunks;
    Dispatch(t, req, n);
    Dispatch(u, req, m);
    match req
    case CommitInodeManifest(exp, inode, mf) => CommitSame(t, u, exp, inode, mf);
    case CommitReserved(ticket, exp, inode, mf) => CommitReservedSame(t, u, ticket, exp, inode, mf);
    case BeginFlush(exp, id, intent) => BeginFlushSame(t, u, exp, id, intent);
    case CommitFlush(exp, id, flushId, published) => CommitFlushSame(t, u, exp, id, flushId, published);
    case FailFlush(exp, id, flushId, message) => FailFlushSame(t, u, exp, id, flushId, message);
  }

  lemma CollectorSame(t: Tables, u: Tables, req: Request, n: int, m: int)
    requires Same(t, u)
    requires req.ReserveChunks? || req.AbortReservation? || req.ExpireReservations? || req.TombstoneBatch?
             || req.FinalizeTombstones? || req.InitializeTargets? || req.AcknowledgeDeletes?
             || req.OpenInode? || req.CloseInode? || req.RecoverSession?
    ensures SameStep(Execute(t, req, n), Execute(u, req, m))
  {
    hide Execute;
    hide Same;
    hide ReserveNode;
    hide ExpireNode;
    hide TombstoneNode;
    hide FinalizeNode;
    hide InitializeNode;
    hide AcknowledgeNode;
    hide OpenNode;
    hide CloseNode;
    hide RecoverNode;
    Dispatch(t, req, n);
    Dispatch(u, req, m);
    SameFields(t, u);
    match req
    case ReserveChunks(ticket, id, exp, chunks, expires) => ReserveSame(t, u, ticket, id, exp, chunks, expires);
    case AbortReservation(ticket) =>
      SameRest(t, u, t.(reservations := t.reservations - {ticket}), u.(reservations := u.reservations - {ticket}));
    case ExpireReservations(cutoff, max) => ExpireSame(t, u, cutoff, max);
    case TombstoneBatch(candidates) => TombstoneSame(t, u, candidates);
    case FinalizeTombstones(chunks) => FinalizeSame(t, u, chunks);
    case InitializeTargets(chunks, targets) => InitializeSame(t, u, chunks, targets);
    case AcknowledgeDeletes(deleted) => AcknowledgeSame(t, u, deleted);
    case OpenInode(session, id) => OpenSame(t, u, session, id);
    case CloseInode(session, id) => CloseSame(t, u, session, id);
    case RecoverSession(session) => RecoverSame(t, u, session);
  }

  /** The clock reaches nothing but time stamps. */
  lemma ExecuteSame(t: Tables, u: Tables, req: Request, n: int, m: int)
    requires Same(t, u)
    ensures SameStep(Execute(t, req, n), Execute(u, req, m))
  {
    hide Same;
    hide Execute;
    if req.Create? || req.MakeSymlink? || req.Link? || req.Unlink? || req.Rmdir? || req.Rename? || req.ImportExternal? {
      NamespaceSame(t, u, req, n, m);
    } else if req.SetXattr? || req.RemoveXattr? || req.PutInodeCas? || req.PutManifest? {
      RecordSame(t, u, req, n, m);
    } else if req.CommitInodeManifest? || req.CommitReserved? || req.BeginFlush? || req.CommitFlush? || req.FailFlush? {
      DataSame(t, u, req, n, m);
    } else {
      CollectorSame(t, u, req, n, m);
    }
  }

  // ------------------------------------------------------- log and ledger

  ghost predicate SameRow(a: Row, b: Row) {
    a.created == b.created && a.expires == b.expires && SameResponse(a.response, b.response)
  }

  ghost predicate SameLedger(a: map<OpId, Row>, b: map<OpId, Row>) {
    a.Keys == b.Keys && forall k | k in a :: SameRow(a[k], b[k])
  }

  ghost predicate SameStore(s: Store, r: Store) {
    Same(s.t, r.t) && SameLedger(s.ledger, r.ledger)
  }

  ghost predicate OldestRow(ledger: map<OpId, Row>, cutoff: nat, k: OpId) {
    k in ExpiredOps(ledger, cutoff) && forall j | j in ExpiredOps(ledger, cutoff) :: RowBefore(ledger, k, j)
  }

  lemma {:induction false} OldestRowExists(ledger: map<OpId, Row>, among: set<OpId>) returns (k: OpId)
    requires among != {} && among <= ledger.Keys
    ensures k in among && forall j | j in among :: RowBefore(ledger, k, j)
    decreases |among|
  {
    var first :| first in among;
    k := first;
    if among != {first} {
      var j := OldestRowExists(ledger, among - {first});
      k := if RowBefore(ledger, j, first) then j else first;
      forall x | x in among ensures RowBefore(ledger, k, x) {
        assert x != first ==> RowBefore(ledger, j, x);
      }
    }
  }

  lemma PruneStep(ledger: map<OpId, Row>, cutoff: nat, max: nat, k: OpId)
    requires max > 0 && OldestRow(ledger, cutoff, k)
    ensures Pruned(ledger, cutoff, max) == Pruned(ledger - {k}, cutoff, max - 1)
  {
    var c :| OldestRow(ledger, cutoff, c) && Pruned(ledger, cutoff, max) == Pruned(ledger - {c}, cutoff, max - 1);
    assert OldestRow(ledger, cutoff, c);
    assert k in ExpiredOps(ledger, cutoff);
    assert c in ExpiredOps(ledger, cutoff);
    assert RowBefore(ledger, c, k) && RowBefore(ledger, k, c);
  }

  lemma {:induction false} PrunedSame(a: map<OpId, Row>, b: map<OpId, Row>, cutoff: nat, max: nat)
    requires SameLedger(a, b)
    ensures SameLedger(Pruned(a, cutoff, max), Pruned(b, cutoff, max))
    decreases max
  {
    assert ExpiredOps(a, cutoff) == ExpiredOps(b, cutoff);
    if max > 0 && ExpiredOps(a, cutoff) != {} {
      var k := OldestRowExists(a, ExpiredOps(a, cutoff));
      PruneStep(a, cutoff, max, k);
      PruneStep(b, cutoff, max, k);
      PrunedSame(a - {k}, b - {k}, cutoff, max - 1);
    }
  }

  lemma SameSize(a: map<OpId, Row>, b: map<OpId, Row>)
    requires SameLedger(a, b)
    ensures |a| == |b|
  {
    assert |a.Keys| == |b.Keys|;
  }

  lemma PrunedBySame(a: map<OpId, Row>, b: map<OpId, Row>, command: Command)
    requires SameLedger(a, b)
    ensures SameLedger(PrunedBy(a, command), PrunedBy(b, command))
  {
    hide Pruned;
    hide SameLedger;
    match command
    case PruneLedger(cutoff, max) => PrunedSame(a, b, cutoff, max);
    case Meta(ExpireReservations(cutoff, max)) => PrunedSame(a, b, cutoff, max);
    case Meta(_) =>
  }

  lemma RunSame(t: Tables, u: Tables, command: Command, n: int, m: int)
    requires Same(t, u)
    ensures SameStep(Run(t, command, n), Run(u, command, m))
  {
    hide Same;
    hide Execute;
    if command.Meta? { ExecuteSame(t, u, command.req, n, m); }
  }

  lemma InsertSame(a: map<OpId, Row>, b: map<OpId, Row>, k: OpId, x: Row, y: Row)
    requires SameLedger(a, b) && SameRow(x, y)
    ensures SameLedger(a[k := x], b[k := y])
  {
  }

  lemma CachedSame(s: Store, r: Store, e: Entry)
    requires SameLedger(s.ledger, r.ledger)
    ensures Cached(s, e) <==> Cached(r, e)
    ensures Cached(s, e) ==> SameResponse(s.ledger[e.op.value].response, r.ledger[e.op.value].response)
  {
  }

  /** One entry on two replicas with two clocks. */
  lemma ApplySame(s: Store, r: Store, e: Entry, n: int, m: int)
    requires SameStore(s, r)
    ensures SameStore(Apply(s, e, n).0, Apply(r, e, m).0) && SameResponse(Apply(s, e, n).1, Apply(r, e, m).1)
  {
    hide Same;
    hide SameLedger;
    hide Pruned;
    hide PrunedBy;
    hide Run;
    hide SameResponse;
    hide Cached;
    CachedSame(s, r, e);
    PrunedSame(s.ledger, r.ledger, e.stamp, PRUNE_BATCH);
    var a := if e.op.Some? then Pruned(s.ledger, e.stamp, PRUNE_BATCH) else s.ledger;
    var b := if e.op.Some? then Pruned(r.ledger, e.stamp, PRUNE_BATCH) else r.ledger;
    SameSize(a, b);
    PrunedBySame(a, b, e.command);
    RunSame(s.t, r.t, e.command, n, m);
    if e.op.Some? {
      InsertSame(PrunedBy(a, e.command), PrunedBy(b, e.command), e.op.value,
                 Row(e.stamp, e.stamp + RETENTION_MS, Run(s.t, e.command, n).1),
                 Row(e.stamp, e.stamp + RETENTION_MS, Run(r.t, e.command, m).1));
    }
    if !Cached(s, e) && e.op.Some? && |a| >= SOFT_CAP { BusySame(); }
  }

  lemma BusySame()
    ensures SameResponse(Failed(Busy), Failed(Busy))
  {
  }

  /** Applying a log from the first to the last entry. */
  ghost function ApplyLog(s: Store, log: seq<Entry>, clock: seq<int>): Store
    requires |log| == |clock|
  {
    if log == [] then s
    else Apply(ApplyLog(s, log[..|log|-1], clock[..|log|-1]), log[|log|-1], clock[|log|-1]).0
  }

  lemma {:induction false} LogDeterministic(s: Store, r: Store, log: seq<Entry>, c: seq<int>, d: seq<int>)
    requires SameStore(s, r) && |log| == |c| == |d|
    ensures SameStore(ApplyLog(s, log, c), ApplyLog(r, log, d))
    decreases |log|
  {
    hide SameStore;
    hide Apply;
    if log != [] {
      var n := |log| - 1;
      LogDeterministic(s, r, log[..n], c[..n], d[..n]);
      ApplySame(ApplyLog(s, log[..n], c[..n]), ApplyLog(r, log[..n], d[..n]), log[n], c[n], d[n]);
    }
  }

  // -------------------------------------------------------------- crashes

  /** A replica: its durable store with the applied marker beside it. */
  datatype Replica = Replica(store: Store, applied: nat)

  /** Applying the next entry moves store and marker in one transaction; a crash loses neither. */
  ghost predicate ReplicaStep(log: seq<Entry>, a: Replica, b: Replica) {
    || b == a
    || (a.applied < |log| && b.applied == a.applied + 1 && exists now: int ::
          b.store == Apply(a.store, log[a.applied], now).0)
  }

  /** However often it crashes, a replica has applied each entry up to its marker exactly once. */
  lemma {:induction false} ReplayAfterCrashes(log: seq<Entry>, rs: seq<Replica>, s: Store, clock: seq<int>)
    requires |rs| > 0 && rs[0] == Replica(s, 0) && |clock| == |log|
    requires forall k | 0 <= k < |rs| - 1 :: ReplicaStep(log, rs[k], rs[k+1])
    ensures var last := rs[|rs|-1];
            last.applied <= |log| && SameStore(last.store, ApplyLog(s, log[..last.applied], clock[..last.applied]))
    decreases |rs|
  {
    if |rs| == 1 {
      SelfSame(s);
    } else {
      var n := |rs| - 1;
      ReplayAfterCrashes(log, rs[..n], s, clock);
      var a, b := rs[n-1], rs[n];
      assert rs[..n][n-1] == a;
      assert ReplicaStep(log, a, b);
      if b != a {
        hide SameStore;
        var k := a.applied;
        assert log[..k+1][..k] == log[..k] && clock[..k+1][..k] == clock[..k];
        var now: int :| b.store == Apply(a.store, log[k], now).0;
        hide Apply;
        ApplySame(a.store, ApplyLog(s, log[..k], clock[..k]), log[k], now, clock[k]);
      }
    }
  }

  lemma SelfSame(s: Store)
    ensures SameStore(s, s)
  {
  }
}
