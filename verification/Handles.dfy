/**
 Open handles of one mount: its counts per inode keep the presence row in place
 exactly while the count is positive.
 */
module Handles {
  import opened Types
  import opened MetaTables
  import opened Namespace
  import opened NamespaceOps
  import opened Admission
  import opened Fencing
  import opened DataOps
  import opened StateMachine
  import opened Runs

  // -------------------------------------------- where presences come from

  lemma RemovingAddsNone(t: Tables, req: Request, now: int)
    requires req.Unlink? || req.Rmdir?
    ensures Execute(t, req, now).0.presences <= t.presences
  {
    hide Execute;
    hide CreateNode;
    hide LinkNode;
    hide RenameNode;
    hide ImportNode;
    hide HasPresence;
    hide HasChildren;
    Dispatch(t, req, now);
    match req
    case Unlink(parent, name, exp) => assert UnlinkNode(t, exp, parent, name, now).tables.presences <= t.presences;
    case Rmdir(parent, name, exp) => assert RmdirNode(t, exp, parent, name, now).tables.presences <= t.presences;
  }

  lemma MoveAddsNone(t: Tables, source: Inode, oldKey: DentryKey, expOld: Option<nat>,
                     newKey: DentryKey, expNew: Option<nat>, now: int)
    ensures RenameMove(t, source, oldKey, expOld, newKey, expNew, now).tables.presences <= t.presences
  {
    var t2 := BumpBoth(t, oldKey.0, expOld, newKey.0, expNew, now);
    if t2.Ok? {
      BumpBothShape(t, oldKey.0, expOld, newKey.0, expNew, now);
      assert ClearDestination(t2.value, newKey, now).tables.presences <= t.presences;
    }
    hide ClearDestination;
  }

  lemma RenameAddsNone(t: Tables, req: Request, now: int)
    requires req.Rename?
    ensures Execute(t, req, now).0.presences <= t.presences
  {
    hide Execute;
    hide CreateNode;
    hide LinkNode;
    hide UnlinkNode;
    hide RmdirNode;
    hide ImportNode;
    hide RenameNode;
    hide RenameMove;
    Dispatch(t, req, now);
    var Rename(op, on, eo, np, nn, en, nr) := req;
    RenameIsMove(t, op, on, eo, np, nn, en, nr, now);
    if (op, on) in t.dentries && t.dentries[(op, on)] in t.inodes {
      MoveAddsNone(t, t.inodes[t.dentries[(op, on)]], (op, on), eo, (np, nn), en, now);
    }
  }

  lemma HandleAddsOnlyOpen(t: Tables, req: Request, now: int, p: Presence)
    requires req.OpenInode? || req.CloseInode? || req.RecoverSession?
    requires p in Execute(t, req, now).0.presences
    ensures p in t.presences || req == OpenInode(p.1, p.0)
  {
    hide Execute;
    Dispatch(t, req, now);
  }

  /** Only opening adds a presence row. */
  lemma PresenceOnlyByOpen(t: Tables, req: Request, now: int, p: Presence)
    requires p in Execute(t, req, now).0.presences && req != OpenInode(p.1, p.0)
    ensures p in t.presences
  {
    hide Execute;
    if req.Create? || req.MakeSymlink? || req.Link? || req.ImportExternal? {
      AddingKeepsPresence(t, req, now);
    } else if req.Unlink? || req.Rmdir? {
      RemovingAddsNone(t, req, now);
    } else if req.Rename? {
      RenameAddsNone(t, req, now);
    } else if req.OpenInode? || req.CloseInode? || req.RecoverSession? {
      HandleAddsOnlyOpen(t, req, now, p);
    } else {
      OtherKeepsPresence(t, req, now);
    }
  }

  // ------------------------------------------------------------ the mount

  class Mount {
    const session: string
    /** Handles this mount has open, per inode; an entry may be zero after a failed open. */
    var counts: map<InodeId, nat>
    /** The server's tables. */
    var t: Tables

    function Count(i: InodeId): nat
      reads this
    {
      if i in counts then counts[i] else 0
    }

    ghost predicate Valid()
      reads this
    {
      && Inv(t) && !BadSession(session)
      && forall i: InodeId :: Count(i) > 0 <==> (i, session) in t.presences
    }

    /** A mount starts by recovering its session, so nothing is left of an earlier life. */
    constructor (session: string, t: Tables)
      requires Inv(t) && !BadSession(session)
      ensures Valid() && counts == map[] && this.session == session && this.t == RecoverNode(t, session).tables
    {
      this.session, this.counts, this.t := session, map[], RecoverNode(t, session).tables;
      new;
      RecoverKeepsTree(t, session);
      Recovered(t, session);
    }

    /** Count a handle; the first one records the presence. */
    method OpenHandle(i: InodeId) returns (r: Result<()>)
      requires Valid()
      modifies this
      ensures Valid()
      ensures r.Ok? <==> i in old(t).inodes && old(t).inodes[i].fileType == Regular
      ensures r.Err? ==> r.error == if i !in old(t).inodes then NotFound else InvalidArg
      ensures t == if r.Ok? then old(t).(presences := old(t).presences + {(i, session)}) else old(t)
      ensures Count(i) == old(Count(i)) + (if r.Ok? then 1 else 0)
      ensures forall j: InodeId | j != i :: Count(j) == old(Count(j))
    {
      hide Inv;
      var outcome: Result<()> := Ok(());
      if i !in counts { counts := counts[i := 0]; }
      if counts[i] == 0 {
        OpenSound(t, session, i);
        var o := OpenNode(t, session, i);
        t, outcome := o.tables, o.result;
      } else {
        OpenIsRegular(t, session, i);
        assert t.presences + {(i, session)} == t.presences;
      }
      if outcome.Ok? { counts := counts[i := counts[i] + 1]; }
      r := outcome;
    }

    /** Drop a handle; the last one closes the presence. */
    method CloseHandle(i: InodeId) returns (r: Result<()>)
      requires Valid()
      modifies this
      ensures Valid() && r.Ok?
      ensures t == if old(Count(i)) > 1 then old(t) else CloseNode(old(t), session, i).tables
      ensures Count(i) == if old(Count(i)) > 0 then old(Count(i)) - 1 else 0
      ensures forall j: InodeId | j != i :: Count(j) == old(Count(j))
    {
      hide Inv;
      if i in counts && counts[i] > 1 {
        counts := counts[i := counts[i] - 1];
        return Ok(());
      }
      CloseSound(t, session, i);
      var o := CloseNode(t, session, i);
      t, r := o.tables, o.result;
      counts := counts - {i};
    }

    /** Whatever else the server does - for this mount or for others - leaves the correspondence alone. */
    method Elsewhere(next: Tables, ghost req: Request, ghost now: int)
      requires Valid() && Admissible(t, req) && next == Execute(t, req, now).0
      requires req != RecoverSession(session)
      requires forall i: InodeId :: req != OpenInode(session, i) && req != CloseInode(session, i)
      modifies this`t
      ensures Valid() && t == next
    {
      ExecuteSound(t, req, now);
      forall i: InodeId ensures (i, session) in next.presences <==> (i, session) in t.presences {
        if (i, session) in t.presences {
          PresenceStays(t, req, now, (i, session));
        } else if (i, session) in next.presences {
          PresenceOnlyByOpen(t, req, now, (i, session));
        }
      }
      t := next;
    }
  }

  /** Requests on handles keep the invariant. */
  lemma HandlesKeepInv(t: Tables, session: string, i: InodeId)
    requires Inv(t)
    ensures Inv(OpenNode(t, session, i).tables) && Inv(CloseNode(t, session, i).tables)
    ensures Inv(RecoverNode(t, session).tables)
  {
    hide Inv;
    hide OpenNode;
    hide CloseNode;
    hide RecoverNode;
    HandleSound(t, OpenInode(session, i), 0);
    HandleSound(t, CloseInode(session, i), 0);
    HandleSound(t, RecoverSession(session), 0);
  }

  lemma Recovered(t: Tables, session: string)
    requires Inv(t) && !BadSession(session)
    ensures Inv(RecoverNode(t, session).tables)
    ensures forall i: InodeId :: (i, session) !in RecoverNode(t, session).tables.presences
  {
    hide Inv;
    hide BadSession;
    HandlesKeepInv(t, session, 0);
  }

  lemma OpenSound(t: Tables, session: string, i: InodeId)
    requires Inv(t) && !BadSession(session)
    ensures var o := OpenNode(t, session, i);
            && Inv(o.tables) && (o.result.Ok? <==> i in t.inodes && t.inodes[i].fileType == Regular)
            && (o.result.Err? ==> o.result.error == if i !in t.inodes then NotFound else InvalidArg)
            && o.tables == if o.result.Ok? then t.(presences := t.presences + {(i, session)}) else t
  {
    hide Inv;
    hide BadSession;
    HandlesKeepInv(t, session, i);
  }

  lemma OpenIsRegular(t: Tables, session: string, i: InodeId)
    requires Inv(t) && (i, session) in t.presences
    ensures i in t.inodes && t.inodes[i].fileType == Regular
  {
    assert Tree(t);
    hide Inv;
    PresenceMeans(t, (i, session));
  }

  lemma CloseSound(t: Tables, session: string, i: InodeId)
    requires Inv(t) && !BadSession(session)
    ensures var o := CloseNode(t, session, i);
            && Inv(o.tables) && o.result.Ok?
            && forall j: InodeId :: (j, session) in o.tables.presences <==> (j, session) in t.presences && j != i
  {
    hide Inv;
    hide BadSession;
    HandlesKeepInv(t, session, i);
    var left := t.presences - {(i, session)};
    forall j: InodeId | (j, session) in t.presences && j != i
      ensures (j, session) in CloseNode(t, session, i).tables.presences {
      assert (j, session) in left;
    }
  }

  /** An open file is stored, and the collector has not marked any of its chunks. */
  lemma OpenFileIsSafe(m: Mount, i: InodeId)
    requires m.Valid() && m.Count(i) > 0
    ensures i in m.t.inodes && m.t.inodes[i].fileType == Regular
    ensures m.t.inodes[i].manifestId.Some? ==>
              && m.t.inodes[i].manifestId.value in m.t.manifests
              && LocalChunks(m.t.manifests[m.t.inodes[i].manifestId.value]) !! m.t.tombstones.Keys
  {
    OpenIsRegular(m.t, m.session, i);
    assert Fenced(m.t);
    hide Inv;
    if m.t.inodes[i].manifestId.Some? { HeldFile(m.t, i); }
  }
}
