/**
 What the attribute requests do: which names, values and modes are accepted, what is
 stored, and that nothing else changes. The ACL check is compared with a list of
 entries written out as bytes.
 */
module AttributeEffects {
  import opened Types
  import opened MetaTables
  import opened NamespaceOps
  import opened NamespaceEffects

  // -------------------------------------------------------------- ACL bytes

  datatype AclEntry = AclEntry(tag: nat, perm: nat, id: nat)

  /** Tag, permissions and id fit their fields. */
  predicate FitsAcl(e: AclEntry) {
    e.tag < 0x1_0000 && e.perm < 0x1_0000 && e.id < 0x1_0000_0000
  }

  /** Two bytes of tag, two of permissions, four of id, each little-endian. */
  function EntryBytes(e: AclEntry): (r: seq<byte>)
    requires FitsAcl(e)
    ensures |r| == 8
  {
    [e.tag % 256, e.tag / 256, e.perm % 256, e.perm / 256,
     e.id % 256, e.id / 256 % 256, e.id / 256 / 256 % 256, e.id / 256 / 256 / 256]
  }

  /** Version 2, then the entries. */
  function AclBytes(es: seq<AclEntry>): (r: seq<byte>)
    requires forall e | e in es :: FitsAcl(e)
    ensures |r| == 4 + 8 * |es|
  {
    if es == [] then [2, 0, 0, 0] else AclBytes(es[..|es|-1]) + EntryBytes(es[|es|-1])
  }

  /** How many entries have the tag. */
  function Tagged(es: seq<AclEntry>, tag: nat): nat {
    |set i | 0 <= i < |es| && es[i].tag == tag|
  }

  /** Owner, group and others exactly once, a mask at most once, and with named users or groups exactly once. */
  predicate WellFormedAcl(es: seq<AclEntry>) {
    && (forall e | e in es :: e.tag in {0x01, 0x02, 0x04, 0x08, 0x10, 0x20} && e.perm < 8)
    && Tagged(es, 0x01) == 1 && Tagged(es, 0x04) == 1 && Tagged(es, 0x20) == 1 && Tagged(es, 0x10) <= 1
    && ((exists e | e in es :: e.tag == 0x02 || e.tag == 0x08) ==> Tagged(es, 0x10) == 1)
  }

  lemma {:induction false} AclByteAt(es: seq<AclEntry>, i: nat, j: nat)
    requires (forall e | e in es :: FitsAcl(e)) && i < |es| && j < 8
    ensures AclBytes(es)[4 + 8 * i + j] == EntryBytes(es[i])[j] && AclBytes(es)[..4] == [2, 0, 0, 0]
    decreases |es|
  {
    var n := |es| - 1;
    var before, last := AclBytes(es[..n]), EntryBytes(es[n]);
    AclHeader(es[..n]);
    if i < n {
      AclByteAt(es[..n], i, j);
      assert AclBytes(es)[4 + 8 * i + j] == before[4 + 8 * i + j];
    } else {
      assert AclBytes(es)[4 + 8 * n + j] == last[j];
    }
    assert AclBytes(es)[..4] == before[..4];
  }

  lemma {:induction false} AclHeader(es: seq<AclEntry>)
    requires forall e | e in es :: FitsAcl(e)
    ensures AclBytes(es)[..4] == [2, 0, 0, 0]
    decreases |es|
  {
    if es != [] {
      AclHeader(es[..|es|-1]);
      assert AclBytes(es)[..4] == AclBytes(es[..|es|-1])[..4];
    }
  }

  lemma AclFields(es: seq<AclEntry>, i: nat)
    requires (forall e | e in es :: FitsAcl(e)) && i < |es|
    ensures AclTag(AclBytes(es), i) == es[i].tag && LowPerm(AclBytes(es), i) == (es[i].perm < 8)
  {
    hide AclBytes;
    assert FitsAcl(es[i]);
    AclByteAt(es, i, 0);
    AclByteAt(es, i, 1);
    AclByteAt(es, i, 2);
    AclByteAt(es, i, 3);
    TwoBytes(es[i].tag);
    TwoBytes(es[i].perm);
  }

  lemma TwoBytes(n: nat)
    requires n < 0x1_0000
    ensures n % 256 + 256 * (n / 256) == n && (n % 256 < 8 && n / 256 == 0 <==> n < 8)
  {
  }

  /** The permission field of an entry has only its three low bits set. */
  predicate LowPerm(v: seq<byte>, i: nat)
    requires 12 + 8 * i <= |v|
  {
    v[4 + 8 * i + 2] < 8 && v[4 + 8 * i + 3] == 0
  }

  lemma {:induction false} AclCounts(es: seq<AclEntry>, n: nat, tag: nat)
    requires (forall e | e in es :: FitsAcl(e)) && n <= |es|
    ensures AclCount(AclBytes(es), n, tag) == |set i | 0 <= i < n && es[i].tag == tag|
  {
    hide AclBytes;
    hide AclTag;
    hide FitsAcl;
    var s := set i | 0 <= i < n && es[i].tag == tag;
    if n == 0 {
      assert s == {};
    } else {
      AclCounts(es, n - 1, tag);
      AclFields(es, n - 1);
      var b := set i | 0 <= i < n - 1 && es[i].tag == tag;
      assert s == if es[n-1].tag == tag then b + {n - 1} else b;
    }
  }

  /** The check accepts the bytes of a list of entries exactly when the list is well formed. */
  lemma AclAccepts(es: seq<AclEntry>)
    requires forall e | e in es :: FitsAcl(e)
    ensures ValidAcl(AclBytes(es)) <==> WellFormedAcl(es)
  {
    hide AclBytes;
    hide AclCount;
    hide AclTag;
    hide Tagged;
    var v, n := AclBytes(es), |es|;
    AclHeader(es);
    forall tag ensures AclCount(v, n, tag) == Tagged(es, tag) { TaggedIs(es, tag); }
    NamedCounted(es);
    EntriesAgree(es);
  }

  lemma TaggedIs(es: seq<AclEntry>, tag: nat)
    requires forall e | e in es :: FitsAcl(e)
    ensures AclCount(AclBytes(es), |es|, tag) == Tagged(es, tag)
  {
    hide AclBytes;
    AclCounts(es, |es|, tag);
  }

  lemma EntriesAgree(es: seq<AclEntry>)
    requires forall e | e in es :: FitsAcl(e)
    ensures var v := AclBytes(es);
            (forall i | 0 <= i < |es| ::
               && AclTag(v, i) in {1, 2, 4, 8, 16, 32}
               && v[4 + 8 * i + 2] < 8 && v[4 + 8 * i + 3] == 0)
            <==> forall e | e in es :: e.tag in {0x01, 0x02, 0x04, 0x08, 0x10, 0x20} && e.perm < 8
  {
    hide AclBytes;
    hide AclTag;
    var v := AclBytes(es);
    forall i | 0 <= i < |es| ensures AclTag(v, i) == es[i].tag && LowPerm(v, i) == (es[i].perm < 8) {
      AclFields(es, i);
    }
    if forall i | 0 <= i < |es| ::
         AclTag(v, i) in {1, 2, 4, 8, 16, 32} && v[4 + 8 * i + 2] < 8 && v[4 + 8 * i + 3] == 0 {
      forall e | e in es ensures e.tag in {0x01, 0x02, 0x04, 0x08, 0x10, 0x20} && e.perm < 8 {
        var i :| 0 <= i < |es| && es[i] == e;
        assert AclTag(v, i) in {1, 2, 4, 8, 16, 32};
      }
    }
    if forall e | e in es :: e.tag in {0x01, 0x02, 0x04, 0x08, 0x10, 0x20} && e.perm < 8 {
      forall i | 0 <= i < |es|
        ensures AclTag(v, i) in {1, 2, 4, 8, 16, 32} && v[4 + 8 * i + 2] < 8 && v[4 + 8 * i + 3] == 0
      {
        assert es[i] in es;
        assert LowPerm(v, i);
      }
    }
  }

  lemma NamedCounted(es: seq<AclEntry>)
    ensures (exists e | e in es :: e.tag == 0x02 || e.tag == 0x08) <==> Tagged(es, 0x02) + Tagged(es, 0x08) > 0
  {
    var a, b := set i | 0 <= i < |es| && es[i].tag == 0x02, set i | 0 <= i < |es| && es[i].tag == 0x08;
    if e :| e in es && (e.tag == 0x02 || e.tag == 0x08) {
      var i :| 0 <= i < |es| && es[i] == e;
      assert i in a || i in b;
    }
    if |a| + |b| > 0 {
      assert a != {} || b != {};
      var i :| i in a || i in b;
      assert es[i] in es;
    }
  }

  /** The entry at some place of an ACL. */
  function EntryAt(v: seq<byte>, i: nat): AclEntry
    requires 12 + 8 * i <= |v|
  {
    var o := 4 + 8 * i;
    AclEntry(v[o] as nat + 256 * (v[o + 1] as nat), v[o + 2] as nat + 256 * (v[o + 3] as nat),
             v[o + 4] as nat + 256 * (v[o + 5] as nat) + 65536 * (v[o + 6] as nat) + 16777216 * (v[o + 7] as nat))
  }

  /** Every value with the right header and length is the bytes of some list of entries. */
  lemma {:induction false} AclIsEntries(v: seq<byte>, n: nat) returns (es: seq<AclEntry>)
    requires |v| == 4 + 8 * n && v[..4] == [2, 0, 0, 0]
    ensures |es| == n && (forall e | e in es :: FitsAcl(e)) && AclBytes(es) == v
    decreases n
  {
    if n == 0 {
      es := [];
      assert v == v[..4];
    } else {
      var m := n - 1;
      var before := v[..4 + 8 * m];
      assert before[..4] == v[..4];
      var rest := AclIsEntries(before, m);
      var e := EntryAt(v, m);
      EntryBytesAt(v, m);
      es := rest + [e];
      assert es[..|es|-1] == rest && es[|es|-1] == e;
      assert v == before + v[4 + 8 * m..];
    }
  }

  lemma EntryBytesAt(v: seq<byte>, m: nat)
    requires |v| == 12 + 8 * m
    ensures FitsAcl(EntryAt(v, m)) && EntryBytes(EntryAt(v, m)) == v[4 + 8 * m..]
  {
    var e, o := EntryAt(v, m), 4 + 8 * m;
    TwoDigits(v[o], v[o + 1]);
    TwoDigits(v[o + 2], v[o + 3]);
    FourDigits(v[o + 4], v[o + 5], v[o + 6], v[o + 7]);
    assert FitsAcl(e);
    var b, w := EntryBytes(e), v[o..];
    assert b[0] == w[0] && b[1] == w[1] && b[2] == w[2] && b[3] == w[3];
    assert b[4] == w[4] && b[5] == w[5] && b[6] == w[6] && b[7] == w[7];
    assert b == w;
  }

  lemma TwoDigits(a: byte, b: byte)
    ensures var n := a as nat + 256 * (b as nat); n < 0x1_0000 && n % 256 == a && n / 256 == b
  {
  }

  lemma LastDigit(a: byte, m: nat)
    ensures (a as nat + 256 * m) % 256 == a && (a as nat + 256 * m) / 256 == m
  {
  }

  lemma FourDigits(a: byte, b: byte, c: byte, d: byte)
    ensures var n := a as nat + 256 * (b as nat) + 65536 * (c as nat) + 16777216 * (d as nat);
            && n < 0x1_0000_0000 && n % 256 == a && n / 256 % 256 == b && n / 256 / 256 % 256 == c
            && n / 256 / 256 / 256 == d
  {
    var k: nat := c as nat + 256 * (d as nat);
    var h: nat := b as nat + 256 * k;
    LastDigit(a, h);
    LastDigit(b, k);
    LastDigit(c, d);
    assert a as nat + 256 * (b as nat) + 65536 * (c as nat) + 16777216 * (d as nat) == a as nat + 256 * h;
  }

  /** A value is accepted exactly when it is the bytes of a well-formed list of entries. */
  lemma AclIff(v: seq<byte>)
    ensures ValidAcl(v) <==>
              exists es: seq<AclEntry> :: (forall e | e in es :: FitsAcl(e)) && AclBytes(es) == v && WellFormedAcl(es)
  {
    if ValidAcl(v) {
      var n := (|v| - 4) / 8;
      var es := AclIsEntries(v, n);
      AclAccepts(es);
    }
    if es: seq<AclEntry> :| (forall e | e in es :: FitsAcl(e)) && AclBytes(es) == v && WellFormedAcl(es) {
      AclAccepts(es);
    }
  }

  // ------------------------------------------------------------- attributes

  /** The sum does not depend on the order in which the keys are visited. */
  lemma {:induction false} TotalWithout(xattrs: map<XattrKey, seq<byte>>, keys: set<XattrKey>, k: XattrKey)
    requires keys <= xattrs.Keys && k in keys
    ensures TotalBytes(xattrs, keys) == |xattrs[k]| + TotalBytes(xattrs, keys - {k})
    decreases |keys|
  {
    var j :| j in keys && TotalBytes(xattrs, keys) == |xattrs[j]| + TotalBytes(xattrs, keys - {j});
    if j != k {
      TotalWithout(xattrs, keys - {j}, k);
      TotalWithout(xattrs, keys - {k}, j);
      assert keys - {j} - {k} == keys - {k} - {j};
    }
  }

  /** One of the four namespaces, and a name in it. */
  predicate GoodAttribute(name: string) {
    && |name| <= 255 && '\0' !in name
    && ("user." < name || "trusted." < name || "security." < name || "system." < name)
  }

  lemma AttributeNames(name: string)
    ensures ValidXattrName(name) <==> GoodAttribute(name)
  {
    if GoodAttribute(name) {
      var ps := ["user.", "trusted.", "security.", "system."];
      assert ps[0] in ps && ps[1] in ps && ps[2] in ps && ps[3] in ps;
    }
  }

  predicate IsAcl(name: string) {
    name == "system.posix_acl_access" || name == "system.posix_acl_default"
  }

  /** An ACL belongs on files and directories, a default one on directories, and must be well formed. */
  predicate AclFits(fileType: FileType, name: string, value: seq<byte>) {
    fileType != Symlink && (name == "system.posix_acl_default" ==> fileType == Directory) && ValidAcl(value)
  }

  /** The attributes the inode has besides this one. */
  function OtherKeys(t: Tables, id: InodeId, name: string): set<XattrKey> {
    set k | k in t.xattrs && k.0 == id && k.1 != name
  }

  lemma OthersTotal(t: Tables, id: InodeId, name: string)
    ensures var keys, present := XattrKeys(t, id), (id, name) in t.xattrs;
            && TotalBytes(t.xattrs, keys)
               == TotalBytes(t.xattrs, OtherKeys(t, id, name)) + (if present then |t.xattrs[(id, name)]| else 0)
            && |keys| == |OtherKeys(t, id, name)| + (if present then 1 else 0)
  {
    var keys := XattrKeys(t, id);
    if (id, name) in t.xattrs {
      TotalWithout(t.xattrs, keys, (id, name));
      assert keys - {(id, name)} == OtherKeys(t, id, name);
    } else {
      assert keys == OtherKeys(t, id, name);
    }
  }

  /** Room for the value: a new attribute must be at most the 64th, and all together stay within 256 KiB. */
  ghost predicate RoomFor(t: Tables, id: InodeId, name: string, value: seq<byte>) {
    && ((id, name) !in t.xattrs ==> |OtherKeys(t, id, name)| < 64)
    && TotalBytes(t.xattrs, OtherKeys(t, id, name)) + |value| <= 256 * 1024
  }

  /**
   An attribute is set exactly at the expected generation, under a good name, with a
   value that fits and, for an ACL, is one, where the mode allows it and there is room;
   then it has the given value and nothing but the inode's generation and change time moves.
   */
  lemma SetXattrEffect(t: Tables, expected: nat, id: InodeId, name: string, value: seq<byte>, mode: XattrMode, now: int)
    requires Ids(t)
    ensures var o, present := SetXattrNode(t, expected, id, name, value, mode, now), (id, name) in t.xattrs;
            && (o.result.Ok? <==>
                  && id in t.inodes && t.inodes[id].generation == expected
                  && GoodAttribute(name) && |value| <= 64 * 1024
                  && (IsAcl(name) ==> AclFits(t.inodes[id].fileType, name, value))
                  && (mode == CreateOnly ==> !present) && (mode == ReplaceOnly ==> present)
                  && RoomFor(t, id, name, value))
            && (o.result.Ok? ==>
                  && Changed(t.inodes[id], o.result.value, t.inodes[id].linkCount, now)
                  && o.tables == t.(xattrs := t.xattrs[(id, name) := value], inodes := t.inodes[id := o.result.value]))
            && (o.result.Err? ==> o.tables == t)
  {
    hide TotalBytes;
    hide ValidAcl;
    hide ValidXattrName;
    hide GoodAttribute;
    AttributeNames(name);
    OthersTotal(t, id, name);
  }

  /** Why setting an attribute is refused, in the order of the checks. */
  lemma SetXattrErrors(t: Tables, expected: nat, id: InodeId, name: string, value: seq<byte>, mode: XattrMode, now: int)
    requires SetXattrNode(t, expected, id, name, value, mode, now).result.Err?
    ensures var e := SetXattrNode(t, expected, id, name, value, mode, now).result.error;
            var present := (id, name) in t.xattrs;
            e == if id !in t.inodes then NotFound
                 else if t.inodes[id].generation != expected then CasFailed(expected, t.inodes[id].generation)
                 else if !GoodAttribute(name) then InvalidArg
                 else if |value| > 64 * 1024 then NoSpace
                 else if IsAcl(name) && !AclFits(t.inodes[id].fileType, name, value) then InvalidArg
                 else if mode == CreateOnly && present then AlreadyExists
                 else if mode == ReplaceOnly && !present then NoData
                 else NoSpace
  {
    hide TotalBytes;
    hide ValidAcl;
    hide ValidXattrName;
    hide GoodAttribute;
    AttributeNames(name);
  }

  /** An attribute is removed exactly at the expected generation and where there is one. */
  lemma RemoveXattrEffect(t: Tables, expected: nat, id: InodeId, name: string, now: int)
    requires Ids(t)
    ensures var o := RemoveXattrNode(t, expected, id, name, now);
            && (o.result.Ok? <==>
                  && GoodAttribute(name) && id in t.inodes && t.inodes[id].generation == expected
                  && (id, name) in t.xattrs)
            && (o.result.Ok? ==>
                  && Changed(t.inodes[id], o.result.value, t.inodes[id].linkCount, now)
                  && o.tables == t.(xattrs := t.xattrs - {(id, name)}, inodes := t.inodes[id := o.result.value]))
            && (o.result.Err? ==>
                  && o.tables == t
                  && o.result.error == if !GoodAttribute(name) then InvalidArg
                                       else if id !in t.inodes then NotFound
                                       else if t.inodes[id].generation != expected
                                       then CasFailed(expected, t.inodes[id].generation) else NoData)
  {
    hide ValidXattrName;
    hide GoodAttribute;
    AttributeNames(name);
  }

  /**
   A compare-and-set stores exactly the given record, and only one of the next
   generation that keeps everything but mode, owner and times.
   */
  lemma PutInodeCasEffect(t: Tables, expected: nat, inode: Inode)
    requires Ids(t)
    ensures var o, id := PutInodeCasNode(t, expected, inode), inode.id;
            && (o.result.Ok? <==>
                  && id in t.inodes && t.inodes[id].generation == expected && inode.generation == expected + 1
                  && inode.fileType == t.inodes[id].fileType && inode.size == t.inodes[id].size
                  && inode.linkCount == t.inodes[id].linkCount && inode.symlinkTarget == t.inodes[id].symlinkTarget
                  && inode.headGen == t.inodes[id].headGen && inode.ufsGen == t.inodes[id].ufsGen
                  && inode.ufsBaseVersion == t.inodes[id].ufsBaseVersion && inode.ufs == t.inodes[id].ufs
                  && inode.locality == t.inodes[id].locality && inode.fields == t.inodes[id].fields
                  && inode.manifestId == t.inodes[id].manifestId && inode.flushIntent == t.inodes[id].flushIntent
                  && inode.lastError == t.inodes[id].lastError)
            && (o.result.Ok? ==> o.result.value == inode && o.tables == t.(inodes := t.inodes[id := inode]))
            && (o.result.Err? ==>
                  && o.tables == t
                  && o.result.error == if id !in t.inodes then NotFound
                                       else if t.inodes[id].generation != expected
                                       then CasFailed(expected, t.inodes[id].generation) else InvalidArg)
  {
  }
}
