/**
 What every stored inode record satisfies: the locality fields, the flush intent,
 the data generations and the manifest agree with each other.
 */
module FileState {
  import opened Types
  import opened MetaTables
  import opened Admission
  import opened NamespaceOps

  /** A flush intent is recorded exactly while the file is flushing, on the frozen dirty head. */
  predicate IntentOk(i: Inode)
    requires i.fields.Some?
  {
    var f := i.fields.value;
    && !f.opState.Hydrating?
    && (i.flushIntent.Some? <==> f.opState.Flushing?)
    && (i.flushIntent.Some? ==>
          && f.opState == Flushing(i.flushIntent.value)
          && i.fileType == Regular && f.backing == UfsBacked && f.dataState == Dirty
          && i.headGen == i.flushIntent.value.snapshotGen)
  }

  /** The data state says how the head generation relates to the written-back one. */
  predicate GenerationsOk(i: Inode)
    requires i.fields.Some?
  {
    var f := i.fields.value;
    && (f.backing == EphemeralMount <==> f.dataState == Ephemeral)
    && (f.dataState == UfsClean ==> i.headGen == i.ufsGen)
    && (f.dataState == Dirty || f.dataState == DirtyConflict ==> i.headGen > i.ufsGen)
    && i.locality == DeriveLabel(f, i.headGen, i.ufsGen)
  }

  /** A file's manifest is its own, at its head generation and with its size. */
  predicate ManifestOk(i: Inode, manifests: map<ManifestId, Manifest>) {
    match i.manifestId
    case None => i.fileType == Regular ==> i.size == 0
    case Some(id) =>
      && id in manifests && i.fileType == Regular
      && manifests[id].inode == i.id && manifests[id].gen == i.headGen && manifests[id].size == i.size
  }

  /** A clean file is one range over its object at its base version. */
  predicate CleanOk(i: Inode, manifests: map<ManifestId, Manifest>)
    requires i.fields.Some?
  {
    i.fields.value.dataState == UfsClean && i.manifestId.Some? ==>
      && i.manifestId.value in manifests && i.ufs.Some? && i.ufsBaseVersion.Some?
      && manifests[i.manifestId.value]
         == ObjectManifest(i.id, i.headGen, i.size, i.ufs.value.key, i.ufsBaseVersion.value)
  }

  predicate FileOk(i: Inode, manifests: map<ManifestId, Manifest>) {
    i.fields.Some? && IntentOk(i) && GenerationsOk(i) && ManifestOk(i, manifests) && CleanOk(i, manifests)
  }

  ghost predicate FilesOk(t: Tables) {
    forall i | i in t.inodes :: FileOk(t.inodes[i], t.manifests)
  }

  // ------------------------------------------------------ kinds of change

  lemma SameContentOk(a: Inode, b: Inode, manifests: map<ManifestId, Manifest>)
    requires FileOk(a, manifests) && ContentOf(b) == ContentOf(a)
    ensures FileOk(b, manifests)
  {
  }

  lemma NamespaceKeepsFiles(t: Tables, t': Tables)
    requires FilesOk(t) && NamespaceStep(t, t')
    ensures FilesOk(t')
  {
    forall i | i in t'.inodes ensures FileOk(t'.inodes[i], t'.manifests) {
      if i in t.inodes { SameContentOk(t.inodes[i], t'.inodes[i], t.manifests); }
    }
  }

  /** Manifests may be added and, when nothing refers to them, removed. */
  ghost predicate ManifestsKept(t: Tables, t': Tables) {
    forall i | i in t.inodes && t.inodes[i].manifestId.Some? && t.inodes[i].manifestId.value in t.manifests ::
      && t.inodes[i].manifestId.value in t'.manifests
      && t'.manifests[t.inodes[i].manifestId.value] == t.manifests[t.inodes[i].manifestId.value]
  }

  lemma ReplaceKeepsFiles(t: Tables, t': Tables, next: Inode)
    requires FilesOk(t) && ManifestsKept(t, t') && t'.inodes == t.inodes[next.id := next]
    requires FileOk(next, t'.manifests)
    ensures FilesOk(t')
  {
    hide IntentOk;
    hide GenerationsOk;
  }

  lemma UnchangedKeepsFiles(t: Tables, t': Tables)
    requires FilesOk(t) && ManifestsKept(t, t') && t'.inodes == t.inodes
    ensures FilesOk(t')
  {
    hide IntentOk;
    hide GenerationsOk;
  }
}
