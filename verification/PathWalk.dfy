/**
 Path resolution: symbolic links are expanded into the list of components still
 to be walked, at most forty times.
 */
module PathWalk {
  import opened Types
  import opened MetaTables

  const MAX_EXPANSIONS: nat := 40

  /** The parts of a string between separators, empty ones included. */
  function Split(s: string): (r: seq<string>)
    ensures |r| >= 1 && forall i | 0 <= i < |r| :: '/' !in r[i]
  {
    if s == "" then [""]
    else
      var rest := Split(s[1..]);
      if s[0] == '/' then [""] + rest else [[s[0]] + rest[0]] + rest[1..]
  }

  function Join(parts: seq<string>): string
    requires |parts| >= 1
  {
    if |parts| == 1 then parts[0] else parts[0] + "/" + Join(parts[1..])
  }

  lemma {:induction false} SplitPrefix(a: string, s: string)
    requires '/' !in a
    ensures Split(a + "/" + s) == [a] + Split(s)
  {
    var whole := a + "/" + s;
    if a == "" {
      assert whole[1..] == s;
    } else {
      SplitPrefix(a[1..], s);
      assert whole[1..] == a[1..] + "/" + s;
      assert [a[0]] + a[1..] == a;
    }
  }

  lemma {:induction false} SplitPlain(a: string)
    requires '/' !in a
    ensures Split(a) == [a]
  {
    if a != "" {
      SplitPlain(a[1..]);
      assert [a[0]] + a[1..] == a;
    }
  }

  lemma {:induction false} SplitJoined(parts: seq<string>)
    requires |parts| >= 1 && forall i | 0 <= i < |parts| :: '/' !in parts[i]
    ensures Split(Join(parts)) == parts
  {
    if |parts| == 1 {
      SplitPlain(parts[0]);
    } else {
      SplitJoined(parts[1..]);
      SplitPrefix(parts[0], Join(parts[1..]));
    }
  }

  /** A component that can name a directory entry. */
  predicate GoodPart(part: string) {
    part != "" && part != "." && part != ".." && |part| <= 255 && '/' !in part && '\0' !in part
  }

  predicate GoodParts(parts: seq<string>) {
    forall i | 0 <= i < |parts| :: GoodPart(parts[i])
  }

  function NonEmpty(parts: seq<string>): seq<string> {
    if parts == [] then [] else (if parts[0] == "" then [] else [parts[0]]) + NonEmpty(parts[1..])
  }

  /** The components of an absolute path. */
  method PathComponents(path: string) returns (r: Result<seq<string>>)
    ensures r.Ok? <==> |path| > 0 && path[0] == '/' && GoodParts(NonEmpty(Split(path)))
    ensures r.Ok? <==>
              && |path| > 0 && path[0] == '/'
              && forall p | p in Split(path) && p != "" :: p != "." && p != ".." && |p| <= 255 && '\0' !in p
    ensures r.Ok? ==> r.value == NonEmpty(Split(path))
    ensures r.Err? ==> r.error == InvalidArg
  {
    if |path| == 0 || path[0] != '/' {
      return Err(InvalidArg);
    }
    var all := Split(path);
    var parts: seq<string> := [];
    for k := 0 to |all|
      invariant parts == NonEmpty(all[..k]) && GoodParts(parts)
    {
      NonEmptyNext(all, k);
      if all[k] != "" {
        if !GoodPart(all[k]) {
          NonEmptyHas(all, k);
          assert all[k] in Split(path);
          return Err(InvalidArg);
        }
        parts := parts + [all[k]];
      }
    }
    assert all[..|all|] == all;
    NonEmptyMembers(all);
    r := Ok(parts);
  }

  lemma {:induction false} NonEmptyMembers(all: seq<string>)
    ensures forall p :: p in NonEmpty(all) <==> p in all && p != ""
  {
    if all != [] {
      NonEmptyMembers(all[1..]);
      assert all == [all[0]] + all[1..];
    }
  }

  lemma {:induction false} NonEmptyJoin(a: seq<string>, b: seq<string>)
    ensures NonEmpty(a + b) == NonEmpty(a) + NonEmpty(b)
  {
    if a == [] {
      assert a + b == b;
    } else {
      assert (a + b)[1..] == a[1..] + b;
      NonEmptyJoin(a[1..], b);
    }
  }

  /** Writing usable components as a path and parsing it gives them back. */
  lemma PathRoundTrip(parts: seq<string>)
    requires |parts| >= 1 && GoodParts(parts)
    ensures NonEmpty(Split("/" + Join(parts))) == parts
  {
    SplitPrefix("", Join(parts));
    assert "" + "/" + Join(parts) == "/" + Join(parts);
    SplitJoined(parts);
    assert ([""] + parts)[1..] == parts;
    NoneEmpty(parts);
  }

  lemma {:induction false} NoneEmpty(parts: seq<string>)
    requires forall i | 0 <= i < |parts| :: parts[i] != ""
    ensures NonEmpty(parts) == parts
  {
    if parts != [] { NoneEmpty(parts[1..]); }
  }

  lemma NonEmptyNext(all: seq<string>, k: nat)
    requires k < |all|
    ensures NonEmpty(all[..k+1]) == NonEmpty(all[..k]) + (if all[k] == "" then [] else [all[k]])
  {
    assert all[..k+1] == all[..k] + [all[k]];
    NonEmptyJoin(all[..k], [all[k]]);
  }

  lemma NonEmptyHas(all: seq<string>, k: nat)
    requires k < |all| && all[k] != ""
    ensures exists i | 0 <= i < |NonEmpty(all)| :: NonEmpty(all)[i] == all[k]
  {
    assert all == all[..k] + ([all[k]] + all[k+1..]);
    NonEmptyJoin(all[..k], [all[k]] + all[k+1..]);
    NonEmptyJoin([all[k]], all[k+1..]);
    assert NonEmpty([all[k]]) == [all[k]];
    assert NonEmpty(all)[|NonEmpty(all[..k])|] == all[k];
  }

  // ------------------------------------------------------- symlink targets

  /** Apply one target component to a list of names: `..` drops the last, `.` and `` do nothing. */
  function Applied(base: seq<string>, part: string): seq<string> {
    if part == "" || part == "." then base
    else if part == ".." then (if base == [] then [] else base[..|base|-1])
    else base + [part]
  }

  function AppliedAll(base: seq<string>, parts: seq<string>): seq<string> {
    if parts == [] then base else Applied(AppliedAll(base, parts[..|parts|-1]), parts[|parts|-1])
  }

  /** The names a link stands for, starting from the directory it lies in. */
  method AppendTarget(base: seq<string>, target: string) returns (r: Result<seq<string>>)
    requires GoodParts(base)
    ensures r.Ok? <==> GoodTarget(target)
    ensures r.Ok? <==> '\0' !in target && forall p | p in Split(target) :: |p| <= 255
    ensures r.Ok? ==> GoodParts(r.value) && r.value == AppliedAll(base, Split(target))
    ensures r.Ok? ==> var (up, names) := FromEnd(Split(target), 0);
                      r.value == (if up >= |base| then [] else base[..|base| - up]) + names
    ensures r.Ok? && GoodParts(Split(target)) ==> r.value == base + Split(target)
    ensures r.Ok? && target == ".." ==> r.value == if base == [] then [] else base[..|base|-1]
    ensures r.Err? ==> r.error == InvalidArg
  {
    hide Split;
    hide FromEnd;
    hide Applied;
    hide GoodPart;
    if '\0' in target {
      return Err(InvalidArg);
    }
    var parts := Split(target);
    SplitParts(target);
    var names := base;
    for k := 0 to |parts|
      invariant GoodParts(names) && names == AppliedAll(base, parts[..k])
      invariant forall i | 0 <= i < k :: |parts[i]| <= 255
    {
      assert parts[..k+1][..k] == parts[..k];
      if |parts[k]| > 255 {
        assert |Split(target)[k]| > 255;
        return Err(InvalidArg);
      }
      AppliedGood(names, parts[k]);
      names := Applied(names, parts[k]);
    }
    assert parts[..|parts|] == parts;
    TargetMeans(base, parts);
    if target == ".." { SplitPlain(".."); }
    r := Ok(names);
  }

  lemma SplitParts(s: string)
    requires '\0' !in s
    ensures forall i | 0 <= i < |Split(s)| :: '\0' !in Split(s)[i] && '/' !in Split(s)[i]
  {
    NoNul(s);
  }

  lemma AppliedGood(names: seq<string>, part: string)
    requires GoodParts(names) && |part| <= 255 && '\0' !in part && '/' !in part
    ensures GoodParts(Applied(names, part))
  {
  }

  /** What a target makes of the directory it lies in, said without applying it part by part. */
  lemma TargetMeans(base: seq<string>, parts: seq<string>)
    ensures var (up, names) := FromEnd(parts, 0);
            AppliedAll(base, parts) == (if up >= |base| then [] else base[..|base| - up]) + names
    ensures GoodParts(parts) ==> AppliedAll(base, parts) == base + parts
    ensures parts == [".."] ==> AppliedAll(base, parts) == if base == [] then [] else base[..|base|-1]
  {
    TargetMatches(base, parts);
    if GoodParts(parts) { GoodPartsAppend(base, parts); }
    if parts == [".."] { assert parts[..0] == []; }
  }

  /** Read from its end, a target keeps the names no later `..` cancels, and goes up once for each `..` left over. */
  function FromEnd(parts: seq<string>, up: nat): (nat, seq<string>) {
    if parts == [] then (up, [])
    else
      var last, before := parts[|parts|-1], parts[..|parts|-1];
      if last == ".." then FromEnd(before, up + 1)
      else if last == "" || last == "." then FromEnd(before, up)
      else if up > 0 then FromEnd(before, up - 1)
      else var r := FromEnd(before, 0); (r.0, r.1 + [last])
  }

  function Dropped(names: seq<string>, up: nat): seq<string> {
    if up >= |names| then [] else names[..|names| - up]
  }

  /** Applying a target part by part matches each `..` with the name before it. */
  lemma TargetMatches(base: seq<string>, parts: seq<string>)
    ensures var (up, names) := FromEnd(parts, 0);
            AppliedAll(base, parts) == (if up >= |base| then [] else base[..|base| - up]) + names
  {
    DroppedMatches(base, parts, 0);
    assert Dropped(AppliedAll(base, parts), 0) == AppliedAll(base, parts);
  }

  lemma {:induction false} DroppedMatches(base: seq<string>, parts: seq<string>, up: nat)
    ensures Dropped(AppliedAll(base, parts), up) == Dropped(base, FromEnd(parts, up).0) + FromEnd(parts, up).1
    decreases |parts|
  {
    if parts != [] {
      var last, before := parts[|parts|-1], parts[..|parts|-1];
      var names := AppliedAll(base, before);
      if last == ".." {
        DroppedMatches(base, before, up + 1);
        assert Dropped(Applied(names, last), up) == Dropped(names, up + 1);
      } else if last == "" || last == "." {
        DroppedMatches(base, before, up);
      } else if up > 0 {
        DroppedMatches(base, before, up - 1);
        assert Dropped(names + [last], up) == Dropped(names, up - 1);
      } else {
        DroppedMatches(base, before, 0);
        assert Dropped(names + [last], 0) == Dropped(names, 0) + [last];
      }
    }
  }

  lemma {:induction false} AppliedJoin(base: seq<string>, a: seq<string>, b: seq<string>)
    ensures AppliedAll(base, a + b) == AppliedAll(AppliedAll(base, a), b)
    decreases |b|
  {
    if b == [] {
      assert a + b == a;
    } else {
      assert (a + b)[..|a + b| - 1] == a + b[..|b|-1];
      AppliedJoin(base, a, b[..|b|-1]);
    }
  }

  /** A name followed by `..` cancels anywhere in a target. */
  lemma UpCancels(base: seq<string>, a: seq<string>, name: string, b: seq<string>)
    requires GoodPart(name)
    ensures AppliedAll(base, a + [name, ".."] + b) == AppliedAll(base, a + b)
  {
    AppliedJoin(base, a + [name, ".."], b);
    AppliedJoin(base, a, [name, ".."]);
    AppliedJoin(base, a, b);
    var names := AppliedAll(base, a);
    assert [name, ".."][..1] == [name] && [name][..0] == [];
    assert AppliedAll(names, [name]) == names + [name];
    assert (names + [name])[..|names|] == names;
  }

  /** Parts that stand for the directory itself change nothing. */
  lemma {:induction false} IdleParts(base: seq<string>, parts: seq<string>)
    requires forall i | 0 <= i < |parts| :: parts[i] == "" || parts[i] == "."
    ensures AppliedAll(base, parts) == base
    decreases |parts|
  {
    if parts != [] { IdleParts(base, parts[..|parts|-1]); }
  }

  /** Plain names are walked from where the link lies. */
  lemma {:induction false} GoodPartsAppend(base: seq<string>, parts: seq<string>)
    requires GoodParts(parts)
    ensures AppliedAll(base, parts) == base + parts
    decreases |parts|
  {
    if parts != [] {
      var n := |parts| - 1;
      GoodPartsAppend(base, parts[..n]);
      assert GoodPart(parts[n]);
      assert parts[..n] + [parts[n]] == parts;
      assert base + parts[..n] + [parts[n]] == base + parts;
    }
  }

  lemma {:induction false} NoNul(s: string)
    requires '\0' !in s
    ensures forall i | 0 <= i < |Split(s)| :: '\0' !in Split(s)[i]
  {
    if s != "" { NoNul(s[1..]); }
  }

  // ------------------------------------------------------------------ walk

  /** Following names from the root through directories, with no link on the way. */
  function Walk(t: Tables, names: seq<string>): Option<InodeId> {
    if names == [] then Some(ROOT_INODE)
    else match Walk(t, names[..|names|-1])
      case None => None
      case Some(dir) =>
        if dir !in t.inodes || t.inodes[dir].fileType != Directory || (dir, names[|names|-1]) !in t.dentries then None
        else Some(t.dentries[(dir, names[|names|-1])])
  }

  // ------------------------------------------------- links by substitution

  /** Where a walk along plain names ends: at an inode, at an error, or at a link to be expanded. */
  datatype Stop = Arrived(inode: Inode) | Stuck(error: FluxError) | LinkAt(k: nat, link: Inode)

  /** The walk from the k-th name on. A link stops it unless it comes last and is not to be followed. */
  function Stops(t: Tables, names: seq<string>, k: nat, inode: Inode, follow: bool): (s: Stop)
    requires k <= |names|
    ensures s.LinkAt? ==> s.k < |names|
    decreases |names| - k
  {
    if k == |names| then Arrived(inode)
    else if (inode.id, names[k]) !in t.dentries || t.dentries[(inode.id, names[k])] !in t.inodes then Stuck(NotFound)
    else
      var child := t.inodes[t.dentries[(inode.id, names[k])]];
      if child.fileType == Symlink && (follow || k + 1 < |names|) then LinkAt(k, child)
      else if k + 1 < |names| && child.fileType != Directory then Stuck(NotDirectory)
      else Stops(t, names, k + 1, child, follow)
  }

  predicate GoodTarget(target: string) {
    '\0' !in target && forall i | 0 <= i < |Split(target)| :: |Split(target)[i]| <= 255
  }

  /** The path with its k-th name, a link, replaced by the target. */
  function Substituted(names: seq<string>, k: nat, target: string): seq<string>
    requires k < |names|
  {
    AppliedAll(if |target| > 0 && target[0] == '/' then [] else names[..k], Split(target)) + names[k+1..]
  }

  /** What a path stands for: substitute its first link and start over, at most `budget` times. */
  function Resolve(t: Tables, names: seq<string>, follow: bool, budget: nat): Result<Inode>
    requires ROOT_INODE in t.inodes
    decreases budget, 1
  {
    Finish(t, names, Stops(t, names, 0, t.inodes[ROOT_INODE], follow), follow, budget)
  }

  function Finish(t: Tables, names: seq<string>, stop: Stop, follow: bool, budget: nat): Result<Inode>
    requires ROOT_INODE in t.inodes && (stop.LinkAt? ==> stop.k < |names|)
    decreases budget, 0
  {
    match stop
    case Arrived(inode) => Ok(inode)
    case Stuck(e) => Err(e)
    case LinkAt(k, link) =>
      if budget == 0 then Err(InvalidArg)
      else if link.symlinkTarget.None? then Err(Meta)
      else if !GoodTarget(link.symlinkTarget.value) then Err(InvalidArg)
      else Resolve(t, Substituted(names, k, link.symlinkTarget.value), follow, budget - 1)
  }

  /** More than `budget` links would have to be expanded. */
  predicate Exhausts(t: Tables, names: seq<string>, follow: bool, budget: nat)
    requires ROOT_INODE in t.inodes
    decreases budget
  {
    var stop := Stops(t, names, 0, t.inodes[ROOT_INODE], follow);
    && stop.LinkAt?
    && (budget > 0 ==>
          && stop.link.symlinkTarget.Some? && GoodTarget(stop.link.symlinkTarget.value)
          && Exhausts(t, Substituted(names, stop.k, stop.link.symlinkTarget.value), follow, budget - 1))
  }

  /** The budget matters only to a path that exhausts it, and such a path is refused. */
  lemma {:induction false} BudgetMatters(t: Tables, names: seq<string>, follow: bool, budget: nat, larger: nat)
    requires ROOT_INODE in t.inodes && budget <= larger
    ensures Exhausts(t, names, follow, budget) ==> Resolve(t, names, follow, budget) == Err(InvalidArg)
    ensures !Exhausts(t, names, follow, budget) ==>
              Resolve(t, names, follow, larger) == Resolve(t, names, follow, budget)
    decreases budget
  {
    var stop := Stops(t, names, 0, t.inodes[ROOT_INODE], follow);
    if budget > 0 && stop.LinkAt? && stop.link.symlinkTarget.Some? {
      BudgetMatters(t, Substituted(names, stop.k, stop.link.symlinkTarget.value), follow, budget - 1, larger - 1);
    }
  }

  // ------------------------------------------------- what a link stands for

  /** The first link of the path is its k-th name. */
  ghost predicate FirstLink(t: Tables, names: seq<string>, follow: bool, k: nat, target: string)
    requires ROOT_INODE in t.inodes
  {
    var stop := Stops(t, names, 0, t.inodes[ROOT_INODE], follow);
    stop.LinkAt? && stop.k == k && stop.link.symlinkTarget == Some(target) && GoodTarget(target)
  }

  lemma LinkSubstitutes(t: Tables, names: seq<string>, k: nat, target: string, follow: bool, budget: nat)
    requires ROOT_INODE in t.inodes && budget > 0 && FirstLink(t, names, follow, k, target)
    ensures k < |names|
    ensures Resolve(t, names, follow, budget) == Resolve(t, Substituted(names, k, target), follow, budget - 1)
  {
    hide Stops;
    hide GoodTarget;
  }

  /** The path in which a link of directory `dir` was replaced by what it stands for. */
  lemma SubstitutedAt(dir: seq<string>, link: string, rest: seq<string>, target: string)
    ensures Substituted(dir + [link] + rest, |dir|, target)
            == AppliedAll(if |target| > 0 && target[0] == '/' then [] else dir, Split(target)) + rest
  {
    hide Split;
    hide AppliedAll;
    var names := dir + [link] + rest;
    assert names[..|dir|] == dir && names[|dir| + 1..] == rest;
  }

  /** A link to plain names stands for them in its own directory. */
  lemma LinkToNames(t: Tables, dir: seq<string>, link: string, rest: seq<string>, target: string, follow: bool,
                    budget: nat)
    requires ROOT_INODE in t.inodes && budget > 0 && GoodParts(Split(target))
    requires FirstLink(t, dir + [link] + rest, follow, |dir|, target)
    ensures Resolve(t, dir + [link] + rest, follow, budget)
            == Resolve(t, dir + Split(target) + rest, follow, budget - 1)
  {
    hide Resolve;
    hide FirstLink;
    hide AppliedAll;
    LinkSubstitutes(t, dir + [link] + rest, |dir|, target, follow, budget);
    SubstitutedAt(dir, link, rest, target);
    assert |target| > 0 && target[0] == '/' ==> !GoodPart(Split(target)[0]);
    GoodPartsAppend(dir, Split(target));
  }

  /** A link to `../x` stands for `x` in the directory above, which for the root is the root. */
  lemma LinkUpwards(t: Tables, dir: seq<string>, link: string, rest: seq<string>, x: string, follow: bool, budget: nat)
    requires ROOT_INODE in t.inodes && budget > 0 && GoodParts(Split(x))
    requires FirstLink(t, dir + [link] + rest, follow, |dir|, "../" + x)
    ensures var above := if dir == [] then [] else dir[..|dir|-1];
            Resolve(t, dir + [link] + rest, follow, budget) == Resolve(t, above + Split(x) + rest, follow, budget - 1)
  {
    hide Resolve;
    hide FirstLink;
    hide AppliedAll;
    hide Split;
    LinkSubstitutes(t, dir + [link] + rest, |dir|, "../" + x, follow, budget);
    SubstitutedAt(dir, link, rest, "../" + x);
    assert ".." + "/" + x == "../" + x;
    SplitPrefix("..", x);
    AppliedJoin(dir, [".."], Split(x));
    TargetMeans(dir, [".."]);
    GoodPartsAppend(if dir == [] then [] else dir[..|dir|-1], Split(x));
  }

  /** A link to `/x` stands for `x` from the root. */
  lemma LinkFromRoot(t: Tables, dir: seq<string>, link: string, rest: seq<string>, x: string, follow: bool, budget: nat)
    requires ROOT_INODE in t.inodes && budget > 0 && GoodParts(Split(x))
    requires FirstLink(t, dir + [link] + rest, follow, |dir|, "/" + x)
    ensures Resolve(t, dir + [link] + rest, follow, budget) == Resolve(t, Split(x) + rest, follow, budget - 1)
  {
    hide Resolve;
    hide FirstLink;
    hide AppliedAll;
    hide Split;
    LinkSubstitutes(t, dir + [link] + rest, |dir|, "/" + x, follow, budget);
    SubstitutedAt(dir, link, rest, "/" + x);
    assert "" + "/" + x == "/" + x;
    SplitPrefix("", x);
    AppliedJoin([], [""], Split(x));
    IdleParts([], [""]);
    GoodPartsAppend([], Split(x));
    assert [] + Split(x) == Split(x);
  }

  /** The walk to the k-th name passes directories only. */
  ghost predicate Reached(t: Tables, names: seq<string>, k: nat)
    requires k <= |names|
  {
    forall j | 0 <= j <= k :: Walk(t, names[..j]).Some? && Walk(t, names[..j]).value in t.inodes
                              && t.inodes[Walk(t, names[..j]).value].fileType == Directory
  }

  lemma {:induction false} StopsAfter(t: Tables, names: seq<string>, k: nat, follow: bool)
    requires ROOT_INODE in t.inodes && (forall i | i in t.inodes :: t.inodes[i].id == i)
    requires k < |names| && Reached(t, names, k)
    ensures Stops(t, names, 0, t.inodes[ROOT_INODE], follow)
            == Stops(t, names, k, t.inodes[Walk(t, names[..k]).value], follow)
    decreases k
  {
    if k > 0 {
      StopsAfter(t, names, k - 1, follow);
      assert names[..k][..k-1] == names[..k-1] && names[..k][k-1] == names[k-1];
      assert Walk(t, names[..k-1]).Some? && Walk(t, names[..k]).Some?;
    } else {
      assert names[..0] == [];
    }
  }

  /** A path of directories and a last name that is no link to follow resolves to what it names. */
  lemma PlainPathResolves(t: Tables, names: seq<string>, follow: bool, budget: nat)
    requires ROOT_INODE in t.inodes && (forall i | i in t.inodes :: t.inodes[i].id == i)
    requires names != [] && Reached(t, names, |names| - 1)
    requires Walk(t, names).Some? && Walk(t, names).value in t.inodes
    requires follow ==> t.inodes[Walk(t, names).value].fileType != Symlink
    ensures Resolve(t, names, follow, budget) == Ok(t.inodes[Walk(t, names).value])
  {
    StopsAfter(t, names, |names| - 1, follow);
  }

  /** Where the walk meets no entry, or goes on below something that is neither a directory nor a link, it says so. */
  lemma PlainPathFails(t: Tables, names: seq<string>, k: nat, follow: bool, budget: nat)
    requires ROOT_INODE in t.inodes && (forall i | i in t.inodes :: t.inodes[i].id == i)
    requires k < |names| && Reached(t, names, k)
    ensures var key := (Walk(t, names[..k]).value, names[k]);
            && (key !in t.dentries ==> Resolve(t, names, follow, budget) == Err(NotFound))
            && (key in t.dentries && t.dentries[key] in t.inodes && k + 1 < |names| ==>
                  t.inodes[t.dentries[key]].fileType == Regular ==>
                    Resolve(t, names, follow, budget) == Err(NotDirectory))
  {
    StopsAfter(t, names, k, follow);
  }

  /** The names still to be walked once a link has been replaced by its target. */
  method ExpandLink(link: Inode, resolved: seq<string>, pending: seq<string>, ghost names: seq<string>)
    returns (r: Result<seq<string>>)
    requires GoodParts(resolved) && GoodParts(pending)
    requires |resolved| < |names| && names[..|resolved|] == resolved && names[|resolved| + 1..] == pending
    ensures if link.symlinkTarget.None? then r == Err(Meta)
            else if !GoodTarget(link.symlinkTarget.value) then r == Err(InvalidArg)
            else r == Ok(Substituted(names, |resolved|, link.symlinkTarget.value)) && GoodParts(r.value)
  {
    hide GoodPart;
    hide GoodParts;
    hide Split;
    hide FromEnd;
    hide AppliedAll;
    if link.symlinkTarget.None? {
      return Err(Meta);
    }
    var target := link.symlinkTarget.value;
    GoodJoin([], []);
    var expanded := AppendTarget(if |target| > 0 && target[0] == '/' then [] else resolved, target);
    if expanded.Err? {
      return Err(expanded.error);
    }
    GoodJoin(expanded.value, pending);
    r := Ok(expanded.value + pending);
  }

  /**
   Resolve a path. Every link met before the last component, and the last one too
   when `follow` is set, is replaced by its target; what is returned is reached by
   walking plain names.
   */
  method ResolvePath(t: Tables, path: string, follow: bool)
    returns (r: Result<Inode>, resolved: seq<string>, expansions: nat)
    requires ROOT_INODE in t.inodes && t.inodes[ROOT_INODE].fileType == Directory
    requires forall i | i in t.inodes :: t.inodes[i].id == i
    ensures var names := NonEmpty(Split(path));
            r == if |path| > 0 && path[0] == '/' && GoodParts(names) then Resolve(t, names, follow, 40)
                 else Err(InvalidArg)
    ensures r.Ok? ==> GoodParts(resolved) && r.value.id in t.inodes && t.inodes[r.value.id] == r.value
    ensures r.Ok? ==> Walk(t, resolved) == Some(r.value.id)
    ensures r.Ok? && follow ==> r.value.fileType != Symlink
    ensures r.Ok? && expansions == 0 ==> resolved == NonEmpty(Split(path))
    ensures expansions <= 40
  {
    hide GoodPart;
    hide GoodParts;
    hide Split;
    hide FromEnd;
    hide AppliedAll;
    hide Stops;
    hide Finish;
    hide Walk;
    hide GoodTarget;
    hide Substituted;
    resolved, expansions := [], 0;
    var parsed := PathComponents(path);
    if parsed.Err? {
      return Err(parsed.error), resolved, expansions;
    }
    var pending := parsed.value;
    var inode := t.inodes[ROOT_INODE];
    ghost var names := parsed.value;
    assert [] + pending == names;
    WalkRoot(t);
    GoodJoin([], []);
    while pending != []
      invariant GoodParts(pending) && GoodParts(resolved) && expansions <= MAX_EXPANSIONS
      invariant inode.id in t.inodes && t.inodes[inode.id] == inode && Walk(t, resolved) == Some(inode.id)
      invariant pending != [] ==> inode.fileType == Directory
      invariant follow ==> inode.fileType != Symlink
      invariant names == resolved + pending && (expansions == 0 ==> names == parsed.value)
      invariant Resolve(t, parsed.value, follow, MAX_EXPANSIONS)
                == Finish(t, names, Stops(t, names, |resolved|, inode, follow), follow, MAX_EXPANSIONS - expansions)
      decreases MAX_EXPANSIONS - expansions, |pending|
    {
      var part := pending[0];
      NextStop(t, names, |resolved|, inode, follow);
      Finished(t, names, Stops(t, names, |resolved|, inode, follow), follow, MAX_EXPANSIONS - expansions);
      assert pending == [part] + pending[1..];
      GoodJoin([part], pending[1..]);
      assert names[|resolved|] == part && names[..|resolved|] == resolved && names[|resolved| + 1..] == pending[1..];
      pending := pending[1..];
      if (inode.id, part) !in t.dentries || t.dentries[(inode.id, part)] !in t.inodes {
        return Err(NotFound), resolved, expansions;
      }
      var child := t.inodes[t.dentries[(inode.id, part)]];
      if child.fileType == Symlink && (follow || pending != []) {
        if expansions == MAX_EXPANSIONS {
          return Err(InvalidArg), resolved, expansions;
        }
        expansions := expansions + 1;
        var expanded := ExpandLink(child, resolved, pending, names);
        if expanded.Err? {
          return Err(expanded.error), resolved, expansions;
        }
        names := expanded.value;
        pending := expanded.value;
        resolved := [];
        assert resolved + pending == pending;
        inode := t.inodes[ROOT_INODE];
      } else {
        if pending != [] && child.fileType != Directory {
          return Err(NotDirectory), resolved, expansions;
        }
        WalkNext(t, resolved, part, inode.id);
        GoodJoin(resolved, [part]);
        assert resolved + [part] + pending == names;
        resolved := resolved + [part];
        inode := child;
      }
    }
    AtEnd(t, names, inode, follow, MAX_EXPANSIONS - expansions);
    assert resolved == names;
    r := Ok(inode);
  }

  lemma GoodJoin(a: seq<string>, b: seq<string>)
    ensures GoodParts(a + b) <==> GoodParts(a) && GoodParts(b)
    ensures GoodParts([])
  {
    assert forall i | 0 <= i < |a| :: (a + b)[i] == a[i];
    assert forall i | 0 <= i < |b| :: (a + b)[|a| + i] == b[i];
  }

  lemma WalkRoot(t: Tables)
    ensures Walk(t, []) == Some(ROOT_INODE)
  {
  }

  lemma WalkNext(t: Tables, names: seq<string>, part: string, dir: InodeId)
    requires Walk(t, names) == Some(dir) && dir in t.inodes && t.inodes[dir].fileType == Directory
    requires (dir, part) in t.dentries
    ensures Walk(t, names + [part]) == Some(t.dentries[(dir, part)])
  {
    assert (names + [part])[..|names|] == names;
  }

  lemma NextStop(t: Tables, names: seq<string>, k: nat, inode: Inode, follow: bool)
    requires k < |names|
    ensures var key := (inode.id, names[k]);
            Stops(t, names, k, inode, follow) ==
            if key !in t.dentries || t.dentries[key] !in t.inodes then Stuck(NotFound)
            else
              var child := t.inodes[t.dentries[key]];
              if child.fileType == Symlink && (follow || k + 1 < |names|) then LinkAt(k, child)
              else if k + 1 < |names| && child.fileType != Directory then Stuck(NotDirectory)
              else Stops(t, names, k + 1, child, follow)
  {
  }

  lemma Finished(t: Tables, names: seq<string>, stop: Stop, follow: bool, budget: nat)
    requires ROOT_INODE in t.inodes && (stop.LinkAt? ==> stop.k < |names|)
    ensures stop.Stuck? ==> Finish(t, names, stop, follow, budget) == Err(stop.error)
    ensures stop.LinkAt? && budget == 0 ==> Finish(t, names, stop, follow, budget) == Err(InvalidArg)
    ensures stop.LinkAt? && budget > 0 && stop.link.symlinkTarget.None? ==>
              Finish(t, names, stop, follow, budget) == Err(Meta)
    ensures stop.LinkAt? && budget > 0 && stop.link.symlinkTarget.Some? ==>
              var target := stop.link.symlinkTarget.value;
              Finish(t, names, stop, follow, budget) ==
              if !GoodTarget(target) then Err(InvalidArg)
              else
                var next := Substituted(names, stop.k, target);
                Finish(t, next, Stops(t, next, 0, t.inodes[ROOT_INODE], follow), follow, budget - 1)
  {
  }

  lemma AtEnd(t: Tables, names: seq<string>, inode: Inode, follow: bool, budget: nat)
    requires ROOT_INODE in t.inodes
    ensures Finish(t, names, Stops(t, names, |names|, inode, follow), follow, budget) == Ok(inode)
  {
  }
}
