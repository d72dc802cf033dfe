/** backup followed by restore: when the container comes back, for every
    rootfs, every manifest, every container name and whatever the container
    directory held before. */
module RoundTrip {
  import opened Attributes
  import opened Names
  import opened Trees
  import opened Resolver
  import opened Kernels
  import B = Backup
  import opened Restore
  import TarExtract

  // -------------------------------------------------------------------------
  // Names
  // -------------------------------------------------------------------------

  lemma ContainerNameIsValid(c: string)
    requires IsContainerName(c)
    ensures ValidName(c)
  {
    assert c[0] != '.' && c[0] != '/';
    forall i | 0 <= i < |c|
      ensures c[i] != '/'
    {
    }
  }

  /** A rootfs member's name leads back to where it came from; but archives of
      a container called installed-rootfs read as the legacy layout. */
  lemma ArcLeadsBack(container: string, q: Path)
    requires IsContainerName(container) && ValidPath(q)
    ensures !BareRoot(B.Arc(container, q))
    ensures DestPath(B.Arc(container, q)) == Some(Dest(if container == LEGACY then B.ROOTFS else container, [B.ROOTFS] + q))
  {
    var p := [container, B.ROOTFS] + q;
    ContainerNameIsValid(container);
    assert ValidPath(p);
    JoinEnds(p);
    SplitOfJoin(p);
    assert StripLeft(Join(p)) == Join(p);
    assert p[2..] == q && p[1..] == [B.ROOTFS] + q;
  }

  lemma ManifestLeadsBack(container: string)
    requires IsContainerName(container)
    ensures var name := Join([container, B.MANIFEST]);
      && !BareRoot(name)
      && DestPath(name) == Some(if container == LEGACY then Dest(B.MANIFEST, [B.ROOTFS]) else Dest(container, [B.MANIFEST]))
  {
    var p := [container, B.MANIFEST];
    ContainerNameIsValid(container);
    assert ValidPath(p);
    JoinEnds(p);
    SplitOfJoin(p);
    assert StripLeft(Join(p)) == Join(p);
    assert p[1..] == [B.MANIFEST] && p[2..] == [];
    assert [B.ROOTFS] + [] == [B.ROOTFS];
    assert IsContainerName(B.MANIFEST) by {
      assert "_.-"[1] == '.';
    }
  }

  /** The three layouts a path of a container can be archived in lead to the
      same place: below the container's rootfs, below installed-rootfs and the
      container, and right below the container, unless that reads as one of
      the others. */
  lemma LayoutsLeadAlike(container: string, q: Path, slashes: string)
    requires IsContainerName(container) && container != "installed-rootfs" && ValidPath(q)
    requires forall i :: 0 <= i < |slashes| ==> slashes[i] == '/'
    ensures var there := Some(Dest(container, ["rootfs"] + q));
      && DestPath(slashes + Join([container, "rootfs"] + q)) == there
      && DestPath(slashes + Join(["installed-rootfs", container] + q)) == there
      && (q != [] && q[0] != "rootfs" && q != ["manifest.json"] ==> DestPath(slashes + Join([container] + q)) == there)
      && (q == [] ==> DestPath(slashes + Join([container] + q)).None?)
  {
    LayoutNamesAreValid();
    NewLayout(container, q, slashes);
    LegacyLayout(container, q, slashes);
    OldestLayout(container, q, slashes);
    hide *;
  }

  lemma NewLayout(container: string, q: Path, slashes: string)
    requires IsContainerName(container) && container != LEGACY && ValidPath(q) && (forall i :: 0 <= i < |slashes| ==> slashes[i] == '/')
    ensures DestPath(slashes + Join([container, B.ROOTFS] + q)) == Some(Dest(container, [B.ROOTFS] + q))
  {
    var x := [container, B.ROOTFS] + q;
    ContainerNameIsValid(container);
    LayoutNamesAreValid();
    MemberLeads(slashes, x);
    hide IsContainerName, DestPath, Join;
    assert x[1..][0] == B.ROOTFS && x[2..] == q;
  }

  lemma LegacyLayout(container: string, q: Path, slashes: string)
    requires IsContainerName(container) && ValidPath(q) && (forall i :: 0 <= i < |slashes| ==> slashes[i] == '/')
    ensures DestPath(slashes + Join([LEGACY, container] + q)) == Some(Dest(container, [B.ROOTFS] + q))
  {
    var x := [LEGACY, container] + q;
    ContainerNameIsValid(container);
    LayoutNamesAreValid();
    MemberLeads(slashes, x);
    hide IsContainerName, DestPath, Join;
    assert x[2..] == q;
  }

  lemma OldestLayout(container: string, q: Path, slashes: string)
    requires IsContainerName(container) && container != LEGACY && ValidPath(q) && (forall i :: 0 <= i < |slashes| ==> slashes[i] == '/')
    ensures q != [] && q[0] != B.ROOTFS && q != [B.MANIFEST] ==> DestPath(slashes + Join([container] + q)) == Some(Dest(container, [B.ROOTFS] + q))
    ensures q == [] ==> DestPath(slashes + Join([container] + q)).None?
  {
    var x := [container] + q;
    ContainerNameIsValid(container);
    assert x[1..] == q;
    if q == [] {
      SpelledMember(slashes, x);
      OneComponentLeadsNowhere(slashes + Join(x));
    } else {
      MemberLeads(slashes, x);
      hide IsContainerName, DestPath, Join;
    }
  }

  lemma OneComponentLeadsNowhere(name: string)
    requires |Split(StripLeft(name))| == 1
    ensures DestPath(name).None?
  {
  }

  lemma LayoutNamesAreValid()
    ensures ValidName("rootfs") && ValidName("installed-rootfs") && LEGACY == "installed-rootfs" && B.ROOTFS == "rootfs" && B.MANIFEST == "manifest.json"
    ensures LEGACY != B.ROOTFS && B.ROOTFS != B.MANIFEST
  {
    assert "manifest.json"[0] == 'm' && "rootfs"[0] == 'r' && "installed-rootfs"[0] == 'i';
  }

  /** A name that climbs, or leaves a component empty, leads nowhere. */
  lemma ClimbingLeadsNowhere(x: seq<string>, slashes: string)
    requires x != [] && Components(x) && x[0] != "" && (forall i :: 0 <= i < |slashes| ==> slashes[i] == '/')
    requires exists i :: 0 <= i < |x| && x[i] in {"", ".", ".."}
    ensures DestPath(slashes + Join(x)).None?
  {
    SpelledMember(slashes, x);
  }

  lemma {:induction false} SpelledMember(slashes: string, x: seq<string>)
    requires x != [] && Components(x) && x[0] != "" && (forall i :: 0 <= i < |slashes| ==> slashes[i] == '/')
    ensures StripLeft(slashes + Join(x)) == Join(x) && Split(Join(x)) == x && Join(x) != ""
  {
    SplitOfJoin(x);
    if slashes == "" {
      assert x[0][0] in x[0] && Join(x)[0] == x[0][0];
      assert slashes + Join(x) == Join(x);
    } else {
      assert (slashes + Join(x))[1..] == slashes[1..] + Join(x);
      SpelledMember(slashes[1..], x);
    }
  }

  lemma MemberLeads(slashes: string, x: Path)
    requires |x| > 1 && ValidPath(x) && (forall i :: 0 <= i < |slashes| ==> slashes[i] == '/')
    ensures DestPath(slashes + Join(x)) == DestOf(x)
  {
    SpelledMember(slashes, x);
    NoneClimbs(x);
    hide StripLeft, Split, Join, IsContainerName, DestOf, ValidName;
    var name := slashes + Join(x);
    assert StripLeft(name) != "" && Split(StripLeft(name)) == x;
  }

  lemma NoneClimbs(x: Path)
    requires ValidPath(x)
    ensures !exists i :: 0 <= i < |x| && x[i] in ["..", ".", ""]
  {
    forall i | 0 <= i < |x|
      ensures x[i] !in ["..", ".", ""]
    {
      assert ValidName(x[i]);
    }
  }

  // -------------------------------------------------------------------------
  // One member after another
  // -------------------------------------------------------------------------

  /** Under the rootfs. */
  function InRootfs(q: Path): Path {
    [B.ROOTFS] + q
  }

  /** The mode a restored file is left with. */
  function FileMode(cfg: Config, q: Path, mode: Mode): Mode {
    Given(cfg, InRootfs(q), NEW_FILE, mode)
  }

  function DirMode(cfg: Config, q: Path, mode: Mode): Mode {
    Given(cfg, InRootfs(q), NEW_DIR, mode)
  }

  /** The restored node for an archived one; a directory's mode before the
      deferred modes are applied. */
  ghost predicate Like(d: B.Rootfs, q: Path, n: FsNode, cfg: Config)
    requires B.Wanted(d, q)
  {
    match d.tree[q]
    case Dir(m) => n.Dir? && n.dir.mode == DirMode(cfg, q, TarExtract.AtLeastOwner(m))
    case Link(target) => n == Link(target)
    case File(i) => n == File(FileInfo(d.inodes[i].data, FileMode(cfg, q, d.inodes[i].mode), cfg.now))
  }

  /** What has been restored so far, and nothing else has changed. */
  ghost predicate Holds(d: B.Rootfs, cfg: Config, fs0: Fs, paths: seq<Path>, fs: Fs) {
    && ValidFs(fs) && (forall q :: q in paths ==> B.Wanted(d, q))
    && (forall q :: InRootfs(q) in fs.tree <==> q in paths)
    && (forall q :: q in paths ==> Like(d, q, fs.tree[InRootfs(q)], cfg))
    && (forall p :: p == [] || p[0] != B.ROOTFS ==>
          (p in fs.tree <==> p in Cleared(fs0).tree) && (p in fs.tree ==> fs.tree[p] == Cleared(fs0).tree[p]))
  }

  /** A restored path whose ancestors are all directories in the archive
      resolves to itself. */
  lemma RestoredResolves(d: B.Rootfs, cfg: Config, fs0: Fs, paths: seq<Path>, fs: Fs, q: Path)
    requires B.ValidRootfs(d) && Holds(d, cfg, fs0, paths, fs) && q in d.tree && !d.tree[q].Link?
    ensures Resolve(RootfsTree(fs.tree), q) == At(q, MAX_HOPS)
  {
    var t := RootfsTree(fs.tree);
    PathsAreValid(d.tree, q);
    forall i | 0 < i <= |q|
      ensures !IsLink(t, q[..i])
    {
      var a := q[..i];
      if i < |q| {
        AncestorsAreDirs(d.tree, a, q);
      } else {
        assert a == q;
      }
      if a in t {
        assert InRootfs(a) in fs.tree && Like(d, a, fs.tree[InRootfs(a)], cfg);
      }
    }
    assert [] + q == q;
    LinkFreeResolvesToItself(t, [], q, MAX_HOPS);
  }

  /** Where a wanted path's member goes. */
  function KeyOf(p: Path): Path {
    if p == [] then [] else InRootfs(Parent(p))
  }

  function LeafOf(p: Path): Name {
    if p == [] then B.ROOTFS else Leaf(p)
  }

  lemma KeyAndLeaf(p: Path)
    ensures KeyOf(p) + [LeafOf(p)] == InRootfs(p) && Leaf(InRootfs(p)) == LeafOf(p)
  {
  }

  lemma KeyIsThere(d: B.Rootfs, cfg: Config, fs0: Fs, paths: seq<Path>, fs: Fs, p: Path, mode: Mode)
    requires B.ValidRootfs(d) && Holds(d, cfg, fs0, paths, fs) && B.Wanted(d, p) && (p != [] ==> Parent(p) in paths)
    ensures ParentKey(fs, InRootfs(p)) == Some(KeyOf(p)) && IsDir(fs.tree, KeyOf(p))
    ensures TarExtract.DescendCreate(fs, [], KeyOf(p), mode) == (fs, true)
  {
    if p != [] {
      assert Rooted(d.tree, p);
      RestoredResolves(d, cfg, fs0, paths, fs, Parent(p));
      assert InRootfs(p)[1..|InRootfs(p)| - 1] == Parent(p);
      assert Like(d, Parent(p), fs.tree[InRootfs(Parent(p))], cfg);
    }
    assert [] + KeyOf(p) == KeyOf(p);
    TarExtract.NothingToCreate(fs, [], KeyOf(p), mode);
  }

  /** A hard-link member finds the first name's file. */
  lemma FirstNameIsThere(d: B.Rootfs, cfg: Config, fs0: Fs, paths: seq<Path>, fs: Fs, f: Path, i: nat)
    requires B.ValidRootfs(d) && Holds(d, cfg, fs0, paths, fs) && f in paths && d.tree[f] == File(i)
    ensures Source(fs, InRootfs(f)) == Some(FileInfo(d.inodes[i].data, FileMode(cfg, f, d.inodes[i].mode), cfg.now))
  {
    assert f != [];
    RestoredResolves(d, cfg, fs0, paths, fs, f);
    assert InRootfs(f)[1..] == f;
    assert Like(d, f, fs.tree[InRootfs(f)], cfg);
    assert Rooted(fs.tree, InRootfs(f));
    TarExtract.DirIsReachable(fs, Parent(InRootfs(f)));
  }

  lemma LikeNew(d: B.Rootfs, cfg: Config, fs0: Fs, paths: seq<Path>, fs: Fs, fs': Fs, p: Path)
    requires Holds(d, cfg, fs0, paths, fs) && p !in paths && B.Wanted(d, p) && ValidFs(fs')
    requires forall q :: q != InRootfs(p) ==> (q in fs'.tree <==> q in fs.tree) && (q in fs.tree ==> fs'.tree[q] == fs.tree[q])
    requires InRootfs(p) in fs'.tree && Like(d, p, fs'.tree[InRootfs(p)], cfg)
    ensures Holds(d, cfg, fs0, paths + [p], fs')
  {
    forall q
      ensures InRootfs(q) == InRootfs(p) <==> q == p
    {
      assert InRootfs(q)[1..] == q && InRootfs(p)[1..] == p;
    }
  }

  ghost function DeferredFor(d: B.Rootfs, p: Path): seq<Deferred> {
    if IsDir(d.tree, p) && NeedsDeferring(d.tree[p].dir) then [Deferred(KeyOf(p), LeafOf(p), d.tree[p].dir)] else []
  }

  lemma NewDirectory(d: B.Rootfs, cfg: Config, fs0: Fs, paths: seq<Path>, fs: Fs, p: Path)
    requires B.ValidRootfs(d) && Holds(d, cfg, fs0, paths, fs) && B.Wanted(d, p) && p !in paths
    requires IsDir(fs.tree, KeyOf(p)) && IsDir(d.tree, p)
    ensures Holds(d, cfg, fs0, paths + [p], MadeDir(fs, InRootfs(p), d.tree[p].dir, cfg))
  {
    KeyAndLeaf(p);
    PathsAreValid(d.tree, p);
    var fs1 := WithDir(fs, InRootfs(p), NEW_DIR);
    WithDirIsValid(fs, InRootfs(p), NEW_DIR);
    WithModeIsValid(fs1, InRootfs(p), DirMode(cfg, p, TarExtract.AtLeastOwner(d.tree[p].dir)));
    LikeNew(d, cfg, fs0, paths, fs, MadeDir(fs, InRootfs(p), d.tree[p].dir, cfg), p);
  }

  /** A directory where nothing stood. */
  function MadeDir(s: Fs, p: Path, mode: Mode, cfg: Config): Fs {
    WithMode(WithDir(s, p, NEW_DIR), p, Given(cfg, p, NEW_DIR, TarExtract.AtLeastOwner(mode)))
  }

  lemma NewOther(d: B.Rootfs, cfg: Config, fs0: Fs, paths: seq<Path>, fs: Fs, p: Path, n: FsNode)
    requires B.ValidRootfs(d) && Holds(d, cfg, fs0, paths, fs) && B.Wanted(d, p) && p !in paths
    requires IsDir(fs.tree, KeyOf(p)) && !n.Dir? && Like(d, p, n, cfg)
    ensures Holds(d, cfg, fs0, paths + [p], WithNode(fs, InRootfs(p), n))
  {
    KeyAndLeaf(p);
    PathsAreValid(d.tree, p);
    WithNodeIsValid(fs, InRootfs(p), n);
    LikeNew(d, cfg, fs0, paths, fs, WithNode(fs, InRootfs(p), n), p);
  }

  /** Where nothing stands, nothing is removed first. */
  lemma PlacedFresh(s: Fs, p: Path, e: Entry, source: Option<FileInfo>, cfg: Config)
    requires ValidFs(s) && p !in s.tree && (e.body.LinkBody? ==> e.body.target != "")
    ensures e.body.DirBody? ==>
      Place(s, p, e, source, cfg) == (MadeDir(s, p, e.mode, cfg), true)
    ensures e.body.LinkBody? ==> Place(s, p, e, source, cfg) == (WithNode(s, p, Link(e.body.target)), true)
    ensures e.body.RegBody? ==> Place(s, p, e, source, cfg) == (WithNode(s, p, File(FileInfo(e.body.data, Given(cfg, p, NEW_FILE, e.mode), cfg.now))), true)
    ensures e.body.HardBody? && source.Some? && e.mode != 0 ==>
      Place(s, p, e, source, cfg) == (WithNode(s, p, File(FileInfo(source.value.data, Given(cfg, p, NEW_FILE, e.mode), cfg.now))), true)
  {
    TarExtract.NothingToRemove(s, p);
  }

  /** A hard link's source, if it has the content p should have. */
  predicate Supplies(source: Option<FileInfo>, d: B.Rootfs, p: Path) {
    source.Some? && IsFile(d.tree, p) && d.tree[p].file in d.inodes && source.value.data == d.inodes[d.tree[p].file].data
  }

  /** The entry is a member for p: its kind and mode, and its content too
      unless it is a hard link. */
  ghost predicate MemberOf(e: Entry, d: B.Rootfs, p: Path)
    requires B.Wanted(d, p)
  {
    match d.tree[p]
    case Dir(m) => e.body.DirBody? && e.mode == m
    case Link(target) => e.body == B.LinkBody(target)
    case File(i) => e.mode == d.inodes[i].mode && (e.body.HardBody? || e.body == B.RegBody(d.inodes[i].data))
  }

  /** Placing a member that is not there yet. */
  lemma Placed(d: B.Rootfs, cfg: Config, fs0: Fs, paths: seq<Path>, fs: Fs, e: Entry, p: Path, source: Option<FileInfo>)
    requires B.ValidRootfs(d) && Holds(d, cfg, fs0, paths, fs) && B.Wanted(d, p) && p !in paths
    requires IsDir(fs.tree, KeyOf(p)) && MemberOf(e, d, p)
    requires e.body.HardBody? ==> Supplies(source, d, p)
    ensures var (fs', done) := Place(fs, InRootfs(p), e, source, cfg);
      done && Holds(d, cfg, fs0, paths + [p], fs')
  {
    if IsLink(d.tree, p) {
      PlacedFresh(fs, InRootfs(p), e, source, cfg);
      NewOther(d, cfg, fs0, paths, fs, p, Link(d.tree[p].target));
    } else {
      PlacedFresh(fs, InRootfs(p), e, source, cfg);
      if d.tree[p].Dir? {
        NewDirectory(d, cfg, fs0, paths, fs, p);
      } else {
        var i := d.tree[p].file;
        NewOther(d, cfg, fs0, paths, fs, p, File(FileInfo(d.inodes[i].data, FileMode(cfg, p, d.inodes[i].mode), cfg.now)));
      }
    }
  }

  lemma ClearedHolds(d: B.Rootfs, cfg: Config, fs0: Fs)
    requires ValidFs(fs0)
    ensures Holds(d, cfg, fs0, [], Cleared(fs0))
  {
    RemovedIsValid(fs0, [B.ROOTFS]);
    RemovedIsValid(Removed(fs0, [B.ROOTFS]), [SHM]);
    forall q
      ensures InRootfs(q) !in Cleared(fs0).tree
    {
      assert [B.ROOTFS] <= InRootfs(q);
    }
  }

  /** The state between two members. */
  ghost predicate Between(d: B.Rootfs, cfg: Config, fs0: Fs, paths: seq<Path>, container: string, st: State) {
    && (st.name.None? || st.name == Some(container)) && (paths != [] ==> st.name.Some?)
    && (st.committed <==> paths != [])
    && (if paths == [] then st.fs == fs0 else Holds(d, cfg, fs0, paths, st.fs))
    && st.deferred == AllDeferred(d, paths)
  }

  ghost function AllDeferred(d: B.Rootfs, paths: seq<Path>): seq<Deferred> {
    if paths == [] then [] else AllDeferred(d, paths[..|paths| - 1]) + DeferredFor(d, paths[|paths| - 1])
  }

  lemma LandedThere(d: B.Rootfs, cfg: Config, fs0: Fs, paths: seq<Path>, st: State, e: Entry, p: Path, source: Option<FileInfo>)
    requires B.ValidRootfs(d) && Holds(d, cfg, fs0, paths, st.fs) && B.Wanted(d, p) && p !in paths
    requires IsDir(st.fs.tree, KeyOf(p)) && MemberOf(e, d, p)
    requires e.body.HardBody? ==> Supplies(source, d, p)
    ensures var r := Landed(st, KeyOf(p), LeafOf(p), e, source, cfg);
      && r.Go? && Holds(d, cfg, fs0, paths + [p], r.st.fs)
      && r.st == st.(fs := r.st.fs, deferred := st.deferred + DeferredFor(d, p))
  {
    KeyAndLeaf(p);
    Placed(d, cfg, fs0, paths, st.fs, e, p, source);
  }

  /** What is left of Delivered when the parent is there. */
  lemma DeliveredThere(st: State, e: Entry, p: Path, linked: Path, cfg: Config)
    requires linked != [] && ParentKey(st.fs, InRootfs(p)) == Some(KeyOf(p))
    requires TarExtract.DescendCreate(st.fs, [], KeyOf(p), cfg.implied) == (st.fs, true)
    requires e.body.HardBody? ==> Source(st.fs, linked).Some?
    ensures Delivered(st, e, InRootfs(p), linked, cfg) ==
      Landed(st, KeyOf(p), LeafOf(p), e, if e.body.HardBody? then Source(st.fs, linked) else None, cfg)
  {
    KeyAndLeaf(p);
    assert st.(fs := st.fs) == st;
  }

  // -------------------------------------------------------------------------
  // Files that are the manifest under another name
  // -------------------------------------------------------------------------

  /** A file archived as a hard link to the manifest, which comes first. */
  predicate Shares(d: B.Rootfs, p: Path) {
    IsFile(d.tree, p) && B.ManifestKept(d) && d.manifest == Some(d.tree[p].file)
  }

  /** What such a link finds: the manifest that was there before, since the
      archived one is only written at the end. */
  function OldManifest(fs0: Fs): Option<Bytes> {
    var f := Source(fs0, [B.MANIFEST]);
    if f.Some? then Some(f.value.data) else None
  }

  predicate Lands(d: B.Rootfs, was: Option<Bytes>, p: Path) {
    Shares(d, p) ==> was.Some?
  }

  ghost function LandedOf(d: B.Rootfs, was: Option<Bytes>, paths: seq<Path>): seq<Path> {
    if paths == [] then []
    else
      var p := paths[|paths| - 1];
      LandedOf(d, was, paths[..|paths| - 1]) + if Lands(d, was, p) then [p] else []
  }

  /** The rootfs that comes out: those files have the old manifest's content. */
  function Seen(d: B.Rootfs, was: Option<Bytes>): B.Rootfs {
    if B.ManifestKept(d) && was.Some?
    then d.(inodes := d.inodes[d.manifest.value := d.inodes[d.manifest.value].(data := was.value)]) else d
  }

  lemma SeenIsAlike(d: B.Rootfs, was: Option<Bytes>)
    requires B.ValidRootfs(d)
    ensures B.ValidRootfs(Seen(d, was)) && Seen(d, was).tree == d.tree
    ensures forall p :: B.Wanted(Seen(d, was), p) <==> B.Wanted(d, p)
  {
  }

  lemma {:induction false} LandedExactly(d: B.Rootfs, was: Option<Bytes>, paths: seq<Path>)
    ensures forall p :: p in LandedOf(d, was, paths) <==> p in paths && Lands(d, was, p)
  {
    if paths != [] {
      LandedExactly(d, was, paths[..|paths| - 1]);
      assert paths == paths[..|paths| - 1] + [paths[|paths| - 1]];
    }
  }

  lemma OneMoreLanded(d: B.Rootfs, was: Option<Bytes>, paths: seq<Path>, p: Path)
    ensures LandedOf(d, was, paths + [p]) == LandedOf(d, was, paths) + if Lands(d, was, p) then [p] else []
  {
    assert (paths + [p])[..|paths|] == paths;
  }

  lemma ArchivedMember(d: B.Rootfs, container: string, paths: seq<Path>, p: Path, was: Option<Bytes>)
    requires B.ValidRootfs(d) && B.Wanted(d, p)
    ensures B.Wanted(Seen(d, was), p) && MemberOf(B.EntryOf(d, container, paths, p), Seen(d, was), p)
    ensures B.EntryOf(d, container, paths, p).name == B.Arc(container, p)
    ensures Shares(d, p) ==> B.EntryOf(d, container, paths, p).body == B.HardBody(B.ManifestName(container))
  {
  }

  /** The container directory's own manifest, as long as nobody touches it. */
  lemma ManifestAsBefore(d: B.Rootfs, cfg: Config, fs0: Fs, paths: seq<Path>, fs: Fs)
    requires Holds(d, cfg, fs0, paths, fs) && ValidFs(fs0)
    ensures Source(fs, [B.MANIFEST]) == Source(fs0, [B.MANIFEST])
  {
    var m: Path := [B.MANIFEST];
    assert m[0] != B.ROOTFS && m[0] != SHM && Parent(m) == [];
    assert !([B.ROOTFS] <= m) && !([SHM] <= m) && !([B.ROOTFS] <= []) && !([SHM] <= []);
    assert m in fs.tree <==> m in fs0.tree;
    TarExtract.DirIsReachable(fs, []);
    TarExtract.DirIsReachable(fs0, []);
  }

  /** A hard-link member names a file that has been restored already, or the
      manifest that was there before. */
  lemma Linked(d: B.Rootfs, cfg: Config, fs0: Fs, paths: seq<Path>, fs: Fs, container: string, p: Path) returns (linked: Path)
    requires B.ValidRootfs(d) && ValidFs(fs0) && Holds(Seen(d, OldManifest(fs0)), cfg, fs0, LandedOf(d, OldManifest(fs0), paths), fs)
    requires B.Wanted(d, p) && IsContainerName(container) && container != LEGACY
    ensures linked != []
    ensures var e := B.EntryOf(d, container, paths, p);
      if e.body.HardBody?
      then DestPath(e.body.linkname) == Some(Dest(container, linked))
        && (Lands(d, OldManifest(fs0), p) ==> Supplies(Source(fs, linked), Seen(d, OldManifest(fs0)), p))
        && (!Lands(d, OldManifest(fs0), p) ==> Source(fs, linked).None?)
      else linked == InRootfs(p) && Lands(d, OldManifest(fs0), p)
  {
    var was := OldManifest(fs0);
    linked := InRootfs(p);
    ArchivedMember(d, container, paths, p, was);
    if Shares(d, p) {
      linked := [B.MANIFEST];
      ManifestLeadsBack(container);
      ManifestAsBefore(Seen(d, was), cfg, fs0, LandedOf(d, was, paths), fs);
    } else if B.EntryOf(d, container, paths, p).body.HardBody? {
      var i := d.tree[p].file;
      var f := B.FirstOf(d, paths, i).value;
      B.FirstIsAmong(d, paths, i);
      LandedExactly(d, was, paths);
      PathsAreValid(d.tree, f);
      ArcLeadsBack(container, f);
      SeenIsAlike(d, was);
      FirstNameIsThere(Seen(d, was), cfg, fs0, LandedOf(d, was, paths), fs, f, i);
      linked := InRootfs(f);
    }
  }

  function Committed(st: State): State {
    if st.committed then st else st.(committed := true, fs := Cleared(st.fs))
  }

  /** A member is read: which container, where to, and the commit. */
  lemma MemberIsRead(st: State, e: Entry, container: string, p: Path, linked: Path, cfg: Config)
    requires !BareRoot(e.name) && DestPath(e.name) == Some(Dest(container, InRootfs(p))) && linked != []
    requires !e.body.DeviceBody? && !e.body.OtherBody? && (st.name.None? || st.name == Some(container))
    requires if e.body.HardBody? then DestPath(e.body.linkname) == Some(Dest(container, linked)) else linked == InRootfs(p)
    ensures Process(st, e, cfg) == Delivered(Committed(st.(name := Some(container))), e, InRootfs(p), linked, cfg)
  {
  }

  /** A hard link that finds nothing is passed over. */
  lemma PassedOver(st: State, e: Entry, p: Path, linked: Path, cfg: Config)
    requires linked != [] && ParentKey(st.fs, InRootfs(p)) == Some(KeyOf(p))
    requires TarExtract.DescendCreate(st.fs, [], KeyOf(p), cfg.implied) == (st.fs, true)
    requires e.body.HardBody? && Source(st.fs, linked).None?
    ensures Delivered(st, e, InRootfs(p), linked, cfg) == Go(st)
  {
    assert st.(fs := st.fs) == st;
  }

  /** How far restoring the archive of d has got. */
  ghost predicate Underway(d: B.Rootfs, cfg: Config, fs0: Fs, paths: seq<Path>, container: string, st: State) {
    Between(Seen(d, OldManifest(fs0)), cfg, fs0, LandedOf(d, OldManifest(fs0), paths), container, st)
  }

  lemma ReadyForOne(d: B.Rootfs, cfg: Config, fs0: Fs, paths: seq<Path>, st: State, container: string, p: Path)
    requires B.ValidRootfs(d) && ValidFs(fs0)
    requires Underway(d, cfg, fs0, paths, container, st) && B.Wanted(d, p) && p !in paths && (p != [] ==> Parent(p) in paths)
    ensures var st1 := Committed(st.(name := Some(container)));
      var seen, landed := Seen(d, OldManifest(fs0)), LandedOf(d, OldManifest(fs0), paths);
      && B.ValidRootfs(seen) && B.Wanted(seen, p) && p !in landed && (p != [] ==> Parent(p) in landed)
      && Holds(seen, cfg, fs0, landed, st1.fs)
      && ParentKey(st1.fs, InRootfs(p)) == Some(KeyOf(p)) && IsDir(st1.fs.tree, KeyOf(p))
      && TarExtract.DescendCreate(st1.fs, [], KeyOf(p), cfg.implied) == (st1.fs, true)
      && (Shares(d, p) ==> st1 == st)
  {
    var was := OldManifest(fs0);
    SeenIsAlike(d, was);
    LandedExactly(d, was, paths);
    assert p != [] ==> Rooted(d.tree, p);
    ClearedHolds(Seen(d, was), cfg, fs0);
    var st1 := Committed(st.(name := Some(container)));
    KeyIsThere(Seen(d, was), cfg, fs0, LandedOf(d, was, paths), st1.fs, p, cfg.implied);
  }

  /** The next member, when it lands. */
  lemma MemberLands(d: B.Rootfs, cfg: Config, fs0: Fs, paths: seq<Path>, st: State, container: string, e: Entry, p: Path, linked: Path)
    requires B.ValidRootfs(d) && B.Wanted(d, p) && p !in paths && linked != []
    requires Between(d, cfg, fs0, paths, container, st)
    requires var st1 := Committed(st.(name := Some(container)));
      && Holds(d, cfg, fs0, paths, st1.fs) && MemberOf(e, d, p)
      && ParentKey(st1.fs, InRootfs(p)) == Some(KeyOf(p)) && IsDir(st1.fs.tree, KeyOf(p))
      && TarExtract.DescendCreate(st1.fs, [], KeyOf(p), cfg.implied) == (st1.fs, true)
      && (e.body.HardBody? ==> Supplies(Source(st1.fs, linked), d, p))
    ensures var r := Delivered(Committed(st.(name := Some(container))), e, InRootfs(p), linked, cfg);
      r.Go? && Between(d, cfg, fs0, paths + [p], container, r.st) && r.st.manifest == st.manifest
  {
    hide Holds, Source, ParentKey, TarExtract.DescendCreate, B.ValidRootfs, MemberOf, B.Wanted, Supplies, Delivered, Landed;
    var st1 := Committed(st.(name := Some(container)));
    assert Supplies(Source(st1.fs, linked), d, p) ==> Source(st1.fs, linked).Some? by {
      SuppliesSomething(Source(st1.fs, linked), d, p);
    }
    DeliveredThere(st1, e, p, linked, cfg);
    LandedThere(d, cfg, fs0, paths, st1, e, p, if e.body.HardBody? then Source(st1.fs, linked) else None);
    assert (paths + [p])[..|paths|] == paths;
  }

  lemma SuppliesSomething(source: Option<FileInfo>, d: B.Rootfs, p: Path)
    ensures Supplies(source, d, p) ==> source.Some?
  {
  }

  lemma OneMember(d: B.Rootfs, cfg: Config, fs0: Fs, paths: seq<Path>, st: State, container: string, p: Path)
    requires B.ValidRootfs(d) && ValidFs(fs0) && IsContainerName(container) && container != LEGACY
    requires Underway(d, cfg, fs0, paths, container, st) && B.Wanted(d, p) && p !in paths && (p != [] ==> Parent(p) in paths)
    ensures var r := Process(st, B.EntryOf(d, container, paths, p), cfg);
      r.Go? && Underway(d, cfg, fs0, paths + [p], container, r.st) && r.st.manifest == st.manifest
  {
    var was, e := OldManifest(fs0), B.EntryOf(d, container, paths, p);
    var seen, landed := Seen(d, was), LandedOf(d, was, paths);
    PathsAreValid(d.tree, p);
    ArcLeadsBack(container, p);
    ReadyForOne(d, cfg, fs0, paths, st, container, p);
    ArchivedMember(d, container, paths, p, was);
    OneMoreLanded(d, was, paths, p);
    var st1 := Committed(st.(name := Some(container)));
    var linked := Linked(d, cfg, fs0, paths, st1.fs, container, p);
    assert Holds(seen, cfg, fs0, landed, st1.fs) && B.Wanted(seen, p);
    assert MemberOf(e, seen, p) && !e.body.DeviceBody? && !e.body.OtherBody? && (st.name.None? || st.name == Some(container));
    hide *;
    MemberIsRead(st, e, container, p, linked, cfg);
    MemberArrives(d, cfg, fs0, paths, st, container, e, p, linked);
  }

  lemma MemberArrives(d: B.Rootfs, cfg: Config, fs0: Fs, paths: seq<Path>, st: State, container: string, e: Entry, p: Path, linked: Path)
    requires B.ValidRootfs(Seen(d, OldManifest(fs0))) && Underway(d, cfg, fs0, paths, container, st)
    requires B.Wanted(Seen(d, OldManifest(fs0)), p) && p !in LandedOf(d, OldManifest(fs0), paths) && linked != []
    requires LandedOf(d, OldManifest(fs0), paths + [p]) == LandedOf(d, OldManifest(fs0), paths) + if Lands(d, OldManifest(fs0), p) then [p] else []
    requires var st1 := Committed(st.(name := Some(container)));
      var seen, landed := Seen(d, OldManifest(fs0)), LandedOf(d, OldManifest(fs0), paths);
      && Holds(seen, cfg, fs0, landed, st1.fs) && MemberOf(e, seen, p)
      && ParentKey(st1.fs, InRootfs(p)) == Some(KeyOf(p)) && IsDir(st1.fs.tree, KeyOf(p))
      && TarExtract.DescendCreate(st1.fs, [], KeyOf(p), cfg.implied) == (st1.fs, true)
      && (Shares(d, p) ==> st1 == st)
      && (if Lands(d, OldManifest(fs0), p) then e.body.HardBody? ==> Supplies(Source(st1.fs, linked), seen, p)
          else e.body.HardBody? && Source(st1.fs, linked).None?)
    ensures var r := Delivered(Committed(st.(name := Some(container))), e, InRootfs(p), linked, cfg);
      r.Go? && Underway(d, cfg, fs0, paths + [p], container, r.st) && r.st.manifest == st.manifest
  {
    var seen, landed := Seen(d, OldManifest(fs0)), LandedOf(d, OldManifest(fs0), paths);
    var st1 := Committed(st.(name := Some(container)));
    hide Delivered, Holds, Between, Supplies, Source, ParentKey, Seen, LandedOf, MemberOf, B.Wanted, B.ValidRootfs, Committed;
    if Lands(d, OldManifest(fs0), p) {
      MemberLands(seen, cfg, fs0, landed, st, container, e, p, linked);
    } else {
      PassedOver(st1, e, p, linked, cfg);
      assert landed + [] == landed;
    }
  }

  lemma {:induction false} ProcessAllAppend(st: State, es: seq<Entry>, e: Entry, c: Config)
    ensures ProcessAll(st, es + [e], c) ==
      var r := ProcessAll(st, es, c);
      if r.Go? then Process(r.st, e, c) else r
    decreases |es|
  {
    if es == [] {
      assert es + [e] == [e];
    } else {
      assert (es + [e])[1..] == es[1..] + [e];
      match Process(st, es[0], c)
      case Go(st1) => ProcessAllAppend(st1, es[1..], e, c);
      case Exit(_) =>
    }
  }

  /** Every wanted path once, after its parent. */
  ghost predicate InOrder(d: B.Rootfs, paths: seq<Path>) {
    && (forall p :: p in paths ==> B.Wanted(d, p))
    && (forall i, j :: 0 <= i < j < |paths| ==> paths[i] != paths[j])
    && (forall i :: 0 <= i < |paths| ==> B.ParentEarlier(paths, i))
  }

  lemma InOrderInit(d: B.Rootfs, paths: seq<Path>)
    requires InOrder(d, paths) && paths != []
    ensures var init, p := paths[..|paths| - 1], paths[|paths| - 1];
      InOrder(d, init) && paths == init + [p] && B.Wanted(d, p) && p !in init && (p != [] ==> Parent(p) in init)
  {
    hide B.Wanted;
    var init := paths[..|paths| - 1];
    forall i | 0 <= i < |init|
      ensures B.ParentEarlier(init, i)
    {
      assert B.ParentEarlier(paths, i) && init[i] == paths[i] && init[..i] == paths[..i];
    }
    assert B.ParentEarlier(paths, |init|);
  }

  lemma {:induction false} AllMembers(d: B.Rootfs, cfg: Config, fs0: Fs, paths: seq<Path>, st: State, container: string)
    requires B.ValidRootfs(d) && ValidFs(fs0) && IsContainerName(container) && container != LEGACY
    requires Underway(d, cfg, fs0, [], container, st) && InOrder(d, paths)
    ensures var r := ProcessAll(st, B.Archive(d, container, paths), cfg);
      r.Go? && Underway(d, cfg, fs0, paths, container, r.st) && r.st.manifest == st.manifest
    decreases |paths|
  {
    if paths != [] {
      var init, p := paths[..|paths| - 1], paths[|paths| - 1];
      InOrderInit(d, paths);
      hide Process, Underway, B.EntryOf;
      AllMembers(d, cfg, fs0, init, st, container);
      ProcessAllAppend(st, B.Archive(d, container, init), B.EntryOf(d, container, init, p), cfg);
      OneMember(d, cfg, fs0, init, ProcessAll(st, B.Archive(d, container, init), cfg).st, container, p);
    }
  }

  lemma InOrderMore(d: B.Rootfs, paths: seq<Path>, p: Path)
    requires InOrder(d, paths) && B.Wanted(d, p) && p !in paths && (p != [] ==> Parent(p) in paths)
    ensures InOrder(d, paths + [p])
  {
    hide B.Wanted;
    var more := paths + [p];
    forall i | 0 <= i < |more|
      ensures B.ParentEarlier(more, i)
    {
      assert i < |paths| ==> B.ParentEarlier(paths, i) && more[i] == paths[i];
      assert more[..i] == paths[..i];
    }
  }

  /** What lands is in order too: no file has anything beneath it. */
  lemma {:induction false} LandedInOrder(d: B.Rootfs, was: Option<Bytes>, paths: seq<Path>)
    requires B.ValidRootfs(d) && InOrder(d, paths)
    ensures InOrder(Seen(d, was), LandedOf(d, was, paths))
    decreases |paths|
  {
    if paths != [] {
      var init, p := paths[..|paths| - 1], paths[|paths| - 1];
      InOrderInit(d, paths);
      LandedInOrder(d, was, init);
      SeenIsAlike(d, was);
      LandedExactly(d, was, init);
      assert p != [] ==> Rooted(d.tree, p);
      assert LandedOf(d, was, init) + [] == LandedOf(d, was, init);
      if Lands(d, was, p) {
        InOrderMore(Seen(d, was), LandedOf(d, was, init), p);
      }
    }
  }

  // -------------------------------------------------------------------------
  // The deferred modes
  // -------------------------------------------------------------------------

  function Target(x: Deferred): Path {
    x.key + [x.name]
  }

  ghost predicate Open(fs: Fs, p: Path) {
    IsDir(fs.tree, p) && B.Readable(fs.tree[p].dir.mode) && B.Searchable(fs.tree[p].dir.mode)
  }

  /** Directories to be given their modes, all still open above, parents
      before what they hold. */
  ghost predicate ToSeal(fs: Fs, ds: seq<Deferred>) {
    && (forall i :: 0 <= i < |ds| ==> IsDir(fs.tree, Target(ds[i])))
    && (forall i, p :: 0 <= i < |ds| && p < Target(ds[i]) ==> Open(fs, p))
    && (forall i, j :: 0 <= i < j < |ds| ==> !(Target(ds[j]) <= Target(ds[i])))
  }

  function ModeAt(fs: Fs, x: Deferred, cfg: Config): Mode
    requires IsDir(fs.tree, Target(x))
  {
    Given(cfg, Target(x), fs.tree[Target(x)].dir.mode, x.mode)
  }

  lemma OneModeIsApplied(fs: Fs, x: Deferred, cfg: Config)
    requires IsDir(fs.tree, Target(x)) && forall p :: p < Target(x) ==> Open(fs, p)
    ensures ApplyMode(fs, x, cfg) == WithMode(fs, Target(x), ModeAt(fs, x, cfg))
  {
    forall i | 0 <= i <= |x.key|
      ensures Open(fs, x.key[..i])
    {
      assert x.key[..i] < Target(x);
    }
    assert x.key[..|x.key|] == x.key;
  }

  /** Sealing the last leaves the others to be sealed. */
  lemma StillToSeal(fs: Fs, ds: seq<Deferred>, cfg: Config)
    requires ToSeal(fs, ds) && ds != []
    ensures var init, last := ds[..|ds| - 1], ds[|ds| - 1];
      && ApplyMode(fs, last, cfg) == WithMode(fs, Target(last), ModeAt(fs, last, cfg)) && ToSeal(ApplyMode(fs, last, cfg), init)
      && forall i :: 0 <= i < |init| ==> Target(init[i]) != Target(last)
  {
    var init, last := ds[..|ds| - 1], ds[|ds| - 1];
    OneModeIsApplied(fs, last, cfg);
    var fs1 := WithMode(fs, Target(last), ModeAt(fs, last, cfg));
    forall i | 0 <= i < |init|
      ensures Target(init[i]) != Target(last) && IsDir(fs1.tree, Target(init[i]))
    {
      assert init[i] == ds[i];
    }
    forall i, p | 0 <= i < |init| && p < Target(init[i])
      ensures Open(fs1, p)
    {
      assert init[i] == ds[i] && Open(fs, p);
    }
  }

  ghost predicate Sealed(fs: Fs, ds: seq<Deferred>, cfg: Config, fs': Fs) {
    && fs'.tree.Keys == fs.tree.Keys
    && (forall i :: 0 <= i < |ds| ==>
          IsDir(fs.tree, Target(ds[i])) && Target(ds[i]) in fs'.tree
          && fs'.tree[Target(ds[i])] == Dir(fs.tree[Target(ds[i])].dir.(mode := ModeAt(fs, ds[i], cfg))))
    && (forall p :: p in fs.tree && p in fs'.tree && fs'.tree[p] != fs.tree[p] ==> exists i :: 0 <= i < |ds| && Target(ds[i]) == p)
  }

  /** Sealed last to first, every directory gets its mode, whatever the modes
      are, unless it cannot be set there, and nothing else changes. */
  lemma {:induction false} EveryModeIsApplied(fs: Fs, ds: seq<Deferred>, cfg: Config)
    requires ToSeal(fs, ds)
    ensures Sealed(fs, ds, cfg, ApplyModes(fs, ds, cfg))
    decreases |ds|
  {
    if ds != [] {
      StillToSeal(fs, ds, cfg);
      var fs1 := ApplyMode(fs, ds[|ds| - 1], cfg);
      EveryModeIsApplied(fs1, ds[..|ds| - 1], cfg);
      SealedOneMore(fs, ds, cfg, fs1, ApplyModes(fs, ds, cfg));
    }
  }

  lemma SealedOneMore(fs: Fs, ds: seq<Deferred>, cfg: Config, fs1: Fs, fs': Fs)
    requires ds != [] && ToSeal(fs, ds)
    requires fs1 == WithMode(fs, Target(ds[|ds| - 1]), ModeAt(fs, ds[|ds| - 1], cfg))
    requires forall i :: 0 <= i < |ds| - 1 ==> Target(ds[i]) != Target(ds[|ds| - 1])
    requires Sealed(fs1, ds[..|ds| - 1], cfg, fs')
    ensures Sealed(fs, ds, cfg, fs')
  {
    var init, last := ds[..|ds| - 1], ds[|ds| - 1];
    assert forall i :: 0 <= i < |init| ==> init[i] == ds[i];
    hide Target;
    LastIsSealed(fs, ds, cfg, fs1, fs');
    forall i | 0 <= i < |ds|
      ensures IsDir(fs.tree, Target(ds[i])) && Target(ds[i]) in fs'.tree
      ensures fs'.tree[Target(ds[i])] == Dir(fs.tree[Target(ds[i])].dir.(mode := ModeAt(fs, ds[i], cfg)))
    {
      if i < |init| {
        assert init[i] == ds[i] && Target(ds[i]) != Target(last);
      }
    }
    forall p | p in fs.tree && p in fs'.tree && fs'.tree[p] != fs.tree[p]
      ensures exists i :: 0 <= i < |ds| && Target(ds[i]) == p
    {
      if p != Target(last) {
        var i :| 0 <= i < |init| && Target(init[i]) == p;
        assert Target(ds[i]) == p;
      }
    }
  }

  lemma LastIsSealed(fs: Fs, ds: seq<Deferred>, cfg: Config, fs1: Fs, fs': Fs)
    requires ds != [] && IsDir(fs.tree, Target(ds[|ds| - 1]))
    requires fs1 == WithMode(fs, Target(ds[|ds| - 1]), ModeAt(fs, ds[|ds| - 1], cfg))
    requires forall i :: 0 <= i < |ds| - 1 ==> Target(ds[i]) != Target(ds[|ds| - 1])
    requires Sealed(fs1, ds[..|ds| - 1], cfg, fs')
    ensures var last := Target(ds[|ds| - 1]);
      last in fs'.tree && fs'.tree[last] == Dir(fs.tree[last].dir.(mode := ModeAt(fs, ds[|ds| - 1], cfg)))
  {
    var init, last := ds[..|ds| - 1], Target(ds[|ds| - 1]);
    assert forall i :: 0 <= i < |init| ==> init[i] == ds[i];
    assert last in fs1.tree;
  }

  // -------------------------------------------------------------------------
  // The archive's own deferred modes
  // -------------------------------------------------------------------------

  ghost predicate DeferredOf(d: B.Rootfs, paths: seq<Path>, x: Deferred, p: Path) {
    && p in paths && IsDir(d.tree, p) && NeedsDeferring(d.tree[p].dir)
    && x == Deferred(KeyOf(p), LeafOf(p), d.tree[p].dir)
  }

  /** In order, whatever comes before q comes before it in the list too. */
  lemma {:induction false} AncestorsComeFirst(d: B.Rootfs, paths: seq<Path>, p: Path, q: Path)
    requires InOrder(d, paths) && q in paths && p <= q
    ensures p in paths
    decreases |q|
  {
    if p != q {
      var i :| 0 <= i < |paths| && paths[i] == q;
      assert B.ParentEarlier(paths, i) && p <= Parent(q);
      AncestorsComeFirst(d, paths, p, Parent(q));
    }
  }

  lemma TargetOf(d: B.Rootfs, paths: seq<Path>, x: Deferred, p: Path)
    requires DeferredOf(d, paths, x, p)
    ensures Target(x) == InRootfs(p)
  {
    KeyAndLeaf(p);
  }

  /** The paths some of the deferred modes belong to, in order. */
  ghost predicate Origins(d: B.Rootfs, paths: seq<Path>, ds: seq<Deferred>, from: seq<Path>) {
    && |from| == |ds| && (forall i :: 0 <= i < |ds| ==> DeferredOf(d, paths, ds[i], from[i]))
    && (forall i, j :: 0 <= i < j < |ds| ==> !(from[j] <= from[i]))
    && (forall p :: p in paths && IsDir(d.tree, p) && NeedsDeferring(d.tree[p].dir) ==> p in from)
  }

  lemma {:induction false} DeferredInOrder(d: B.Rootfs, paths: seq<Path>) returns (from: seq<Path>)
    requires InOrder(d, paths)
    ensures Origins(d, paths, AllDeferred(d, paths), from)
    decreases |paths|
  {
    from := [];
    if paths != [] {
      InOrderInit(d, paths);
      var init, p := paths[..|paths| - 1], paths[|paths| - 1];
      var up := DeferredInOrder(d, init);
      from := up + if DeferredFor(d, p) == [] then [] else [p];
      forall q | q in init
        ensures !(p <= q)
      {
        if p <= q {
          AncestorsComeFirst(d, init, p, q);
        }
      }
      OneMoreOrigin(d, init, AllDeferred(d, init), up, p);
    }
  }

  lemma OneMoreOrigin(d: B.Rootfs, init: seq<Path>, ds: seq<Deferred>, up: seq<Path>, p: Path)
    requires Origins(d, init, ds, up) && forall q :: q in init ==> !(p <= q)
    ensures Origins(d, init + [p], ds + DeferredFor(d, p), up + if DeferredFor(d, p) == [] then [] else [p])
  {
    forall i | 0 <= i < |ds|
      ensures DeferredOf(d, init + [p], ds[i], up[i]) && !(p <= up[i])
    {
      assert DeferredOf(d, init, ds[i], up[i]);
    }
    if DeferredFor(d, p) != [] {
      assert DeferredOf(d, init + [p], DeferredFor(d, p)[0], p);
    }
  }

  lemma UnderRootfs(a: Path, b: Path)
    ensures InRootfs(a) <= InRootfs(b) <==> a <= b
    ensures InRootfs(a) == InRootfs(b) <==> a == b
  {
    assert InRootfs(a)[1..] == a && InRootfs(b)[1..] == b;
    assert InRootfs(a) <= InRootfs(b) ==> InRootfs(b)[1..][..|a|] == a;
  }

  lemma ArchiveIsToSeal(d: B.Rootfs, cfg: Config, fs0: Fs, paths: seq<Path>, fs: Fs) returns (from: seq<Path>)
    requires B.ValidRootfs(d) && InOrder(d, paths) && Holds(d, cfg, fs0, paths, fs) && Open(fs0, [])
    ensures var ds := AllDeferred(d, paths);
      && ToSeal(fs, ds) && |from| == |ds| && (forall i :: 0 <= i < |ds| ==> DeferredOf(d, paths, ds[i], from[i]) && Target(ds[i]) == InRootfs(from[i]))
      && (forall p :: p in paths && IsDir(d.tree, p) && NeedsDeferring(d.tree[p].dir) ==> p in from)
  {
    var ds := AllDeferred(d, paths);
    from := DeferredInOrder(d, paths);
    forall i | 0 <= i < |ds|
      ensures Target(ds[i]) == InRootfs(from[i]) && IsDir(fs.tree, Target(ds[i]))
    {
      TargetOf(d, paths, ds[i], from[i]);
      assert Like(d, from[i], fs.tree[InRootfs(from[i])], cfg);
    }
    forall i, p | 0 <= i < |ds| && p < Target(ds[i])
      ensures Open(fs, p)
    {
      OpenAbove(d, cfg, fs0, paths, fs, from[i], p);
    }
    forall i, j | 0 <= i < j < |ds|
      ensures !(Target(ds[j]) <= Target(ds[i]))
    {
      UnderRootfs(from[j], from[i]);
    }
  }

  lemma OpenAbove(d: B.Rootfs, cfg: Config, fs0: Fs, paths: seq<Path>, fs: Fs, q: Path, p: Path)
    requires B.ValidRootfs(d) && InOrder(d, paths) && Holds(d, cfg, fs0, paths, fs) && Open(fs0, []) && q in paths && p < InRootfs(q)
    ensures Open(fs, p)
  {
    if p == [] {
      assert Cleared(fs0).tree[[]] == fs0.tree[[]];
    } else {
      var a := p[1..];
      assert p == InRootfs(a) && a < q;
      AncestorsComeFirst(d, paths, a, q);
      AncestorsAreDirs(d.tree, a, q);
      assert Like(d, a, fs.tree[p], cfg);
    }
  }

  // -------------------------------------------------------------------------
  // The round trip
  // -------------------------------------------------------------------------

  /** The node a restore leaves for one that was archived. */
  ghost predicate Same(d: B.Rootfs, q: Path, n: FsNode, cfg: Config)
    requires B.Wanted(d, q)
  {
    match d.tree[q]
    case Dir(m) => n.Dir? && n.dir.mode == DirMode(cfg, q, m)
    case Link(target) => n == Link(target)
    case File(i) => n == File(FileInfo(d.inodes[i].data, FileMode(cfg, q, d.inodes[i].mode), cfg.now))
  }

  /** The node that was archived. */
  ghost predicate Exact(d: B.Rootfs, q: Path, n: FsNode, now: int)
    requires B.Wanted(d, q)
  {
    match d.tree[q]
    case Dir(m) => n.Dir? && n.dir.mode == m
    case Link(target) => n == Link(target)
    case File(i) => n == File(FileInfo(d.inodes[i].data, d.inodes[i].mode, now))
  }

  /** The mode is right even where it cannot be set. */
  ghost predicate ModeTakes(d: B.Rootfs, q: Path, cfg: Config)
    requires B.Wanted(d, q)
  {
    match d.tree[q]
    case Dir(m) => DirMode(cfg, q, m) == m
    case File(i) => FileMode(cfg, q, d.inodes[i].mode) == d.inodes[i].mode
    case _ => true
  }

  lemma SameIsExact(d: B.Rootfs, q: Path, n: FsNode, cfg: Config)
    requires B.Wanted(d, q) && Same(d, q, n, cfg)
    ensures Exact(d, q, n, cfg.now) <==> ModeTakes(d, q, cfg)
  {
  }

  /** The container directory after a restore: the rootfs is the archived
      one, the manifest is back, and the rest is as it was, shm apart. */
  ghost predicate Faithful(d: B.Rootfs, fs0: Fs, now: int, fs: Fs) {
    && (forall q :: InRootfs(q) in fs.tree <==> B.Wanted(d, q))
    && (forall q :: B.Wanted(d, q) ==> Exact(d, q, fs.tree[InRootfs(q)], now))
    && (B.ManifestKept(d) ==> [B.MANIFEST] in fs.tree && fs.tree[[B.MANIFEST]] == ArchivedManifest(d, now))
    && (forall p :: (p == [] || (p[0] != B.ROOTFS && p[0] != SHM)) && (!B.ManifestKept(d) || p == [] || p[0] != B.MANIFEST) ==>
          (p in fs.tree <==> p in fs0.tree) && (p in fs.tree ==> fs.tree[p] == fs0.tree[p]))
    && (forall p :: p != [] && p[0] == SHM ==> p !in fs.tree)
  }

  function ArchivedManifest(d: B.Rootfs, now: int): FsNode
    requires B.ManifestKept(d)
  {
    File(FileInfo(d.inodes[d.manifest.value].data, d.inodes[d.manifest.value].mode, now))
  }

  function ManifestNode(d: B.Rootfs, cfg: Config): FsNode
    requires B.ManifestKept(d)
  {
    var c := d.inodes[d.manifest.value];
    File(FileInfo(c.data, Given(cfg, [B.MANIFEST], NEW_FILE, c.mode), cfg.now))
  }

  function KeptManifest(d: B.Rootfs): Option<B.Content> {
    if B.ManifestKept(d) then Some(d.inodes[d.manifest.value]) else None
  }

  /** What decides whether the container comes back; all of it can be seen
      before the restore. */
  ghost predicate Restorable(d: B.Rootfs, container: string, fs0: Fs, cfg: Config) {
    && container != LEGACY
    && (B.ManifestKept(d) ==> |d.inodes[d.manifest.value].data| <= MANIFEST_MAX && !IsDir(fs0.tree, [B.MANIFEST]))
    && (forall p :: B.Wanted(d, p) && Shares(d, p) ==> OldManifest(fs0) == Some(d.inodes[d.manifest.value].data))
    && (B.ManifestKept(d) ==> ManifestNode(d, cfg) == ArchivedManifest(d, cfg.now))
    && forall p :: B.Wanted(d, p) ==> ModeTakes(d, p, cfg)
  }

  lemma SealedIsSame(d: B.Rootfs, cfg: Config, fs0: Fs, paths: seq<Path>, fs: Fs, q: Path)
    requires B.ValidRootfs(d) && InOrder(d, paths) && Holds(d, cfg, fs0, paths, fs) && Open(fs0, []) && q in paths
    ensures var fs' := ApplyModes(fs, AllDeferred(d, paths), cfg);
      fs'.tree.Keys == fs.tree.Keys && Same(d, q, fs'.tree[InRootfs(q)], cfg)
  {
    var ds := AllDeferred(d, paths);
    var fs' := ApplyModes(fs, ds, cfg);
    var from := ArchiveIsToSeal(d, cfg, fs0, paths, fs);
    EveryModeIsApplied(fs, ds, cfg);
    var n := fs.tree[InRootfs(q)];
    assert Like(d, q, n, cfg);
    hide B.ValidRootfs, InOrder, Holds, Open, ToSeal, Like, B.Wanted, Same, ApplyModes, AllDeferred, DeferredOf;
    if q in from {
      var i :| 0 <= i < |from| && from[i] == q;
      assert Target(ds[i]) == InRootfs(q) && n.Dir?;
      DeferredIsSame(d, paths, q, ds[i], n, cfg);
    } else {
      forall i | 0 <= i < |ds|
        ensures Target(ds[i]) != InRootfs(q)
      {
        UnderRootfs(from[i], q);
      }
      UndeferredIsSame(d, q, n, cfg);
    }
  }

  lemma DeferredIsSame(d: B.Rootfs, paths: seq<Path>, q: Path, x: Deferred, n: FsNode, cfg: Config)
    requires B.Wanted(d, q) && Like(d, q, n, cfg) && DeferredOf(d, paths, x, q) && n.Dir? && Target(x) == InRootfs(q)
    ensures Same(d, q, Dir(n.dir.(mode := Given(cfg, Target(x), n.dir.mode, x.mode))), cfg)
  {
  }

  lemma UndeferredIsSame(d: B.Rootfs, q: Path, n: FsNode, cfg: Config)
    requires B.Wanted(d, q) && Like(d, q, n, cfg) && !(IsDir(d.tree, q) && NeedsDeferring(d.tree[q].dir))
    ensures Same(d, q, n, cfg)
  {
  }

  lemma SealedElsewhere(d: B.Rootfs, cfg: Config, fs0: Fs, paths: seq<Path>, fs: Fs, p: Path)
    requires B.ValidRootfs(d) && InOrder(d, paths) && Holds(d, cfg, fs0, paths, fs) && Open(fs0, [])
    requires p == [] || p[0] != B.ROOTFS
    ensures var fs' := ApplyModes(fs, AllDeferred(d, paths), cfg);
      (p in fs'.tree <==> p in fs.tree) && (p in fs.tree ==> fs'.tree[p] == fs.tree[p])
  {
    var ds := AllDeferred(d, paths);
    var from := ArchiveIsToSeal(d, cfg, fs0, paths, fs);
    EveryModeIsApplied(fs, ds, cfg);
  }

  lemma ManifestFirst(d: B.Rootfs, container: string, fs0: Fs, rest: seq<Entry>, cfg: Config) returns (st: State)
    requires IsContainerName(container) && container != LEGACY
    requires B.ManifestKept(d) ==> |d.inodes[d.manifest.value].data| <= MANIFEST_MAX
    ensures ProcessAll(State(None, false, None, [], fs0), B.ManifestEntry(d, container) + rest, cfg) == ProcessAll(st, rest, cfg)
    ensures (st.name.None? || st.name == Some(container)) && !st.committed && st.manifest == KeptManifest(d) && st.deferred == [] && st.fs == fs0
  {
    var es := B.ManifestEntry(d, container) + rest;
    st := State(None, false, None, [], fs0);
    if !B.ManifestKept(d) {
      assert es == rest;
    } else {
      ManifestLeadsBack(container);
      assert es[0] == B.ManifestEntry(d, container)[0] && es[1..] == rest;
      st := st.(name := Some(container), manifest := KeptManifest(d));
    }
  }

  /** A manifest over the limit is archived and then refused. */
  lemma LargeManifestIsRefused(d: B.Rootfs, container: string, fs0: Fs, rest: seq<Entry>, cfg: Config)
    requires IsContainerName(container) && container != LEGACY
    requires B.ManifestKept(d) && |d.inodes[d.manifest.value].data| > MANIFEST_MAX
    ensures RestoreArchive(fs0, B.ManifestEntry(d, container) + rest, cfg) == Rejected(fs0)
  {
    ManifestLeadsBack(container);
    var es := B.ManifestEntry(d, container) + rest;
    assert es[0] == B.ManifestEntry(d, container)[0];
  }

  lemma WalkOrderIsInOrder(d: B.Rootfs, paths: seq<Path>)
    requires B.WalkOrder(d, paths, {})
    ensures InOrder(d, paths)
  {
  }

  /** What the restore leaves before the deferred modes and the manifest. */
  lemma RestoredState(d: B.Rootfs, container: string, paths: seq<Path>, fs0: Fs, cfg: Config) returns (fs: Fs)
    requires B.ValidRootfs(d) && B.WalkOrder(d, paths, {}) && ValidFs(fs0)
    requires IsContainerName(container) && container != LEGACY
    requires B.ManifestKept(d) ==> |d.inodes[d.manifest.value].data| <= MANIFEST_MAX
    ensures var seen, landed := Seen(d, OldManifest(fs0)), LandedOf(d, OldManifest(fs0), paths);
      && Holds(seen, cfg, fs0, landed, fs)
      && RestoreArchive(fs0, B.ManifestEntry(d, container) + B.Archive(d, container, paths), cfg) ==
           Restored(container, WithManifest(ApplyModes(fs, AllDeferred(seen, landed), cfg), KeptManifest(d), cfg))
  {
    var st := ManifestFirst(d, container, fs0, B.Archive(d, container, paths), cfg);
    WalkOrderIsInOrder(d, paths);
    AllMembers(d, cfg, fs0, paths, st, container);
    var end := ProcessAll(st, B.Archive(d, container, paths), cfg).st;
    var seen, landed := Seen(d, OldManifest(fs0)), LandedOf(d, OldManifest(fs0), paths);
    assert Rooted(d.tree, []) && B.Wanted(d, []) && [] in paths;
    LandedExactly(d, OldManifest(fs0), paths);
    assert [] in landed;
    assert Like(seen, [], end.fs.tree[InRootfs([])], cfg);
    assert InRootfs([]) == [B.ROOTFS];
    fs := end.fs;
  }

  /** All the restored entries, once sealed. */
  lemma SealedAll(d: B.Rootfs, paths: seq<Path>, fs0: Fs, fs: Fs, cfg: Config)
    requires B.ValidRootfs(d) && InOrder(d, paths) && Holds(d, cfg, fs0, paths, fs) && Open(fs0, [])
    ensures var fs1 := ApplyModes(fs, AllDeferred(d, paths), cfg);
      && (forall q :: InRootfs(q) in fs1.tree <==> q in paths)
      && (forall q :: q in paths ==> Same(d, q, fs1.tree[InRootfs(q)], cfg))
  {
    var fs1 := ApplyModes(fs, AllDeferred(d, paths), cfg);
    var from := ArchiveIsToSeal(d, cfg, fs0, paths, fs);
    EveryModeIsApplied(fs, AllDeferred(d, paths), cfg);
    assert fs1.tree.Keys == fs.tree.Keys;
    forall q | q in paths
      ensures Same(d, q, fs1.tree[InRootfs(q)], cfg)
    {
      SealedIsSame(d, cfg, fs0, paths, fs, q);
    }
  }

  lemma SealedRest(d: B.Rootfs, paths: seq<Path>, fs0: Fs, fs: Fs, cfg: Config)
    requires B.ValidRootfs(d) && InOrder(d, paths) && Holds(d, cfg, fs0, paths, fs) && Open(fs0, [])
    ensures var fs1 := ApplyModes(fs, AllDeferred(d, paths), cfg);
      forall p: Path :: p == [] || p[0] != B.ROOTFS ==>
        (p in fs1.tree <==> p in Cleared(fs0).tree) && (p in fs1.tree ==> fs1.tree[p] == Cleared(fs0).tree[p])
  {
    var fs1 := ApplyModes(fs, AllDeferred(d, paths), cfg);
    forall p: Path | p == [] || p[0] != B.ROOTFS
      ensures (p in fs1.tree <==> p in Cleared(fs0).tree) && (p in fs1.tree ==> fs1.tree[p] == Cleared(fs0).tree[p])
    {
      SealedElsewhere(d, cfg, fs0, paths, fs, p);
    }
  }

  /** The container directory once everything is done. */
  ghost predicate Outcome(d: B.Rootfs, paths: seq<Path>, fs0: Fs, cfg: Config, fs: Fs) {
    var seen, landed := Seen(d, OldManifest(fs0)), LandedOf(d, OldManifest(fs0), paths);
    && (forall q :: q in landed ==> B.Wanted(seen, q))
    && (forall q :: InRootfs(q) in fs.tree <==> q in landed)
    && (forall q :: q in landed ==> Same(seen, q, fs.tree[InRootfs(q)], cfg))
    && (if B.ManifestKept(d) && !IsDir(fs0.tree, [B.MANIFEST])
        then [B.MANIFEST] in fs.tree && fs.tree[[B.MANIFEST]] == ManifestNode(d, cfg)
        else ([B.MANIFEST] in fs.tree <==> [B.MANIFEST] in fs0.tree) && ([B.MANIFEST] in fs0.tree ==> fs.tree[[B.MANIFEST]] == fs0.tree[[B.MANIFEST]]))
    && (forall p :: (p == [] || (p[0] != B.ROOTFS && p[0] != SHM)) && (!B.ManifestKept(d) || p == [] || p[0] != B.MANIFEST) ==>
          (p in fs.tree <==> p in fs0.tree) && (p in fs.tree ==> fs.tree[p] == fs0.tree[p]))
    && (forall p :: p != [] && p[0] == SHM ==> p !in fs.tree)
  }

  lemma OutcomeOf(d: B.Rootfs, paths: seq<Path>, fs0: Fs, fs: Fs, cfg: Config)
    requires B.ValidRootfs(d) && B.WalkOrder(d, paths, {}) && ValidFs(fs0) && Open(fs0, [])
    requires Holds(Seen(d, OldManifest(fs0)), cfg, fs0, LandedOf(d, OldManifest(fs0), paths), fs)
    ensures var seen, landed := Seen(d, OldManifest(fs0)), LandedOf(d, OldManifest(fs0), paths);
      Outcome(d, paths, fs0, cfg, WithManifest(ApplyModes(fs, AllDeferred(seen, landed), cfg), KeptManifest(d), cfg))
  {
    var seen, landed := Seen(d, OldManifest(fs0)), LandedOf(d, OldManifest(fs0), paths);
    WalkOrderIsInOrder(d, paths);
    LandedInOrder(d, OldManifest(fs0), paths);
    SeenIsAlike(d, OldManifest(fs0));
    SealedAll(seen, landed, fs0, fs, cfg);
    SealedRest(seen, landed, fs0, fs, cfg);
    ManifestLast(d, paths, fs0, ApplyModes(fs, AllDeferred(seen, landed), cfg), cfg);
  }

  /** Writing the manifest changes nothing else. */
  lemma ManifestWritten(s: Fs, c: Option<B.Content>, cfg: Config)
    ensures var s' := WithManifest(s, c, cfg);
      && (forall p: Path :: p == [] || p[0] != B.MANIFEST ==> (p in s'.tree <==> p in s.tree) && (p in s.tree ==> s'.tree[p] == s.tree[p]))
      && (if c.None? || IsDir(s.tree, [B.MANIFEST]) then s' == s
          else [B.MANIFEST] in s'.tree && s'.tree[[B.MANIFEST]] == File(FileInfo(c.value.data, Given(cfg, [B.MANIFEST], NEW_FILE, c.value.mode), cfg.now)))
  {
    forall p: Path | [B.MANIFEST] <= p
      ensures p != [] && p[0] == B.MANIFEST
    {
    }
  }

  lemma ClearedElsewhere(fs0: Fs, p: Path)
    requires p == [] || p[0] != B.ROOTFS
    ensures p == [] || p[0] != SHM ==> (p in Cleared(fs0).tree <==> p in fs0.tree) && (p in fs0.tree ==> Cleared(fs0).tree[p] == fs0.tree[p])
    ensures p != [] && p[0] == SHM ==> p !in Cleared(fs0).tree
  {
    assert p != [] && p[0] == SHM ==> [SHM] <= p;
  }

  lemma ManifestLast(d: B.Rootfs, paths: seq<Path>, fs0: Fs, fs1: Fs, cfg: Config)
    requires var seen, landed := Seen(d, OldManifest(fs0)), LandedOf(d, OldManifest(fs0), paths);
      && (forall q :: q in landed ==> B.Wanted(seen, q))
      && (forall q :: InRootfs(q) in fs1.tree <==> q in landed)
      && (forall q :: q in landed ==> Same(seen, q, fs1.tree[InRootfs(q)], cfg))
    requires forall p: Path :: p == [] || p[0] != B.ROOTFS ==>
      (p in fs1.tree <==> p in Cleared(fs0).tree) && (p in fs1.tree ==> fs1.tree[p] == Cleared(fs0).tree[p])
    ensures Outcome(d, paths, fs0, cfg, WithManifest(fs1, KeptManifest(d), cfg))
  {
    var m: Path := [B.MANIFEST];
    hide Seen, LandedOf, OldManifest, Same, B.Wanted, B.ManifestKept, WithManifest, Cleared;
    var fs := WithManifest(fs1, KeptManifest(d), cfg);
    ManifestWritten(fs1, KeptManifest(d), cfg);
    forall p: Path | p == [] || p[0] != B.ROOTFS
      ensures p == [] || p[0] != SHM ==> (p in fs1.tree <==> p in fs0.tree) && (p in fs0.tree ==> fs1.tree[p] == fs0.tree[p])
      ensures p != [] && p[0] == SHM ==> p !in fs1.tree
    {
      ClearedElsewhere(fs0, p);
    }
    forall q
      ensures InRootfs(q) != [] && InRootfs(q)[0] == B.ROOTFS
    {
    }
    assert m[0] != B.ROOTFS && m[0] != SHM;
  }

  lemma FaithfulIfRestorable(d: B.Rootfs, paths: seq<Path>, container: string, fs0: Fs, fs: Fs, cfg: Config)
    requires B.ValidRootfs(d) && B.WalkOrder(d, paths, {}) && Outcome(d, paths, fs0, cfg, fs) && Restorable(d, container, fs0, cfg)
    ensures Faithful(d, fs0, cfg.now, fs)
  {
    var was := OldManifest(fs0);
    LandedExactly(d, was, paths);
    SeenIsAlike(d, was);
    hide OldManifest, B.ValidRootfs, ModeTakes, Exact, Same;
    forall q | B.Wanted(d, q)
      ensures q in LandedOf(d, was, paths) && Exact(d, q, fs.tree[InRootfs(q)], cfg.now)
    {
      assert Lands(d, was, q);
      SeenIsSame(d, was, q, fs.tree[InRootfs(q)], cfg);
      SameIsExact(d, q, fs.tree[InRootfs(q)], cfg);
    }
  }

  /** Where the old manifest has the archived content, nothing is seen of it. */
  lemma SeenIsSame(d: B.Rootfs, was: Option<Bytes>, q: Path, n: FsNode, cfg: Config)
    requires B.Wanted(d, q) && B.Wanted(Seen(d, was), q) && Same(Seen(d, was), q, n, cfg)
    requires Shares(d, q) ==> was == Some(d.inodes[d.manifest.value].data)
    ensures Same(d, q, n, cfg)
  {
  }

  ghost predicate Spoilt(d: B.Rootfs, p: Path, fs0: Fs, cfg: Config)
    requires B.Wanted(d, p)
  {
    || (Shares(d, p) && OldManifest(fs0) != Some(d.inodes[d.manifest.value].data))
    || !ModeTakes(d, p, cfg)
  }

  /** One entry that is not as it was archived is enough. */
  lemma UnfaithfulEntry(d: B.Rootfs, paths: seq<Path>, fs0: Fs, fs: Fs, cfg: Config, p: Path)
    requires B.ValidRootfs(d) && B.WalkOrder(d, paths, {}) && Outcome(d, paths, fs0, cfg, fs)
    requires B.Wanted(d, p) && Spoilt(d, p, fs0, cfg)
    ensures !Faithful(d, fs0, cfg.now, fs)
  {
    var was := OldManifest(fs0);
    LandedExactly(d, was, paths);
    SeenIsAlike(d, was);
    hide OldManifest, B.ValidRootfs;
    if p in LandedOf(d, was, paths) {
      assert Same(Seen(d, was), p, fs.tree[InRootfs(p)], cfg);
    }
  }

  /** The outcome is faithful exactly if the files that are the manifest under
      another name find their content, nothing keeps the manifest out, and
      every mode that cannot be set is right without that. */
  lemma OutcomeIsFaithful(d: B.Rootfs, paths: seq<Path>, container: string, fs0: Fs, fs: Fs, cfg: Config)
    requires B.ValidRootfs(d) && B.WalkOrder(d, paths, {}) && Outcome(d, paths, fs0, cfg, fs)
    requires container != LEGACY && (B.ManifestKept(d) ==> |d.inodes[d.manifest.value].data| <= MANIFEST_MAX)
    ensures Faithful(d, fs0, cfg.now, fs) <==> Restorable(d, container, fs0, cfg)
  {
    if Restorable(d, container, fs0, cfg) {
      FaithfulIfRestorable(d, paths, container, fs0, fs, cfg);
    } else if p :| B.Wanted(d, p) && Spoilt(d, p, fs0, cfg) {
      UnfaithfulEntry(d, paths, fs0, fs, cfg, p);
    } else {
      assert B.ManifestKept(d) && (IsDir(fs0.tree, [B.MANIFEST]) || ManifestNode(d, cfg) != ArchivedManifest(d, cfg.now));
    }
  }

  // -------------------------------------------------------------------------
  // The one name that does not come back
  // -------------------------------------------------------------------------

  function NameOf(s: Step): Option<string> {
    s.st.name
  }

  lemma NamedByMembers(st: State, e: Entry, c: Config)
    ensures var n := NameOf(Process(st, e, c));
      n == st.name || (DestPath(e.name).Some? && n == Some(DestPath(e.name).value.container))
  {
  }

  lemma {:induction false} NeverNamed(st: State, es: seq<Entry>, c: Config)
    requires st.name != Some(LEGACY)
    requires forall i :: 0 <= i < |es| && DestPath(es[i].name).Some? ==> DestPath(es[i].name).value.container != LEGACY
    ensures NameOf(ProcessAll(st, es, c)) != Some(LEGACY)
    decreases |es|
  {
    if es != [] {
      NamedByMembers(st, es[0], c);
      match Process(st, es[0], c)
      case Exit(_) =>
      case Go(st1) => NeverNamed(st1, es[1..], c);
    }
  }

  lemma {:induction false} ArchiveNames(d: B.Rootfs, container: string, paths: seq<Path>)
    requires forall p :: p in paths ==> B.Wanted(d, p)
    ensures var es := B.Archive(d, container, paths);
      |es| == |paths| && forall i :: 0 <= i < |es| ==> es[i].name == B.Arc(container, paths[i])
  {
    if paths != [] {
      ArchiveNames(d, container, paths[..|paths| - 1]);
    }
  }

  lemma LegacyLeadsElsewhere(d: B.Rootfs, paths: seq<Path>, e: Entry)
    requires B.ValidRootfs(d) && B.WalkOrder(d, paths, {})
    requires e in B.ManifestEntry(d, LEGACY) + B.Archive(d, LEGACY, paths)
    ensures DestPath(e.name).Some? && DestPath(e.name).value.container != LEGACY
  {
    LegacyIsAName();
    ManifestLeadsBack(LEGACY);
    if e !in B.ManifestEntry(d, LEGACY) {
      ArchiveNames(d, LEGACY, paths);
      var i :| 0 <= i < |paths| && B.Archive(d, LEGACY, paths)[i] == e;
      assert paths[i] in paths;
      PathsAreValid(d.tree, paths[i]);
      ArcLeadsBack(LEGACY, paths[i]);
    }
  }

  lemma LegacyIsNeverRestored(d: B.Rootfs, paths: seq<Path>, fs0: Fs, cfg: Config)
    requires B.ValidRootfs(d) && B.WalkOrder(d, paths, {})
    ensures var r := RestoreArchive(fs0, B.ManifestEntry(d, LEGACY) + B.Archive(d, LEGACY, paths), cfg);
      !(r.Restored? && r.container == LEGACY)
  {
    var es := B.ManifestEntry(d, LEGACY) + B.Archive(d, LEGACY, paths);
    forall i | 0 <= i < |es|
      ensures DestPath(es[i].name).Some? && DestPath(es[i].name).value.container != LEGACY
    {
      LegacyLeadsElsewhere(d, paths, es[i]);
    }
    NeverNamed(State(None, false, None, [], fs0), es, cfg);
  }

  lemma LegacyIsAName()
    ensures IsContainerName(LEGACY)
  {
    assert "_.-"[2] == '-';
  }

  /** A backup restores the container it was taken of, and faithfully, if and
      only if the container is not called installed-rootfs, its manifest fits
      and has a place to go, and every file that is the manifest under another
      name finds the same content in the manifest already there. */
  lemma BackupThenRestore(d: B.Rootfs, container: string, paths: seq<Path>, fs0: Fs, cfg: Config)
    requires B.ValidRootfs(d) && B.WalkOrder(d, paths, {}) && ValidFs(fs0) && Open(fs0, []) && IsContainerName(container)
    ensures var r := RestoreArchive(fs0, B.ManifestEntry(d, container) + B.Archive(d, container, paths), cfg);
      r.Restored? && r.container == container && Faithful(d, fs0, cfg.now, r.fs) <==> Restorable(d, container, fs0, cfg)
  {
    if container == LEGACY {
      LegacyIsNeverRestored(d, paths, fs0, cfg);
    } else if B.ManifestKept(d) && |d.inodes[d.manifest.value].data| > MANIFEST_MAX {
      LargeManifestIsRefused(d, container, fs0, B.Archive(d, container, paths), cfg);
    } else {
      var fs := RestoredState(d, container, paths, fs0, cfg);
      OutcomeOf(d, paths, fs0, fs, cfg);
      var landed := LandedOf(d, OldManifest(fs0), paths);
      OutcomeIsFaithful(d, paths, container, fs0,
                        WithManifest(ApplyModes(fs, AllDeferred(Seen(d, OldManifest(fs0)), landed), cfg), KeptManifest(d), cfg), cfg);
    }
  }

  /** A file that is the manifest under another name, restored where there is
      no manifest yet: it is not there afterwards. */
  lemma SharedManifestIsLost(d: B.Rootfs, container: string, paths: seq<Path>, fs0: Fs, cfg: Config, p: Path)
    requires B.ValidRootfs(d) && B.WalkOrder(d, paths, {}) && ValidFs(fs0) && Open(fs0, [])
    requires IsContainerName(container) && container != LEGACY
    requires B.ManifestKept(d) && |d.inodes[d.manifest.value].data| <= MANIFEST_MAX
    requires B.Wanted(d, p) && Shares(d, p) && [B.MANIFEST] !in fs0.tree
    ensures var r := RestoreArchive(fs0, B.ManifestEntry(d, container) + B.Archive(d, container, paths), cfg);
      r.Restored? && InRootfs(p) !in r.fs.tree
  {
    var fs := RestoredState(d, container, paths, fs0, cfg);
    OutcomeOf(d, paths, fs0, fs, cfg);
    LandedExactly(d, OldManifest(fs0), paths);
  }

  /** The smallest such container: its rootfs holds nothing but a second name
      for its manifest. */
  const TWO_NAMES := B.Rootfs(map[[] := Dir(0x1ED), ["m"] := File(0)], map[0 := B.Content([], 0x1A4)], {0}, Some(0))

  lemma TwoNamesLoseOne(container: string, fs0: Fs, cfg: Config)
    requires ValidFs(fs0) && Open(fs0, []) && IsContainerName(container) && container != LEGACY && [B.MANIFEST] !in fs0.tree
    ensures B.ValidRootfs(TWO_NAMES) && B.WalkOrder(TWO_NAMES, [[], ["m"]], {})
    ensures var r := RestoreArchive(fs0, B.ManifestEntry(TWO_NAMES, container) + B.Archive(TWO_NAMES, container, [[], ["m"]]), cfg);
      r.Restored? && !Faithful(TWO_NAMES, fs0, cfg.now, r.fs)
  {
    var d := TWO_NAMES;
    TwoNamesAreListed();
    SharedManifestIsLost(d, container, [[], ["m"]], fs0, cfg, ["m"]);
  }

  lemma TwoNamesAreListed()
    ensures B.ValidRootfs(TWO_NAMES) && B.WalkOrder(TWO_NAMES, [[], ["m"]], {})
    ensures B.ManifestKept(TWO_NAMES) && B.Wanted(TWO_NAMES, ["m"]) && Shares(TWO_NAMES, ["m"])
  {
    var d := TWO_NAMES;
    assert Rooted(d.tree, ["m"]) && ["m"][0] != B.L2S_STORE;
    forall i | 0 <= i < 2
      ensures B.ParentEarlier([[], ["m"]], i)
    {
      assert [[], ["m"]][..1] == [[]];
    }
  }

  /** The two commands one after the other. */
  method BackupAndRestore(d: B.Rootfs, refused: set<Path>, container: string, k: Kernel, root: nat, cfg: Config)
    returns (r: Result, ghost after: B.Rootfs)
    requires B.ValidRootfs(d) && ValidFs(k.fs) && root in k.fds && k.Where(root) == Some([]) && Open(k.fs, [])
    requires IsContainerName(container)
    modifies k
    ensures after == B.Prepared(d, refused) && k.fds == old(k.fds)
    ensures r.Restored? && r.container == container && Faithful(after, old(k.fs), cfg.now, r.fs) <==> Restorable(after, container, old(k.fs), cfg)
    ensures B.StandsOpen(d) ==>
      && after == d
      && (r.Restored? && r.container == container && Faithful(d, old(k.fs), cfg.now, r.fs) <==> Restorable(d, container, old(k.fs), cfg))
  {
    if B.StandsOpen(d) {
      B.OpenIsLeftAlone(d, refused);
    }
    var entries;
    ghost var paths;
    entries, after, paths := B.BackupContainer(d, refused, container);
    var dests := new Destinations(k, root);
    BackupThenRestore(after, container, paths, k.fs, cfg);
    r := dests.Run(entries, cfg);
  }
}
