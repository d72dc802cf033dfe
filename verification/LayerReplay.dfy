/** Applying a layer undoes taking the difference: the stream written for two
    states of a rootfs turns any tree equivalent to the first into one
    equivalent to the second, and so does a chain of such streams. */
module LayerReplay {
  import opened Names
  import opened Trees
  import opened Resolver
  import opened Kernels
  import opened TarExtract
  import opened LayerDiff
  import opened LayerWhiteouts
  import opened Attributes

  lemma OwnerBitsTwice(m: Mode)
    ensures AtLeastOwner(AtLeastOwner(m)) == AtLeastOwner(m)
  {
  }

  // -------------------------------------------------------------------------
  // One member, when nothing has to be followed to reach its parent
  // -------------------------------------------------------------------------

  lemma MemberUnderDir(st: State, p: Path, kind: Kind, c: Config)
    requires ValidFs(st.fs) && p != [] && ValidPath(p) && IsDir(st.fs.tree, Parent(p))
    requires c.strip == 0 && !kind.LinkMember? && !kind.DeviceMember? && !IsWhiteout(Leaf(p))
    ensures var (s, done) := Write(st.fs, Parent(p), Leaf(p), kind);
      Process(st, Member(Join(p), kind), c) == Outcome(st.(fs := s), !done)
  {
    var d := Parent(p);
    PartsOfSpelling(p);
    DirIsLinkFree(st.fs.tree, d);
    assert [] + d == d;
    LinkFreeResolvesToItself(st.fs.tree, [], d, MAX_HOPS);
    NothingToCreate(st.fs, [], d, c.implied);
    assert st.links + [] == st.links;
  }

  lemma DirIsLinkFree(t: FsTree, d: Path)
    requires WellFormed(t) && IsDir(t, d)
    ensures LinkFree(t, d)
  {
    PathsAreValid(t, d);
    forall i | 0 < i <= |d|
      ensures !IsLink(t, d[..i])
    {
      if i < |d| {
        AncestorsAreDirs(t, d[..i], d);
      } else {
        assert d[..i] == d;
      }
    }
  }

  lemma {:induction false} ProcessConcat(st: State, a: seq<Member>, b: seq<Member>, c: Config)
    ensures ProcessAll(st, a + b, c) ==
      var first := ProcessAll(st, a, c);
      if first.raised then first else ProcessAll(first.state, b, c)
    decreases |a|
  {
    if a == [] {
      assert a + b == b;
    } else {
      assert (a + b)[0] == a[0] && (a + b)[1..] == a[1..] + b;
      var first := Process(st, a[0], c);
      if !first.raised {
        ProcessConcat(first.state, a[1..], b, c);
      }
    }
  }

  // -------------------------------------------------------------------------
  // The packed entries
  // -------------------------------------------------------------------------

  /** What a layer packs, and what it deletes; u and v are what is seen of
      the states before and after. */
  function Changed(u: FsTree, v: FsTree, crc: Bytes -> nat): set<Path> {
    set p | p in v && p != [] && !v[p].Special? &&
            (p !in u || u[p].Special? || PrintOf(u[p], crc) != PrintOf(v[p], crc))
  }

  /** Equal fingerprints mean equal content. */
  ghost predicate Faithful(u: FsTree, v: FsTree, crc: Bytes -> nat) {
    forall p :: IsFile(u, p) && IsFile(v, p) && PrintOf(u[p], crc) == PrintOf(v[p], crc) ==>
      u[p].file.data == v[p].file.data
  }

  /** The tree once these paths have been packed and applied: a link has
      taken everything beneath it along. */
  ghost predicate PackedSoFar(s: Fs, r: Fs, v: FsTree, done: set<Path>) {
    && ValidFs(s)
    && (forall p :: p in s.tree <==> p in done || (p in r.tree && !Covered(v, done, p)))
    && (forall p :: p in done ==> p in v && Same(s.tree[p], v[p]))
    && (forall p :: p in r.tree && p !in done && !Covered(v, done, p) ==> s.tree[p] == r.tree[p])
  }

  /** Beneath one of these paths that is a link. */
  ghost predicate Covered(v: FsTree, done: set<Path>, p: Path) {
    exists i :: 0 < i < |p| && p[..i] in done && IsLink(v, p[..i])
  }

  lemma CoveredIsHidden(v: FsTree, done: set<Path>, p: Path)
    ensures Covered(v, done, p) ==> Hidden(v, p)
    ensures WellFormed(v) && p in v ==> !Covered(v, done, p)
  {
    if WellFormed(v) && p in v {
      NotHidden(v, p);
    }
  }

  lemma OneMoreCovers(v: FsTree, done: set<Path>, p: Path, q: Path)
    requires p != []
    ensures Covered(v, done + {p}, q) <==> Covered(v, done, q) || (IsLink(v, p) && p < q)
  {
    if IsLink(v, p) && p < q {
      assert q[..|p|] == p;
    }
    if i :| 0 < i < |q| && q[..i] in done + {p} && IsLink(v, q[..i]) {
      assert q[..i] == p ==> p < q;
    }
    if i :| 0 < i < |q| && q[..i] in done && IsLink(v, q[..i]) {
      assert q[..i] in done + {p};
    }
  }

  lemma AllCovered(v: FsTree, done: set<Path>, p: Path)
    requires WellFormed(v) && p in v && p != []
    ensures !Covered(v, done + {p}, p)
    ensures forall q :: Covered(v, done + {p}, q) <==> Covered(v, done, q) || (IsLink(v, p) && p < q)
  {
    CoveredIsHidden(v, done + {p}, p);
    forall q
      ensures Covered(v, done + {p}, q) <==> Covered(v, done, q) || (IsLink(v, p) && p < q)
    {
      OneMoreCovers(v, done, p, q);
    }
  }

  lemma ParentIsInPlace(s: Fs, r: Fs, u: FsTree, v: FsTree, crc: Bytes -> nat, done: set<Path>, p: Path)
    requires PackedSoFar(s, r, v, done) && WellFormed(u) && WellFormed(v) && NoSpecials(u) && NoSpecials(v)
    requires Equivalent(r.tree, u) && p in v && p != []
    requires Parent(p) in Changed(u, v, crc) ==> Parent(p) in done
    ensures IsDir(s.tree, Parent(p))
  {
    var d := Parent(p);
    assert Rooted(v, p);
    CoveredIsHidden(v, done, d);
    if d != [] && d !in done {
      assert d in u && PrintOf(u[d], crc) == PrintOf(v[d], crc);
      assert Same(r.tree[d], u[d]);
    }
  }

  /** With nothing beneath it, an entry is removed alone. */
  lemma RemovedAlone(s: Fs, p: Path)
    requires ValidFs(s) && p != []
    requires forall q :: q in s.tree ==> !(p < q)
    ensures Removed(s, p).tree == s.tree - {p} && ValidFs(Removed(s, p))
  {
    RemovedIsValid(s, p);
    forall q | q in s.tree
      ensures p <= q <==> p == q
    {
      assert p <= q ==> p < q || p == q;
    }
  }

  lemma NonDirIsAlone(s: Fs, p: Path)
    requires ValidFs(s) && !IsDir(s.tree, p)
    ensures forall q :: q in s.tree ==> !(p < q)
  {
    forall q | q in s.tree
      ensures !(p < q)
    {
      if p < q {
        AncestorsAreDirs(s.tree, p, q);
      }
    }
  }

  lemma PackedInPlace(s: Fs, s': Fs, r: Fs, v: FsTree, done: set<Path>, p: Path)
    requires PackedSoFar(s, r, v, done) && WellFormed(v) && p in v && p != [] && !IsLink(v, p)
    requires ValidFs(s') && s'.tree.Keys == s.tree.Keys + {p} && Same(s'.tree[p], v[p])
    requires forall q :: q in s.tree && q != p ==> s'.tree[q] == s.tree[q]
    ensures PackedSoFar(s', r, v, done + {p})
  {
    AllCovered(v, done, p);
    hide ValidFs, Covered, Same;
  }

  lemma PackDir(s: Fs, r: Fs, v: FsTree, done: set<Path>, p: Path, mode: Mode)
    requires PackedSoFar(s, r, v, done) && p != [] && ValidName(Leaf(p)) && IsDir(s.tree, Parent(p))
    requires WellFormed(v) && IsDir(v, p) && v[p].dir.mode == mode && !IsFile(s.tree, p) && (p in s.tree ==> !s.tree[p].Special?)
    ensures var (s', ok) := Write(s, Parent(p), Leaf(p), DirMember(mode));
      ok && PackedSoFar(s', r, v, done + {p})
  {
    assert Parent(p) + [Leaf(p)] == p && ValidFs(s);
    OwnerBitsTwice(mode);
    var s' := Write(s, Parent(p), Leaf(p), DirMember(mode)).0;
    hide PackedSoFar;
    if IsDir(s.tree, p) {
      WithModeIsValid(s, p, AtLeastOwner(mode));
    } else {
      NonDirIsAlone(s, p);
      RemovedAlone(s, p);
      NothingToRemove(s, p);
      var s1 := Removed(s, p);
      WithDirIsValid(s1, p, 0x1FF);
      WithModeIsValid(WithDir(s1, p, 0x1FF), p, AtLeastOwner(mode));
    }
    PackedInPlace(s, s', r, v, done, p);
  }

  /** A file takes the place of whatever single entry is there; a link, that
      of whatever is there with all that is beneath it. */
  lemma PackNode(s: Fs, r: Fs, v: FsTree, done: set<Path>, p: Path, n: FsNode)
    requires PackedSoFar(s, r, v, done) && p != [] && ValidName(Leaf(p)) && IsDir(s.tree, Parent(p))
    requires WellFormed(v) && p in v && Same(n, v[p]) && !n.Dir?
    requires n.Link? || forall q :: q in s.tree ==> !(p < q)
    ensures PackedSoFar(WithNode(Removed(s, p), p, n), r, v, done + {p})
  {
    RemovedIsValid(s, p);
    assert |Parent(p)| < |p|;
    WithNodeIsValid(Removed(s, p), p, n);
    AllCovered(v, done, p);
    forall q | p < q
      ensures q !in v
    {
      if q in v {
        AncestorsAreDirs(v, p, q);
      }
    }
    forall q | q in s.tree
      ensures p <= q <==> p == q || p < q
    {
    }
  }

  ghost predicate RealLinks(t: FsTree) {
    forall p :: IsLink(t, p) ==> t[p].target != ""
  }

  /** What the two visible states and the starting tree are assumed to be. */
  ghost predicate Setting(r: Fs, u: FsTree, v: FsTree, crc: Bytes -> nat) {
    && WellFormed(u) && WellFormed(v) && NoSpecials(u) && NoSpecials(v) && RealLinks(v)
    && ValidFs(r) && Equivalent(r.tree, u)
    && Faithful(u, v, crc)
    && forall p :: p in Changed(u, v, crc) ==> !IsWhiteout(Leaf(p))
  }

  ghost predicate Ready(s: Fs, r: Fs, u: FsTree, v: FsTree, crc: Bytes -> nat, done: set<Path>, p: Path) {
    && Setting(r, u, v, crc) && PackedSoFar(s, r, v, done)
    && p in Changed(u, v, crc) && p !in done && ValidName(Leaf(p)) && IsDir(s.tree, Parent(p))
  }

  /** What the entry's place holds when its turn comes. */
  lemma PlaceBefore(s: Fs, r: Fs, u: FsTree, v: FsTree, crc: Bytes -> nat, done: set<Path>, p: Path)
    requires Ready(s, r, u, v, crc, done, p)
    ensures (IsFile(s.tree, p) <==> IsFile(u, p)) && (IsDir(s.tree, p) <==> IsDir(u, p))
    ensures p in s.tree ==> !s.tree[p].Special?
    ensures IsFile(v, p) && !IsDir(u, p) ==> forall q :: q in s.tree ==> !(p < q)
  {
    CoveredIsHidden(v, done, p);
    assert p in r.tree ==> s.tree[p] == r.tree[p] && Same(r.tree[p], u[p]);
    if !IsDir(u, p) {
      NonDirIsAlone(s, p);
    }
  }

  ghost predicate WrittenOrRaised(s: Fs, r: Fs, u: FsTree, v: FsTree, done: set<Path>, p: Path, kind: Kind)
    requires p != []
  {
    var (s', ok) := Write(s, Parent(p), Leaf(p), kind);
    (ok <==> !Clash(u, v, p)) && (ok ==> PackedSoFar(s', r, v, done + {p}))
  }

  lemma WriteOne(s: Fs, r: Fs, u: FsTree, v: FsTree, crc: Bytes -> nat, done: set<Path>, p: Path)
    requires Ready(s, r, u, v, crc, done, p)
    ensures EntryMember(v, p) != [] && WrittenOrRaised(s, r, u, v, done, p, EntryMember(v, p)[0].kind)
  {
    PlaceBefore(s, r, u, v, crc, done, p);
    assert IsLink(v, p) ==> v[p].target != "";
    hide PackedSoFar, Setting, Changed, ValidFs;
    match v[p] {
      case Dir(d) => WriteOneDir(s, r, u, v, done, p);
      case Link(target) => WriteOneLink(s, r, u, v, done, p);
      case File(f) => WriteOneFile(s, r, u, v, done, p);
      case Special =>
    }
  }

  ghost predicate Placeable(s: Fs, r: Fs, u: FsTree, v: FsTree, done: set<Path>, p: Path) {
    && PackedSoFar(s, r, v, done) && WellFormed(v) && p in v && p != [] && ValidName(Leaf(p)) && IsDir(s.tree, Parent(p))
    && (IsFile(s.tree, p) <==> IsFile(u, p)) && (IsDir(s.tree, p) <==> IsDir(u, p)) && (p in s.tree ==> !s.tree[p].Special?)
  }

  lemma WriteOneDir(s: Fs, r: Fs, u: FsTree, v: FsTree, done: set<Path>, p: Path)
    requires Placeable(s, r, u, v, done, p) && IsDir(v, p)
    ensures WrittenOrRaised(s, r, u, v, done, p, DirMember(v[p].dir.mode))
  {
    hide PackedSoFar;
    assert Parent(p) + [Leaf(p)] == p;
    if !IsFile(u, p) {
      PackDir(s, r, v, done, p, v[p].dir.mode);
    }
  }

  lemma WriteOneLink(s: Fs, r: Fs, u: FsTree, v: FsTree, done: set<Path>, p: Path)
    requires Placeable(s, r, u, v, done, p) && IsLink(v, p) && v[p].target != ""
    ensures WrittenOrRaised(s, r, u, v, done, p, SymMember(v[p].target))
  {
    hide PackedSoFar;
    assert Parent(p) + [Leaf(p)] == p;
    PackNode(s, r, v, done, p, v[p]);
  }

  lemma WriteOneFile(s: Fs, r: Fs, u: FsTree, v: FsTree, done: set<Path>, p: Path)
    requires Placeable(s, r, u, v, done, p) && IsFile(v, p)
    requires !IsDir(u, p) ==> forall q :: q in s.tree ==> !(p < q)
    ensures WrittenOrRaised(s, r, u, v, done, p, RegMember(v[p].file.(mtime := WholeSeconds(v[p].file.mtime))))
  {
    hide PackedSoFar;
    assert Parent(p) + [Leaf(p)] == p;
    if !IsDir(u, p) {
      WholeSecondsAgain(v[p].file.mtime);
      PackNode(s, r, v, done, p, File(v[p].file.(mtime := WholeSeconds(v[p].file.mtime))));
    }
  }

  /** Applying one packed entry: it takes its place, unless a directory and
      a file clash there, which ends the extraction. */
  lemma PackOne(s: Fs, r: Fs, u: FsTree, v: FsTree, crc: Bytes -> nat, done: set<Path>, p: Path, c: Config)
    requires Ready(s, r, u, v, crc, done, p) && c.strip == 0
    ensures EntryMember(v, p) != []
    ensures var o := Process(State(s, []), EntryMember(v, p)[0], c);
      if Clash(u, v, p) then o.raised
      else !o.raised && o.state.links == [] && PackedSoFar(o.state.fs, r, v, done + {p})
  {
    WriteOne(s, r, u, v, crc, done, p);
    PathsAreValid(v, p);
    MemberUnderDir(State(s, []), p, EntryMember(v, p)[0].kind, c);
  }

  /** In sorted order a directory comes before what it holds. */
  lemma EarlierInListing(ps: seq<Path>, of: set<Path>, i: nat, q: Path)
    requires Listing(ps, of) && i < |ps| && q in of && q != [] && q < ps[i]
    ensures q in ps[..i]
  {
    var j :| 0 <= j < |ps| && ps[j] == q;
    ParentSortsFirst(q, ps[i]);
    LessIsTotal(Join(q), Join(ps[i]));
    assert j < i;
    assert ps[..i][j] == q;
  }

  lemma NotYetListed(ps: seq<Path>, of: set<Path>, i: nat)
    requires Listing(ps, of) && i < |ps|
    ensures ps[i] !in ps[..i] && Elements(ps[..i + 1]) == Elements(ps[..i]) + {ps[i]}
  {
    SortedHasNoDuplicates(ps, Join);
    assert ps[..i + 1] == ps[..i] + [ps[i]];
  }

  ghost predicate ClashFree(u: FsTree, v: FsTree, ps: seq<Path>) {
    forall i :: 0 <= i < |ps| ==> !Clash(u, v, ps[i])
  }

  lemma NextPacked(u: FsTree, v: FsTree, ps: seq<Path>, i: nat)
    requires i < |ps| && EntryMember(v, ps[i]) != []
    ensures Packed(v, ps[i..]) == [EntryMember(v, ps[i])[0]] + Packed(v, ps[i + 1..])
    ensures ClashFree(u, v, ps[i..]) <==> !Clash(u, v, ps[i]) && ClashFree(u, v, ps[i + 1..])
  {
    hide Clash;
    assert ps[i..] == [ps[i]] + ps[i + 1..];
    assert ps[i..][1..] == ps[i + 1..];
  }

  lemma {:induction false} PackRest(s: Fs, r: Fs, u: FsTree, v: FsTree, crc: Bytes -> nat, ps: seq<Path>, i: nat, c: Config)
    requires Setting(r, u, v, crc) && Listing(ps, Changed(u, v, crc)) && i <= |ps| && c.strip == 0
    requires PackedSoFar(s, r, v, Elements(ps[..i]))
    ensures var o := ProcessAll(State(s, []), Packed(v, ps[i..]), c);
      && (o.raised <==> !ClashFree(u, v, ps[i..]))
      && (!o.raised ==> o.state.links == [] && PackedSoFar(o.state.fs, r, v, Changed(u, v, crc)))
    decreases |ps| - i
  {
    if i == |ps| {
      assert ps[..i] == ps && Elements(ps) == Changed(u, v, crc);
    } else {
      hide Process, Packed, PackedSoFar, EntryMember, Clash, ClashFree;
      var p, done := ps[i], Elements(ps[..i]);
      assert p in ps && Rooted(v, p);
      if Parent(p) in Changed(u, v, crc) {
        EarlierInListing(ps, Changed(u, v, crc), i, Parent(p));
      }
      ParentIsInPlace(s, r, u, v, crc, done, p);
      NotYetListed(ps, Changed(u, v, crc), i);
      PackOne(s, r, u, v, crc, done, p, c);
      NextPacked(u, v, ps, i);
      var m, more := EntryMember(v, p)[0], Packed(v, ps[i + 1..]);
      assert ([m] + more)[0] == m && ([m] + more)[1..] == more;
      var o := Process(State(s, []), m, c);
      if !o.raised {
        PackRest(o.state.fs, r, u, v, crc, ps, i + 1, c);
      }
    }
  }

  // -------------------------------------------------------------------------
  // The whiteouts
  // -------------------------------------------------------------------------

  /** Once everything is packed, the tree is the mixed one. */
  lemma PackedMatches(s: Fs, r: Fs, u: FsTree, v: FsTree, crc: Bytes -> nat)
    requires Setting(r, u, v, crc) && PackedSoFar(s, r, v, Changed(u, v, crc)) && Clashless(u, v)
    ensures Equivalent(s.tree, Mixed(u, v))
  {
    var done := Changed(u, v, crc);
    MixedHolds(u, v);
    forall p | p in v && p != []
      ensures p in s.tree && Same(s.tree[p], v[p])
    {
      CoveredIsHidden(v, done, p);
      if p !in done {
        assert p in u && PrintOf(u[p], crc) == PrintOf(v[p], crc);
        assert Same(r.tree[p], u[p]);
      }
    }
    forall p | p in u && p !in v
      ensures Covered(v, done, p) <==> Hidden(v, p)
    {
      NewLinksAreChanges(u, v, crc, p);
      CoveredIsHidden(v, done, p);
    }
  }

  /** A link above something u has is not one in u. */
  lemma NewLinksAreChanges(u: FsTree, v: FsTree, crc: Bytes -> nat, p: Path)
    requires WellFormed(u) && p in u
    ensures Hidden(v, p) ==> Covered(v, Changed(u, v, crc), p)
  {
    if i :| 0 < i < |p| && IsLink(v, p[..i]) {
      AncestorsAreDirs(u, p[..i], p);
      assert p[..i] in Changed(u, v, crc);
    }
  }

  /** Opaque markers inside directories that have nothing in them. */
  lemma {:induction false} ClearRest(s: Fs, v: FsTree, os: seq<Path>, i: nat, c: Config)
    requires ValidFs(s) && Equivalent(s.tree, v) && WellFormed(v) && i <= |os|
    requires forall j :: 0 <= j < |os| ==> IsDir(v, os[j]) && forall p :: p in v ==> !(os[j] < p)
    requires c.strip == 0 && c.whiteouts
    ensures ProcessAll(State(s, []), Opaques(os)[i..], c) == Outcome(State(s, []), false)
    decreases |os| - i
  {
    if i < |os| {
      var d := os[i];
      assert d != [] ==> Same(s.tree[d], v[d]);
      DirIsLinkFree(s.tree, d);
      assert [] + d == d;
      LinkFreeResolvesToItself(s.tree, [], d, MAX_HOPS);
      WhiteoutIsProcessed(s, d, OPAQUE, c);
      assert Emptied(s, d).tree == s.tree;
      assert Opaques(os)[i..][1..] == Opaques(os)[i + 1..];
      ClearRest(s, v, os, i + 1, c);
    }
  }

  // -------------------------------------------------------------------------
  // The inverse
  // -------------------------------------------------------------------------

  /** What diffing before and after assumes of them. Nothing is assumed about
      how the changes were made. */
  ghost predicate Diffable(before: FsTree, after: FsTree, crc: Bytes -> nat) {
    var u, v := Plain(before), Plain(after);
    && WellFormed(before) && WellFormed(after) && RealLinks(v) && Faithful(u, v, crc)
    && (forall p :: p in Changed(u, v, crc) ==> !IsWhiteout(Leaf(p)))
    && (forall p :: p in u.Keys - v.Keys && p != [] ==> Leaf(p) != OPAQUE_NAME)
  }

  /** The lists write_layer_tar is given, and what they are drawn from. */
  ghost predicate LayerLists(before: FsTree, after: FsTree, crc: Bytes -> nat,
                             ps: seq<Path>, ds: seq<Path>, os: seq<Path>) {
    var u, v := SnapshotOf(before, crc), SnapshotOf(after, crc);
    && Listing(ps, Added(u, v) + Modified(u, v))
    && Listing(ds, Deleted(u, v))
    && (forall i :: 0 <= i < |ds| ==> ds[i] != [])
    && forall i :: 0 <= i < |os| ==> IsDir(Plain(after), os[i]) && forall p :: p in Plain(after) ==> !(os[i] < p)
  }

  lemma ListsAreChanges(before: FsTree, after: FsTree, crc: Bytes -> nat)
    requires WellFormed(before) && WellFormed(after)
    ensures var u, v := SnapshotOf(before, crc), SnapshotOf(after, crc);
      && Added(u, v) + Modified(u, v) == Changed(Plain(before), Plain(after), crc)
      && Deleted(u, v) == Plain(before).Keys - Plain(after).Keys
  {
    assert Seen(before, []) && Seen(after, []);
  }

  lemma {:induction false} PackedFromPlain(t: FsTree, ps: seq<Path>)
    requires forall i :: 0 <= i < |ps| ==> ps[i] in Plain(t)
    ensures Packed(t, ps) == Packed(Plain(t), ps)
    decreases |ps|
  {
    if ps != [] {
      PackedFromPlain(t, ps[1..]);
    }
  }

  function ApplyConfig(implied: Mode): Config {
    Config(0, true, implied)
  }

  /** No path swapped directory and file, and no whiteout lands on something
      the later state has. */
  ghost predicate Invertible(before: FsTree, after: FsTree, ds: seq<Path>) {
    var u, v := Plain(before), Plain(after);
    (forall p :: !Clash(u, v, p)) && Harmless(v, Mixed(u, v), ds)
  }

  /** Applying the layer of (before, after) to any tree equivalent to what is
      seen of before: it goes through exactly when no path turned from a
      directory into a file or back, and the result is equivalent to what is
      seen of after exactly when, besides, no whiteout lands on an entry of
      after. */
  lemma ApplyInvertsDiff(r: Fs, before: FsTree, after: FsTree, crc: Bytes -> nat,
                         ps: seq<Path>, ds: seq<Path>, os: seq<Path>, implied: Mode)
    requires Diffable(before, after, crc) && LayerLists(before, after, crc, ps, ds, os)
    requires ValidFs(r) && Equivalent(r.tree, Plain(before))
    ensures var (s, ok) := Extract(r, Layer(after, ps, ds, os), ApplyConfig(implied));
      && (ok <==> forall p :: !Clash(Plain(before), Plain(after), p))
      && (ok ==> ValidFs(s))
      && (ok && Equivalent(s.tree, Plain(after)) <==> Invertible(before, after, ds))
  {
    var u, v, c := Plain(before), Plain(after), ApplyConfig(implied);
    PlainIsWellFormed(before);
    PlainIsWellFormed(after);
    ListsAreChanges(before, after, crc);
    forall i | 0 <= i < |ps|
      ensures ps[i] in v
    {
      assert ps[i] in ps;
    }
    PackedFromPlain(after, ps);
    assert ps[0..] == ps && Elements(ps[..0]) == {};
    assert PackedSoFar(r, r, v, {});
    PackRest(r, r, u, v, crc, ps, 0, c);
    ClashesAreListed(u, v, crc, ps);
    ProcessConcat(State(r, []), Packed(v, ps), Whiteouts(ds) + Opaques(os), c);
    var o := ProcessAll(State(r, []), Packed(v, ps), c);
    if !o.raised {
      PackedMatches(o.state.fs, r, u, v, crc);
      RestOfLayer(o.state.fs, u, v, ds, os, c);
    }
  }

  lemma ClashesAreListed(u: FsTree, v: FsTree, crc: Bytes -> nat, ps: seq<Path>)
    requires WellFormed(u) && WellFormed(v) && NoSpecials(u) && NoSpecials(v) && Listing(ps, Changed(u, v, crc))
    ensures ClashFree(u, v, ps) <==> forall p :: !Clash(u, v, p)
  {
    if p :| Clash(u, v, p) {
      assert p in Changed(u, v, crc) && p in ps;
    }
  }

  lemma DeletedAreDeletable(u: FsTree, v: FsTree, ds: seq<Path>)
    requires WellFormed(u) && Listing(ds, u.Keys - v.Keys)
    requires forall p :: p in u.Keys - v.Keys && p != [] ==> Leaf(p) != OPAQUE_NAME
    requires forall j :: 0 <= j < |ds| ==> ds[j] != []
    ensures forall j :: 0 <= j < |ds| ==> Deletable(ds[j])
  {
    forall j | 0 <= j < |ds|
      ensures Deletable(ds[j])
    {
      assert ds[j] in ds;
      PathsAreValid(u, ds[j]);
    }
  }

  /** The whiteouts and the markers, on a tree with everything packed. */
  lemma RestOfLayer(s1: Fs, u: FsTree, v: FsTree, ds: seq<Path>, os: seq<Path>, c: Config)
    requires Clashless(u, v) && ValidFs(s1) && Equivalent(s1.tree, Mixed(u, v))
    requires Listing(ds, u.Keys - v.Keys) && c.strip == 0 && c.whiteouts
    requires forall p :: p in u.Keys - v.Keys && p != [] ==> Leaf(p) != OPAQUE_NAME
    requires forall j :: 0 <= j < |ds| ==> ds[j] != []
    requires forall j :: 0 <= j < |os| ==> IsDir(v, os[j]) && forall p :: p in v ==> !(os[j] < p)
    ensures var o := ProcessAll(State(s1, []), Whiteouts(ds) + Opaques(os), c);
      && !o.raised && o.state.links == [] && ValidFs(o.state.fs)
      && (Equivalent(o.state.fs.tree, v) <==> Harmless(v, Mixed(u, v), ds))
  {
    DeletedAreDeletable(u, v, ds);
    MixedIsWellFormed(u, v);
    WhiteoutAll(s1, Mixed(u, v), ds, c);
    WhiteoutsLeaveV(u, v, ds);
    ProcessConcat(State(s1, []), Whiteouts(ds), Opaques(os), c);
    var o := ProcessAll(State(s1, []), Whiteouts(ds), c);
    forall j | 0 <= j < |os|
      ensures ValidPath(os[j])
    {
      PathsAreValid(v, os[j]);
    }
    OpaquesOnlyRemove(o.state.fs, os, c);
    if Harmless(v, Mixed(u, v), ds) {
      assert Opaques(os)[0..] == Opaques(os);
      ClearRest(o.state.fs, v, os, 0, c);
    }
  }

  // -------------------------------------------------------------------------
  // Chains of layers
  // -------------------------------------------------------------------------

  /** One build step: the states around it and the lists its layer was
      written from. */
  datatype Step = Step(before: FsTree, after: FsTree, ps: seq<Path>, ds: seq<Path>, os: seq<Path>)

  ghost predicate StepRight(x: Step, crc: Bytes -> nat) {
    Diffable(x.before, x.after, crc) && LayerLists(x.before, x.after, crc, x.ps, x.ds, x.os)
  }

  /** Every step starts from the state the one before it left. */
  ghost predicate Consecutive(steps: seq<Step>, crc: Bytes -> nat) {
    steps != [] ==>
      && StepRight(steps[0], crc)
      && (|steps| > 1 ==> steps[1].before == steps[0].after)
      && Consecutive(steps[1..], crc)
  }

  ghost predicate AllInvertible(steps: seq<Step>) {
    steps != [] ==> Invertible(steps[0].before, steps[0].after, steps[0].ds) && AllInvertible(steps[1..])
  }

  /** The step's layer; the root itself is never deleted. */
  ghost function LayerOf(x: Step): seq<Member> {
    if forall j :: 0 <= j < |x.ds| ==> x.ds[j] != [] then Layer(x.after, x.ps, x.ds, x.os) else []
  }

  ghost function Replay(r: Fs, steps: seq<Step>, implied: Mode): (Fs, bool)
    decreases |steps|
  {
    if steps == [] then (r, true)
    else
      var (s, ok) := Extract(r, LayerOf(steps[0]), ApplyConfig(implied));
      if ok then Replay(s, steps[1..], implied) else (s, false)
  }

  /** Every layer goes through, and each replayed state is equivalent to the
      real one. */
  ghost predicate Tracks(r: Fs, steps: seq<Step>, implied: Mode)
    decreases |steps|
  {
    steps == [] ||
      var (s, ok) := Extract(r, LayerOf(steps[0]), ApplyConfig(implied));
      ok && Equivalent(s.tree, Plain(steps[0].after)) && Tracks(s, steps[1..], implied)
  }

  lemma ChainUnfolds(r: Fs, steps: seq<Step>, crc: Bytes -> nat, implied: Mode)
    requires steps != []
    ensures var (s, ok) := Extract(r, LayerOf(steps[0]), ApplyConfig(implied));
      && (Tracks(r, steps, implied) <==> ok && Equivalent(s.tree, Plain(steps[0].after)) && Tracks(s, steps[1..], implied))
      && Replay(r, steps, implied) == if ok then Replay(s, steps[1..], implied) else (s, false)
    ensures AllInvertible(steps) <==> Invertible(steps[0].before, steps[0].after, steps[0].ds) && AllInvertible(steps[1..])
    ensures Consecutive(steps, crc) <==>
      StepRight(steps[0], crc) && (|steps| > 1 ==> steps[1].before == steps[0].after) && Consecutive(steps[1..], crc)
    ensures forall t :: Tracks(t, [], implied) && Replay(t, [], implied) == (t, true) && AllInvertible([])
  {
    hide Extract, Invertible, Equivalent, StepRight, LayerOf;
  }

  /** Folding the layers of a chain of real states T0, T1, ..., Tn onto any
      tree equivalent to T0: the replay keeps up with the chain, state by
      state, exactly when every step can be inverted, and then it ends in a
      tree equivalent to Tn. The replayed intermediates need not equal the
      real ones. */
  lemma {:induction false} ReplayReachesTheLastState(r: Fs, steps: seq<Step>, crc: Bytes -> nat, implied: Mode)
    requires steps != [] && Consecutive(steps, crc)
    requires ValidFs(r) && Equivalent(r.tree, Plain(steps[0].before))
    ensures Tracks(r, steps, implied) <==> AllInvertible(steps)
    ensures var (s, ok) := Replay(r, steps, implied);
      AllInvertible(steps) ==> ok && ValidFs(s) && Equivalent(s.tree, Plain(steps[|steps| - 1].after))
    decreases |steps|
  {
    var x, rest := steps[0], steps[1..];
    ChainUnfolds(r, steps, crc, implied);
    hide Extract, Invertible, Equivalent, StepRight, ValidFs, Plain, LayerOf, Tracks, AllInvertible, Replay, Consecutive;
    hide ApplyConfig;
    StepReaches(r, x, crc, implied);
    var (s, ok) := Extract(r, LayerOf(x), ApplyConfig(implied));
    if ok && rest != [] && Equivalent(s.tree, Plain(x.after)) {
      assert rest[0] == steps[1] && rest[|rest| - 1] == steps[|steps| - 1];
      ReplayReachesTheLastState(s, rest, crc, implied);
    }
  }

  lemma StepReaches(r: Fs, x: Step, crc: Bytes -> nat, implied: Mode)
    requires StepRight(x, crc) && ValidFs(r) && Equivalent(r.tree, Plain(x.before))
    ensures var (s, ok) := Extract(r, LayerOf(x), ApplyConfig(implied));
      && (ok ==> ValidFs(s))
      && (ok && Equivalent(s.tree, Plain(x.after)) <==> Invertible(x.before, x.after, x.ds))
  {
    ApplyInvertsDiff(r, x.before, x.after, crc, x.ps, x.ds, x.os, implied);
  }

  // -------------------------------------------------------------------------
  // The program's own calls
  // -------------------------------------------------------------------------

  /** A RUN step: snapshot, snapshot, diff, pack. */
  method CaptureLayer(before: FsTree, after: FsTree, crc: Bytes -> nat)
    returns (ms: seq<Member>, ghost x: Step)
    requires WellFormed(before) && WellFormed(after)
    ensures x.before == before && x.after == after && LayerLists(before, after, crc, x.ps, x.ds, x.os)
    ensures ms == Layer(after, x.ps, x.ds, x.os)
  {
    var was := TakeSnapshot(before, crc);
    var now := TakeSnapshot(after, crc);
    SnapshotEntries(before, crc);
    SnapshotEntries(after, crc);
    var added, modified, deleted := DiffSnapshots(was, now);
    ghost var ps, ds, os;
    assert Elements(added + modified) == Added(was, now) + Modified(was, now);
    assert Elements(deleted) == Deleted(was, now);
    ms, ps, ds, os := WriteLayerTar(after, added + modified, deleted, []);
    assert forall i :: 0 <= i < |os| ==> os[i] in os;
    x := Step(before, after, ps, ds, os);
  }

  lemma SnapshotEntries(t: FsTree, crc: Bytes -> nat)
    requires WellFormed(t)
    ensures Entries(SnapshotOf(t, crc).Keys)
  {
    forall p | p in SnapshotOf(t, crc)
      ensures ValidPath(p)
    {
      PathsAreValid(t, p);
    }
  }

  /** Capturing a step's layer and applying it elsewhere, as the build cache
      does on a hit, with the extractor, descriptor cache and all: when it
      goes through, and when the other rootfs becomes equivalent to the one
      the step left. ds are the deleted paths, in order. */
  method CaptureAndApply(before: FsTree, after: FsTree, crc: Bytes -> nat, k: Kernel, root: nat, implied: Mode)
    returns (ok: bool, ghost ds: seq<Path>)
    requires Diffable(before, after, crc)
    requires ValidFs(k.fs) && root in k.fds && k.Where(root) == Some([]) && Equivalent(k.fs.tree, Plain(before))
    modifies k
    ensures k.fds == old(k.fds) && Listing(ds, Plain(before).Keys - Plain(after).Keys)
    ensures ok <==> forall p :: !Clash(Plain(before), Plain(after), p)
    ensures ok && Equivalent(k.fs.tree, Plain(after)) <==> Invertible(before, after, ds)
  {
    ghost var x;
    var ms;
    ms, x := CaptureLayer(before, after, crc);
    ds := x.ds;
    ListsAreChanges(before, after, crc);
    ApplyInvertsDiff(k.fs, before, after, crc, x.ps, x.ds, x.os, implied);
    var e := new Extractor(k, root);
    ok := e.ExtractStream(ms, ApplyConfig(implied));
  }

  // -------------------------------------------------------------------------
  // A step that cannot be inverted
  // -------------------------------------------------------------------------

  /** A directory d that holds x, beside a directory e that holds one too ... */
  function TwoDirs(d: Name, e: Name, x: Name, file: FileInfo): FsTree {
    map[[] := Dir(DirInfo(0, 0x1ED)), [d] := Dir(DirInfo(1, 0x1ED)), [e] := Dir(DirInfo(2, 0x1ED)),
        [d, x] := File(file), [e, x] := File(file)]
  }

  /** ... and the same once d has become a link to e. */
  function DirAndLink(d: Name, e: Name, x: Name, file: FileInfo): FsTree {
    map[[] := Dir(DirInfo(0, 0x1ED)), [d] := Link(e), [e] := Dir(DirInfo(2, 0x1ED)), [e, x] := File(file)]
  }

  ghost predicate Distinct(d: Name, e: Name, x: Name) {
    && ValidName(d) && ValidName(e) && ValidName(x) && d != e
    && !IsWhiteout(d) && !IsWhiteout(x) && [d] != L2S && [e] != L2S
  }

  lemma PathsDiffer(d: Name, e: Name, x: Name)
    requires d != e
    ensures [d] != [e] && [d, x] != [e, x] && [] != [d] && [] != [e]
    ensures Parent([d]) == [] && Parent([e]) == [] && Parent([d, x]) == [d] && Parent([e, x]) == [e]
    ensures Leaf([d]) == d && Leaf([e]) == e && Leaf([d, x]) == x && Leaf([e, x]) == x
  {
    assert [d][0] != [e][0] && [d, x][0] != [e, x][0];
  }

  lemma NewLinkTrees(d: Name, e: Name, x: Name, file: FileInfo)
    requires Distinct(d, e, x)
    ensures var u, v := TwoDirs(d, e, x, file), DirAndLink(d, e, x, file);
      WellFormed(u) && WellFormed(v) && Plain(u) == u && Plain(v) == v && ValidFs(Fs(u, 3))
  {
    var u, v := TwoDirs(d, e, x, file), DirAndLink(d, e, x, file);
    PathsDiffer(d, e, x);
    assert !IsDir(u, L2S) && !IsDir(v, L2S);
    assert Rooted(u, [d]) && Rooted(u, [e]) && Rooted(u, [d, x]) && Rooted(u, [e, x]);
    assert Rooted(v, [d]) && Rooted(v, [e]) && Rooted(v, [e, x]);
    forall p
      ensures Alone(u, p)
    {
      assert IsDir(u, p) ==> PathOf(u, u[p].dir.ino).Some?;
    }
  }

  lemma NewLinkChanges(d: Name, e: Name, x: Name, file: FileInfo, crc: Bytes -> nat)
    requires d != e
    ensures var u, v := TwoDirs(d, e, x, file), DirAndLink(d, e, x, file);
      Changed(u, v, crc) == {[d]} && u.Keys - v.Keys == {[d, x]}
  {
    PathsDiffer(d, e, x);
  }

  lemma NewLinkIsDiffable(d: Name, e: Name, x: Name, file: FileInfo, crc: Bytes -> nat)
    requires Distinct(d, e, x)
    ensures Diffable(TwoDirs(d, e, x, file), DirAndLink(d, e, x, file), crc)
  {
    var u, v := TwoDirs(d, e, x, file), DirAndLink(d, e, x, file);
    PathsDiffer(d, e, x);
    NewLinkTrees(d, e, x, file);
    NewLinkChanges(d, e, x, file, crc);
    hide Plain, ValidFs, WellFormed, Changed;
    assert OPAQUE_NAME[..|WHITEOUT|] == WHITEOUT;
    assert RealLinks(v) && Faithful(u, v, crc);
  }

  lemma NewLinkLists(d: Name, e: Name, x: Name, file: FileInfo, crc: Bytes -> nat)
    requires Distinct(d, e, x)
    ensures LayerLists(TwoDirs(d, e, x, file), DirAndLink(d, e, x, file), crc, [[d]], [[d, x]], [])
  {
    NewLinkTrees(d, e, x, file);
    NewLinkChanges(d, e, x, file, crc);
    hide TwoDirs, DirAndLink, Plain, SnapshotOf, Added, Modified, Deleted, Changed, WellFormed, ValidFs;
    ListsAreChanges(TwoDirs(d, e, x, file), DirAndLink(d, e, x, file), crc);
  }

  lemma NewLinkLeads(d: Name, e: Name, x: Name, file: FileInfo)
    requires Distinct(d, e, x)
    ensures Resolve(DirAndLink(d, e, x, file), [d]) == At([e], MAX_HOPS - 1)
  {
    var v := DirAndLink(d, e, x, file);
    PathsDiffer(d, e, x);
    SplitNoSlash(e);
    assert [] + [d] == [d] && [] + [e] == [e] && Split(e) + [d][1..] == [e] && [e][1..] == [];
    assert IsLink(v, [d]) && !IsLink(v, [e]) && !IsAbsolute(e);
    assert ResolveFrom(v, [], [e], MAX_HOPS - 1) == ResolveFrom(v, [e], [], MAX_HOPS - 1);
  }

  lemma NewLinkHarms(d: Name, e: Name, x: Name, file: FileInfo)
    requires Distinct(d, e, x)
    ensures var u, v := TwoDirs(d, e, x, file), DirAndLink(d, e, x, file);
      (forall p :: !Clash(u, v, p)) && !Harmless(v, Mixed(u, v), [[d, x]])
  {
    var u, v := TwoDirs(d, e, x, file), DirAndLink(d, e, x, file);
    PathsDiffer(d, e, x);
    NewLinkTrees(d, e, x, file);
    NewLinkChanges(d, e, x, file, (b: Bytes) => 0);
    NewLinkLeads(d, e, x, file);
    assert Clashless(u, v) && [e, x] in v && [e] + [x] == [e, x];
    assert forall p :: IsLink(u, p) ==> p in v;
    hide TwoDirs, DirAndLink, Plain, Changed, WellFormed, ValidFs, Clashless, Mixed, Harmless, Resolve;
    LaterStateDecides(u, v, [[d, x]]);
    assert [d, x] in u.Keys - v.Keys;
  }

  /** A directory with something in it turns into a link: the layer goes
      through, but the whiteout for what it held follows the new link, and
      takes the namesake behind it, which both states have. */
  lemma WhiteoutThroughNewLink(d: Name, e: Name, x: Name, file: FileInfo, crc: Bytes -> nat, implied: Mode)
    requires Distinct(d, e, x)
    ensures var u, v := TwoDirs(d, e, x, file), DirAndLink(d, e, x, file);
      var (s, ok) := Extract(Fs(u, 3), Layer(v, [[d]], [[d, x]], []), ApplyConfig(implied));
      LayerLists(u, v, crc, [[d]], [[d, x]], []) && ok && !Equivalent(s.tree, v)
  {
    var u, v, ds := TwoDirs(d, e, x, file), DirAndLink(d, e, x, file), [[d, x]];
    NewLinkTrees(d, e, x, file);
    NewLinkIsDiffable(d, e, x, file, crc);
    NewLinkLists(d, e, x, file, crc);
    NewLinkHarms(d, e, x, file);
    assert Equivalent(u, u);
    hide TwoDirs, DirAndLink, Plain, Diffable, LayerLists, Extract, Layer, Equivalent, Clash, Harmless, Mixed, Distinct, ValidFs, WellFormed;
    ApplyInvertsDiff(Fs(u, 3), u, v, crc, [[d]], ds, [], implied);
  }
}
