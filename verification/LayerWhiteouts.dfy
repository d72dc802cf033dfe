/** The whiteouts of a layer, applied one after another to a tree in which
    every surviving entry is already in its final state. A whiteout is looked
    for through whatever links that tree has, so that one beneath a directory
    that became a link may land elsewhere: Landing says where. */
module LayerWhiteouts {
  import opened Names
  import opened Trees
  import opened Resolver
  import opened Kernels
  import opened TarExtract
  import opened LayerDiff
  import opened Attributes

  /** What a layer carries faithfully: kind, content, mode and whole-second
      time of a file, target of a link, and a directory's mode up to the
      owner's own bits, which the extractor always grants. */
  predicate Same(a: FsNode, b: FsNode) {
    match (a, b)
    case (Dir(x), Dir(y)) => AtLeastOwner(x.mode) == AtLeastOwner(y.mode)
    case (File(x), File(y)) => x.data == y.data && x.mode == y.mode && WholeSeconds(x.mtime) == WholeSeconds(y.mtime)
    case (Link(x), Link(y)) => x == y
    case _ => false
  }

  ghost predicate Equivalent(t: FsTree, u: FsTree) {
    && t.Keys == u.Keys
    && forall p :: p in t && p != [] ==> Same(t[p], u[p])
  }

  /** A name that would be taken for the opaque marker. */
  const OPAQUE_NAME := ".wh..opq"

  ghost predicate Deletable(d: Path) {
    d != [] && ValidPath(d) && Leaf(d) != OPAQUE_NAME
  }

  // -------------------------------------------------------------------------
  // Where a whiteout lands
  // -------------------------------------------------------------------------

  /** The entry a whiteout for d removes from a tree, if any. */
  function Landing(m: FsTree, d: Path): Option<Path> {
    if d == [] then None
    else
      var a := Resolve(m, Parent(d));
      if a.At? && IsDir(m, a.path) then Some(a.path + [Leaf(d)]) else None
  }

  function AfterWhiteout(m: FsTree, d: Path): FsTree {
    var at := Landing(m, d);
    if at.Some? then Without(m, at.value) else m
  }

  function AfterWhiteouts(m: FsTree, ds: seq<Path>): FsTree
    decreases |ds|
  {
    if ds == [] then m else AfterWhiteouts(AfterWhiteout(m, ds[0]), ds[1..])
  }

  /** None of the whiteouts, each in the tree the ones before it left, lands
      on an entry of v. */
  predicate Harmless(v: FsTree, m: FsTree, ds: seq<Path>)
    decreases |ds|
  {
    ds == [] || (!LandsIn(v, m, ds[0]) && Harmless(v, AfterWhiteout(m, ds[0]), ds[1..]))
  }

  predicate LandsIn(v: FsTree, m: FsTree, d: Path) {
    Landing(m, d).Some? && Landing(m, d).value in v
  }

  /** m holds all of v, as it is in v. */
  ghost predicate Holds(m: FsTree, v: FsTree) {
    forall p :: p in v ==> p in m && m[p] == v[p]
  }

  lemma HarmlessStep(v: FsTree, m: FsTree, d: Path)
    requires WellFormed(v) && Holds(m, v) && !LandsIn(v, m, d)
    ensures Holds(AfterWhiteout(m, d), v)
  {
    var at := Landing(m, d);
    if at.Some? {
      forall p | p in v
        ensures !(at.value <= p)
      {
        if at.value <= p {
          assert at.value != p;
          AncestorsAreDirs(v, at.value, p);
        }
      }
    }
  }

  lemma {:induction false} WhiteoutsOnlyRemove(m: FsTree, ds: seq<Path>)
    ensures AfterWhiteouts(m, ds).Keys <= m.Keys
    decreases |ds|
  {
    if ds != [] {
      WhiteoutsOnlyRemove(AfterWhiteout(m, ds[0]), ds[1..]);
    }
  }

  /** All of v survives the whiteouts exactly if none of them lands in it. */
  lemma {:induction false} HarmlessKeepsAll(v: FsTree, m: FsTree, ds: seq<Path>)
    requires WellFormed(v) && Holds(m, v)
    ensures Harmless(v, m, ds) <==> v.Keys <= AfterWhiteouts(m, ds).Keys
    ensures Harmless(v, m, ds) ==> Holds(AfterWhiteouts(m, ds), v)
    decreases |ds|
  {
    if ds != [] {
      var next := AfterWhiteout(m, ds[0]);
      if LandsIn(v, m, ds[0]) {
        WhiteoutsOnlyRemove(next, ds[1..]);
        assert Landing(m, ds[0]).value !in next;
      } else {
        HarmlessStep(v, m, ds[0]);
        HarmlessKeepsAll(v, next, ds[1..]);
      }
    }
  }

  // -------------------------------------------------------------------------
  // The extractor's whiteouts are these
  // -------------------------------------------------------------------------

  lemma PartsOfSpelling(p: Path)
    requires p != [] && ValidPath(p)
    ensures MemberParts(Join(p), 0) == Some(p)
  {
    JoinEnds(p);
    SplitOfJoin(p);
  }

  ghost predicate SameLinks<D, F>(t: Tree<D, F>, u: Tree<D, F>) {
    forall p :: (IsLink(t, p) <==> IsLink(u, p)) && (IsLink(t, p) ==> t[p].target == u[p].target)
  }

  /** Resolution depends on nothing but the links. */
  lemma {:induction false} SameLinksSameAnswer<D, F>(t: Tree<D, F>, u: Tree<D, F>, resolved: Path, pending: seq<string>, budget: nat)
    requires SameLinks(t, u)
    ensures ResolveFrom(t, resolved, pending, budget) == ResolveFrom(u, resolved, pending, budget)
    decreases budget, |pending|
  {
    if pending != [] {
      var comp, rest := pending[0], pending[1..];
      if comp == "" || comp == "." {
        SameLinksSameAnswer(t, u, resolved, rest, budget);
      } else if comp == ".." {
        SameLinksSameAnswer(t, u, Up(resolved), rest, budget);
      } else if !IsLink(t, resolved + [comp]) {
        SameLinksSameAnswer(t, u, resolved + [comp], rest, budget);
      } else if budget > 0 {
        var target := t[resolved + [comp]].target;
        SameLinksSameAnswer(t, u, if IsAbsolute(target) then [] else resolved, Split(target) + rest, budget - 1);
      }
    }
  }

  lemma EquivalentHasSameLinks(t: FsTree, u: FsTree)
    requires Equivalent(t, u) && WellFormed(t) && WellFormed(u)
    ensures SameLinks(t, u)
    ensures forall p :: IsDir(t, p) <==> IsDir(u, p)
  {
    forall p
      ensures (IsLink(t, p) <==> IsLink(u, p)) && (IsLink(t, p) ==> t[p].target == u[p].target) && (IsDir(t, p) <==> IsDir(u, p))
    {
      assert p in t && p != [] ==> Same(t[p], u[p]);
    }
  }

  /** A member with a whiteout's name: what it does, wherever its parent may
      resolve to. */
  lemma WhiteoutIsProcessed(s: Fs, d: Path, leaf: Name, c: Config)
    requires ValidFs(s) && ValidPath(d) && ValidName(leaf) && IsWhiteout(leaf) && c.strip == 0 && c.whiteouts
    ensures var a := Resolve(s.tree, d);
      Process(State(s, []), MARK.(name := Join(d + [leaf])), c) ==
        Outcome(State(if a.At? && IsDir(s.tree, a.path) then Whiteout(s, a.path, leaf) else s, []), false)
  {
    var p := d + [leaf];
    PartsOfSpelling(p);
    assert Parent(p) == d && Leaf(p) == leaf;
    var a := Resolve(s.tree, d);
    if a.At? {
      DirIsReachable(s, a.path);
    }
  }

  lemma WhiteoutNamesTheEntry(s: Fs, at: Path, name: Name)
    requires ValidName(name) && name != OPAQUE_NAME
    ensures ValidName(WHITEOUT + name) && IsWhiteout(WHITEOUT + name)
    ensures Whiteout(s, at, WHITEOUT + name) == Removed(s, at + [name])
  {
    assert (WHITEOUT + name)[|WHITEOUT|..] == name;
    assert OPAQUE[|WHITEOUT|..] == OPAQUE_NAME;
  }

  /** On any tree equivalent to m, a whiteout does what AfterWhiteout says. */
  lemma WhiteoutOne(s: Fs, m: FsTree, d: Path, c: Config)
    requires ValidFs(s) && WellFormed(m) && Equivalent(s.tree, m) && Deletable(d) && c.strip == 0 && c.whiteouts
    ensures var o := Process(State(s, []), WhiteoutMember(d), c);
      && o == Outcome(State(o.state.fs, []), false)
      && ValidFs(o.state.fs) && WellFormed(AfterWhiteout(m, d)) && Equivalent(o.state.fs.tree, AfterWhiteout(m, d))
  {
    var up, name := Parent(d), Leaf(d);
    assert ValidPath(up) && ValidName(name);
    EquivalentHasSameLinks(s.tree, m);
    SameLinksSameAnswer(s.tree, m, [], up, MAX_HOPS);
    var a := Resolve(m, up);
    WhiteoutNamesTheEntry(s, if a.At? then a.path else [], name);
    WhiteoutIsProcessed(s, up, WHITEOUT + name, c);
    if a.At? && IsDir(m, a.path) {
      RemovedIsValid(s, a.path + [name]);
      WithoutIsWellFormed(m, a.path + [name]);
    }
  }

  lemma {:induction false} WhiteoutAll(s: Fs, m: FsTree, ds: seq<Path>, c: Config)
    requires ValidFs(s) && WellFormed(m) && Equivalent(s.tree, m) && c.strip == 0 && c.whiteouts
    requires forall j :: 0 <= j < |ds| ==> ds[j] != [] && Deletable(ds[j])
    ensures var o := ProcessAll(State(s, []), Whiteouts(ds), c);
      && o == Outcome(State(o.state.fs, []), false)
      && ValidFs(o.state.fs) && WellFormed(AfterWhiteouts(m, ds)) && Equivalent(o.state.fs.tree, AfterWhiteouts(m, ds))
    decreases |ds|
  {
    if ds != [] {
      hide Process, WhiteoutMember, AfterWhiteout, Equivalent, Deletable, WellFormed, ValidFs;
      WhiteoutOne(s, m, ds[0], c);
      var o := Process(State(s, []), WhiteoutMember(ds[0]), c);
      assert Whiteouts(ds)[1..] == Whiteouts(ds[1..]);
      WhiteoutAll(o.state.fs, AfterWhiteout(m, ds[0]), ds[1..], c);
    }
  }

  /** An opaque marker empties the directory its parent leads to, which stays;
      without such a directory it does nothing. */
  lemma OpaqueEmpties(s: Fs, d: Path, c: Config)
    requires ValidFs(s) && ValidPath(d) && c.strip == 0 && c.whiteouts
    ensures OpaqueMember(d).name == Join(d + [".wh..wh..opq"])
    ensures var a, o := Resolve(s.tree, d), Process(State(s, []), OpaqueMember(d), c);
      && !o.raised && o.state.links == []
      && (forall p :: p in o.state.fs.tree <==> p in s.tree && !(a.At? && IsDir(s.tree, a.path) && a.path < p))
      && (forall p :: p in o.state.fs.tree ==> o.state.fs.tree[p] == s.tree[p])
  {
    WhiteoutIsProcessed(s, d, OPAQUE, c);
    hide ResolveFrom, ValidFs;
  }

  /** An opaque marker removes things and does nothing else. */
  lemma {:induction false} OpaquesOnlyRemove(s: Fs, os: seq<Path>, c: Config)
    requires ValidFs(s) && (forall j :: 0 <= j < |os| ==> ValidPath(os[j])) && c.strip == 0 && c.whiteouts
    ensures var o := ProcessAll(State(s, []), Opaques(os), c);
      && o == Outcome(State(o.state.fs, []), false)
      && ValidFs(o.state.fs) && o.state.fs.tree.Keys <= s.tree.Keys
    decreases |os|
  {
    if os != [] {
      WhiteoutIsProcessed(s, os[0], OPAQUE, c);
      var a := Resolve(s.tree, os[0]);
      if a.At? {
        EmptiedIsValid(s, a.path);
      }
      hide Process, ValidFs, Whiteout;
      var o := Process(State(s, []), OpaqueMember(os[0]), c);
      assert Opaques(os)[1..] == Opaques(os[1..]);
      OpaquesOnlyRemove(o.state.fs, os[1..], c);
    }
  }

  // -------------------------------------------------------------------------
  // From u to v
  // -------------------------------------------------------------------------

  /** Beneath something that is a link in v. */
  predicate Hidden(v: FsTree, p: Path) {
    exists i :: 0 < i < |p| && IsLink(v, p[..i])
  }

  /** Everything packed and nothing deleted yet: all of v, and what is left of
      u; where a link took a directory's place, nothing is. */
  function Mixed(u: FsTree, v: FsTree): FsTree {
    map p | p in u.Keys + v.Keys && !Hidden(v, p) :: if p in v then v[p] else u[p]
  }

  /** A directory in a file's place, or the reverse. */
  predicate Clash(u: FsTree, v: FsTree, p: Path) {
    (IsDir(u, p) && IsFile(v, p)) || (IsFile(u, p) && IsDir(v, p))
  }

  ghost predicate NoSpecials(t: FsTree) {
    forall p :: p in t ==> !t[p].Special?
  }

  /** Two visible states without a clash. */
  ghost predicate Clashless(u: FsTree, v: FsTree) {
    WellFormed(u) && WellFormed(v) && NoSpecials(u) && NoSpecials(v) && forall p :: !Clash(u, v, p)
  }

  lemma NotHidden(v: FsTree, p: Path)
    requires WellFormed(v) && p in v
    ensures !Hidden(v, p)
  {
    if i :| 0 < i < |p| && IsLink(v, p[..i]) {
      AncestorsAreDirs(v, p[..i], p);
    }
  }

  lemma MixedHolds(u: FsTree, v: FsTree)
    requires WellFormed(v)
    ensures Holds(Mixed(u, v), v)
  {
    forall p | p in v
      ensures p in Mixed(u, v)
    {
      NotHidden(v, p);
    }
  }

  lemma HiddenAbove(v: FsTree, p: Path)
    requires p != [] && !Hidden(v, p)
    ensures Parent(p) != [] ==> !Hidden(v, Parent(p)) && !IsLink(v, Parent(p))
  {
    var d := Parent(p);
    if d != [] {
      assert d == p[..|p| - 1];
      forall i | 0 < i < |d|
        ensures d[..i] == p[..i]
      {
      }
    }
  }

  lemma MixedIsWellFormed(u: FsTree, v: FsTree)
    requires Clashless(u, v)
    ensures WellFormed(Mixed(u, v))
  {
    var m := Mixed(u, v);
    MixedHolds(u, v);
    forall p | p in m && p != []
      ensures Rooted(m, p)
    {
      var d := Parent(p);
      if p in v {
        assert Rooted(v, p);
      } else {
        assert Rooted(u, p);
        HiddenAbove(v, p);
        assert !Clash(u, v, d);
      }
    }
  }

  /** The deleted paths still to come are all that is left beside v. */
  ghost predicate Between(m: FsTree, u: FsTree, v: FsTree, ds: seq<Path>, i: nat)
    requires i <= |ds|
  {
    && WellFormed(m) && Holds(m, v)
    && (forall p :: p in m ==> p in Mixed(u, v) && m[p] == Mixed(u, v)[p])
    && forall j :: 0 <= j < i ==> ds[j] !in m
  }

  /** A deleted entry that is still there is reached directly. */
  lemma StillThereLandsOnItself(m: FsTree, u: FsTree, v: FsTree, ds: seq<Path>, i: nat)
    requires Clashless(u, v) && Listing(ds, u.Keys - v.Keys) && i < |ds| && Between(m, u, v, ds, i)
    requires ds[i] in m && ds[i] != []
    ensures Landing(m, ds[i]) == Some(ds[i])
  {
    var d := ds[i];
    var up := Parent(d);
    assert Rooted(m, d);
    PathsAreValid(m, up);
    forall k | 0 < k <= |up|
      ensures !IsLink(m, up[..k])
    {
      AncestorsAreDirs(m, up[..k], d);
    }
    assert [] + up == up && up + [Leaf(d)] == d;
    LinkFreeResolvesToItself(m, [], up, MAX_HOPS);
  }

  lemma WithoutAgrees(m: FsTree, u: FsTree, v: FsTree, ds: seq<Path>, i: nat)
    requires Clashless(u, v) && Listing(ds, u.Keys - v.Keys) && i < |ds| && ds[i] != [] && Between(m, u, v, ds, i)
    requires !LandsIn(v, m, ds[i])
    ensures Between(AfterWhiteout(m, ds[i]), u, v, ds, i + 1)
  {
    HarmlessStep(v, m, ds[i]);
    if ds[i] in m {
      StillThereLandsOnItself(m, u, v, ds, i);
    }
    var at := Landing(m, ds[i]);
    if at.Some? {
      WithoutIsWellFormed(m, at.value);
    }
  }

  /** When nothing lands in v, v is what is left. */
  lemma {:induction false} OnlySurvivorsStay(m: FsTree, u: FsTree, v: FsTree, ds: seq<Path>, i: nat)
    requires Clashless(u, v) && Listing(ds, u.Keys - v.Keys) && i <= |ds| && Between(m, u, v, ds, i)
    requires Harmless(v, m, ds[i..]) && forall j :: 0 <= j < |ds| ==> ds[j] != []
    ensures AfterWhiteouts(m, ds[i..]) == v
    decreases |ds| - i
  {
    if i == |ds| {
      forall d | d in u.Keys - v.Keys
        ensures d !in m
      {
        assert d in ds;
      }
      assert m == v;
    } else {
      assert ds[i..][0] == ds[i] && ds[i..][1..] == ds[i + 1..];
      WithoutAgrees(m, u, v, ds, i);
      OnlySurvivorsStay(AfterWhiteout(m, ds[i]), u, v, ds, i + 1);
    }
  }

  /** The whiteouts leave v exactly if none of them lands in it. */
  lemma WhiteoutsLeaveV(u: FsTree, v: FsTree, ds: seq<Path>)
    requires Clashless(u, v) && Listing(ds, u.Keys - v.Keys) && forall j :: 0 <= j < |ds| ==> ds[j] != []
    ensures Harmless(v, Mixed(u, v), ds) <==> AfterWhiteouts(Mixed(u, v), ds) == v
    ensures Harmless(v, Mixed(u, v), ds) <==> v.Keys <= AfterWhiteouts(Mixed(u, v), ds).Keys
  {
    MixedHolds(u, v);
    MixedIsWellFormed(u, v);
    HarmlessKeepsAll(v, Mixed(u, v), ds);
    if Harmless(v, Mixed(u, v), ds) {
      assert ds[0..] == ds;
      OnlySurvivorsStay(Mixed(u, v), u, v, ds, 0);
    }
  }

  // -------------------------------------------------------------------------
  // When the condition can be read off the two states
  // -------------------------------------------------------------------------

  /** No directory with something in it turns into a link. */
  ghost predicate LinksOverEmptyDirs(u: FsTree, v: FsTree) {
    forall p, q :: p in u && IsLink(v, q) && q < p ==> !IsDir(u, q)
  }

  /** What has become unreachable is looked for in vain. */
  lemma GoneLandsNowhere(m: FsTree, u: FsTree, v: FsTree, ds: seq<Path>, i: nat)
    requires Clashless(u, v) && LinksOverEmptyDirs(u, v) && Listing(ds, u.Keys - v.Keys) && i < |ds| && Between(m, u, v, ds, i)
    requires ds[i] != []
    ensures !LandsIn(v, m, ds[i])
  {
    var d := ds[i];
    var up := Parent(d);
    assert d in ds && d in u.Keys - v.Keys;
    PathsAreValid(u, d);
    forall k | 0 < k <= |up|
      ensures !IsLink(m, up[..k])
    {
      var q := up[..k];
      assert q == d[..k] && q < d;
      AncestorsAreDirs(u, q, d);
      if q in m && q !in v {
        assert m[q] == u[q];
      }
    }
    assert [] + up == up && up + [Leaf(d)] == d;
    LinkFreeResolvesToItself(m, [], up, MAX_HOPS);
  }

  lemma {:induction false} EmptyDirsAreHarmless(m: FsTree, u: FsTree, v: FsTree, ds: seq<Path>, i: nat)
    requires Clashless(u, v) && LinksOverEmptyDirs(u, v) && Listing(ds, u.Keys - v.Keys)
    requires i <= |ds| && Between(m, u, v, ds, i) && forall j :: 0 <= j < |ds| ==> ds[j] != []
    ensures Harmless(v, m, ds[i..])
    decreases |ds| - i
  {
    if i < |ds| {
      assert ds[i..][0] == ds[i] && ds[i..][1..] == ds[i + 1..];
      GoneLandsNowhere(m, u, v, ds, i);
      WithoutAgrees(m, u, v, ds, i);
      EmptyDirsAreHarmless(AfterWhiteout(m, ds[i]), u, v, ds, i + 1);
    }
  }

  /** Where no directory with something in it turned into a link, every
      whiteout finds its own entry. */
  lemma NoNewLinkNoHarm(u: FsTree, v: FsTree, ds: seq<Path>)
    requires Clashless(u, v) && LinksOverEmptyDirs(u, v) && Listing(ds, u.Keys - v.Keys)
    requires forall j :: 0 <= j < |ds| ==> ds[j] != []
    ensures Harmless(v, Mixed(u, v), ds)
  {
    MixedHolds(u, v);
    MixedIsWellFormed(u, v);
    assert ds[0..] == ds;
    EmptyDirsAreHarmless(Mixed(u, v), u, v, ds, 0);
  }

  lemma LandingInV(m: FsTree, v: FsTree, d: Path)
    requires WellFormed(v) && Holds(m, v) && SameLinks(m, v) && d != [] && ValidPath(d)
    ensures LandsIn(v, m, d) <==> Resolve(v, Parent(d)).At? && Resolve(v, Parent(d)).path + [Leaf(d)] in v
  {
    SameLinksSameAnswer(m, v, [], Parent(d), MAX_HOPS);
    var a := Resolve(v, Parent(d));
    if a.At? && a.path + [Leaf(d)] in v {
      assert Rooted(v, a.path + [Leaf(d)]);
      assert Parent(a.path + [Leaf(d)]) == a.path;
    }
  }

  /** As long as m has no links but those of v, v alone decides. */
  lemma {:induction false} HarmlessByV(v: FsTree, m: FsTree, ds: seq<Path>)
    requires WellFormed(v) && Holds(m, v) && SameLinks(m, v) && forall j :: 0 <= j < |ds| ==> ds[j] != [] && ValidPath(ds[j])
    ensures Harmless(v, m, ds) <==>
      forall j :: 0 <= j < |ds| ==> !(Resolve(v, Parent(ds[j])).At? && Resolve(v, Parent(ds[j])).path + [Leaf(ds[j])] in v)
    decreases |ds|
  {
    if ds != [] {
      LandingInV(m, v, ds[0]);
      if !LandsIn(v, m, ds[0]) {
        HarmlessStep(v, m, ds[0]);
        HarmlessByV(v, AfterWhiteout(m, ds[0]), ds[1..]);
        assert forall j :: 1 <= j < |ds| ==> ds[1..][j - 1] == ds[j];
      }
    }
  }

  /** If no link was deleted, the whiteouts do no harm exactly if no deleted
      path, taken through the links of the later state, names something that
      state has. */
  lemma LaterStateDecides(u: FsTree, v: FsTree, ds: seq<Path>)
    requires Clashless(u, v) && Listing(ds, u.Keys - v.Keys) && forall j :: 0 <= j < |ds| ==> ds[j] != []
    requires forall p :: IsLink(u, p) ==> p in v
    ensures Harmless(v, Mixed(u, v), ds) <==>
      forall d :: d in u.Keys - v.Keys ==> !(Resolve(v, Parent(d)).At? && Resolve(v, Parent(d)).path + [Leaf(d)] in v)
  {
    var m := Mixed(u, v);
    MixedHolds(u, v);
    forall j | 0 <= j < |ds|
      ensures ValidPath(ds[j])
    {
      assert ds[j] in ds;
      PathsAreValid(u, ds[j]);
    }
    HarmlessByV(v, m, ds);
    forall d | d in u.Keys - v.Keys
      ensures d in ds
    {
    }
  }
}
