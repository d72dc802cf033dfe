/** Hard links of an archive. One is queued when its member comes, and made
    after all the others as a copy of the file it names. What the resulting
    tree has there is said over the archive itself. */
module HardLinks {
  import opened Attributes
  import opened Names
  import opened Trees
  import opened Resolver
  import opened Kernels
  import opened TarExtract
  import opened Members

  // -------------------------------------------------------------------------
  // The archive and the rootfs it is extracted into
  // -------------------------------------------------------------------------

  predicate Apart(x: Path, y: Path) {
    !(x <= y) && !(y <= x)
  }

  /** No symbolic link stands at y, and the archive puts none there. */
  ghost predicate NeverALink(t: FsTree, ms: seq<Member>, c: Config, y: Path) {
    !IsLink(t, y) && forall m :: m in ms && m.kind.SymMember? ==> Place(m, c) != Some(y)
  }

  ghost predicate NoNewLinks(t0: FsTree, ms: seq<Member>, c: Config, t: FsTree) {
    forall y :: NeverALink(t0, ms, c, y) ==> !IsLink(t, y)
  }

  /** No symbolic link is on the way to the member's place. */
  ghost predicate Straight(t: FsTree, ms: seq<Member>, c: Config, m: Member) {
    var place := Place(m, c);
    place.Some? ==>
      && (forall n :: 0 < n < |place.value| ==> NeverALink(t, ms, c, place.value[..n]))
      && (m.kind.LinkMember? ==> NeverALink(t, ms, c, place.value))
  }

  /** The member neither takes y away nor writes at, above or beneath it;
      above it there may be directories. */
  ghost predicate KeepsOff(m: Member, c: Config, y: Path) {
    var place := Place(m, c);
    place.Some? && place.value != [] ==>
      var d, name := Parent(place.value), Leaf(place.value);
      if c.whiteouts && ".wh." <= name then if name == ".wh..wh..opq" then !(d < y) else !(d + [name[4..]] <= y)
      else if m.kind.DirMember? then !(y <= place.value)
      else Apart(place.value, y)
  }

  /** The archive holds a file for p and a hard link to p for q, in whatever
      order; no other member gets in the way of either, and no name leads
      through a symbolic link. */
  ghost predicate Linked(t: FsTree, ms: seq<Member>, c: Config, i: nat, j: nat, p: Path, q: Path) {
    && i < |ms| && j < |ms| && ms[i].kind.RegMember? && ms[j].kind.LinkMember?
    && StandsFor(ms[i].name, c.strip, p) && StandsFor(ms[j].name, c.strip, q) && StandsFor(ms[j].kind.linkname, c.strip, p)
    && (forall k :: 0 <= k < |ms| ==> Straight(t, ms, c, ms[k]) && (k != i && k != j ==> KeepsOff(ms[k], c, p) && KeepsOff(ms[k], c, q)))
    && p != [] && q != [] && !(q <= p)
    && (c.whiteouts ==> !(".wh." <= Leaf(p)) && !(".wh." <= Leaf(q)))
  }

  /** A queued link: ours, or one that has nothing to do with it. */
  ghost predicate Queued(t: FsTree, ms: seq<Member>, c: Config, p: Path, q: Path, link: (seq<string>, seq<string>)) {
    var to := WithoutDots(link.0);
    && Dotted(link.0) && Dotted(link.1) && to != [] && (forall n :: 0 < n <= |to| ==> NeverALink(t, ms, c, to[..n]))
    && ((to == q && WithoutDots(link.1) == p) || (Apart(to, p) && Apart(to, q)))
  }

  ghost predicate Ours(p: Path, q: Path, link: (seq<string>, seq<string>)) {
    WithoutDots(link.0) == q && WithoutDots(link.1) == p
  }

  /** The rootfs after some of the members; first and second say whether the
      file and the link have been among them. */
  ghost predicate Underway(t0: FsTree, ms: seq<Member>, c: Config, p: Path, q: Path, f: FileInfo, s: Fs, first: bool, second: bool)
    requires q != []
  {
    && ValidFs(s) && NoNewLinks(t0, ms, c, s.tree)
    && (IsDir(s.tree, q) <==> IsDir(t0, q))
    && (first ==> Holds(s.tree, p, f)) && (second ==> IsDir(s.tree, Parent(q)))
  }

  lemma StraightIsLinkFree(t0: FsTree, ms: seq<Member>, c: Config, t: FsTree, x: Path)
    requires ValidPath(x) && NoNewLinks(t0, ms, c, t)
    requires forall n :: 0 < n <= |x| ==> NeverALink(t0, ms, c, x[..n])
    ensures LinkFree(t, x)
  {
  }

  lemma WayToPlace(t0: FsTree, ms: seq<Member>, c: Config, t: FsTree, m: Member) returns (x: seq<string>)
    requires m in ms && Place(m, c).Some? && Straight(t0, ms, c, m) && NoNewLinks(t0, ms, c, t)
    ensures MemberParts(m.name, c.strip) == Some(x) && x != [] && Dotted(x) && Place(m, c) == Some(WithoutDots(x))
    ensures var p := Place(m, c).value;
      p != [] && ValidPath(p) && Leaf(p) == Leaf(x) && Resolve(t, Parent(x)) == At(Parent(p), MAX_HOPS)
  {
    x := PlaceOfParts(m, c);
    var p := Place(m, c).value;
    forall n | 0 < n <= |Parent(p)|
      ensures NeverALink(t0, ms, c, Parent(p)[..n])
    {
      assert Parent(p)[..n] == p[..n];
    }
    StraightIsLinkFree(t0, ms, c, t, Parent(p));
    assert [] + WithoutDots(Parent(x)) == Parent(p);
    DotsLeadNowhere(t, [], Parent(x), MAX_HOPS);
  }

  /** A member whose way has no link on it lands at its own place. */
  lemma LandsAtItsPlace(t0: FsTree, ms: seq<Member>, c: Config, st: State, m: Member)
    requires m in ms && Place(m, c).Some? && Straight(t0, ms, c, m) && NoNewLinks(t0, ms, c, st.fs.tree)
    ensures Place(m, c).value != [] && ValidPath(Place(m, c).value)
    ensures var x := Place(m, c).value;
      var d, name := Parent(x), Leaf(x);
      var o := Process(st, m, c);
      if c.whiteouts && IsWhiteout(name) then
        o == Outcome(if Reachable(st.fs, d) then st.(fs := Whiteout(st.fs, d, name)) else st, false)
      else
        var (s1, there) := DescendCreate(st.fs, [], d, c.implied);
        if there then Write(s1, d, name, m.kind) == (o.state.fs, !o.raised) else o.raised
    ensures !m.kind.LinkMember? ==> Process(st, m, c).state.links == st.links
  {
    var x := WayToPlace(t0, ms, c, st.fs.tree, m);
    hide ResolveFrom, DescendCreate, Write, Whiteout, Reachable, DeferLink, IsWhiteout, WithoutDots, Straight, NoNewLinks;
  }

  // -------------------------------------------------------------------------
  // The members, one after the other
  // -------------------------------------------------------------------------

  ghost predicate Kept(t: FsTree, t': FsTree, y: Path) {
    (y in t ==> y in t' && t'[y] == t[y]) && (y in t' ==> y in t)
  }

  /** A directory stays one. */
  ghost predicate StaysDir(t: FsTree, t': FsTree, y: Path) {
    IsDir(t, y) ==> IsDir(t', y)
  }

  /** A member that keeps off y. */
  lemma KeptByMember(t0: FsTree, ms: seq<Member>, c: Config, st: State, m: Member, y: Path)
    requires ValidFs(st.fs) && m in ms && Straight(t0, ms, c, m) && NoNewLinks(t0, ms, c, st.fs.tree)
    requires !Process(st, m, c).raised && KeepsOff(m, c, y) && y != [] && forall n :: 0 < n < |y| ==> NeverALink(t0, ms, c, y[..n])
    ensures var t' := Process(st, m, c).state.fs.tree; Kept(st.fs.tree, t', y) && StaysDir(st.fs.tree, t', Parent(y))
  {
    if Place(m, c).Some? {
      var x := Place(m, c).value;
      LandsAtItsPlace(t0, ms, c, st, m);
      if c.whiteouts && IsWhiteout(Leaf(x)) {
        WhiteoutOnlyRemoves(st.fs, Parent(x), Leaf(x));
        assert Parent(x) < Parent(y) ==> Parent(x) < y;
        var gone := Parent(x) + [Leaf(x)[4..]];
        assert gone <= Parent(y) ==> gone <= y;
      } else {
        MadeOnlyAt(st.fs, x, m.kind, c.implied);
        KeptByWriting(t0, ms, c, st.fs, Process(st, m, c).state.fs, x, m.kind, y);
      }
    }
  }

  lemma KeptByWriting(t0: FsTree, ms: seq<Member>, c: Config, s: Fs, s': Fs, x: Path, kind: Kind, y: Path)
    requires y != [] && (if kind.DirMember? then !(y <= x) else Apart(x, y)) && OnlyAt(s.tree, s'.tree, x)
    requires kind.DirMember? && !IsLink(s.tree, x) ==> IsDir(s'.tree, x) && Extends(s.tree, s'.tree, x)
    requires forall n :: 0 < n < |y| ==> !IsLink(s.tree, y[..n])
    requires x != []
    ensures Kept(s.tree, s'.tree, y) && StaysDir(s.tree, s'.tree, Parent(y))
  {
    if x <= y {
      assert y[..|x|] == x && |x| < |y|;
    } else {
      assert x <= Parent(y) ==> x <= y;
    }
  }

  lemma MemberIsValid(t0: FsTree, ms: seq<Member>, c: Config, st: State, m: Member)
    requires ValidFs(st.fs) && m in ms && Straight(t0, ms, c, m) && NoNewLinks(t0, ms, c, st.fs.tree)
    requires !Process(st, m, c).raised
    ensures ValidFs(Process(st, m, c).state.fs) && NoNewLinks(t0, ms, c, Process(st, m, c).state.fs.tree)
  {
    if Place(m, c).Some? {
      var x := Place(m, c).value;
      LandsAtItsPlace(t0, ms, c, st, m);
      if c.whiteouts && IsWhiteout(Leaf(x)) {
        WhiteoutOnlyRemoves(st.fs, Parent(x), Leaf(x));
      } else {
        MadeOnlyAt(st.fs, x, m.kind, c.implied);
      }
    }
  }

  lemma WaysAreStraight(t0: FsTree, ms: seq<Member>, c: Config, i: nat, j: nat, p: Path, q: Path)
    requires Linked(t0, ms, c, i, j, p, q)
    ensures Place(ms[i], c) == Some(p) && Place(ms[j], c) == Some(q) && ValidPath(p) && ValidPath(q) && i != j
    ensures forall n :: 0 < n < |p| ==> NeverALink(t0, ms, c, p[..n])
    ensures forall n :: 0 < n <= |q| ==> NeverALink(t0, ms, c, q[..n])
  {
    NamedPlace(ms[i], c, p);
    NamedPlace(ms[j], c, q);
    assert q[..|q|] == q;
  }

  /** The file's own member. */
  lemma FileArrives(t0: FsTree, ms: seq<Member>, c: Config, i: nat, j: nat, p: Path, q: Path, st: State, first: bool, second: bool)
    requires Linked(t0, ms, c, i, j, p, q) && Underway(t0, ms, c, p, q, ms[i].kind.file, st.fs, first, second)
    requires !Process(st, ms[i], c).raised
    ensures Underway(t0, ms, c, p, q, ms[i].kind.file, Process(st, ms[i], c).state.fs, true, second)
  {
    WaysAreStraight(t0, ms, c, i, j, p, q);
    MemberIsValid(t0, ms, c, st, ms[i]);
    LandsAtItsPlace(t0, ms, c, st, ms[i]);
    MadeOnlyAt(st.fs, p, ms[i].kind, c.implied);
    var s, s' := st.fs, Process(st, ms[i], c).state.fs;
    hide NeverALink, Process, ValidFs, KeepsOff, Straight, StandsFor;
    NothingInAFile(s, p, q);
    NothingInAFile(s, p, Parent(q));
    NothingInAFile(s', p, q);
    assert q <= p ==> false;
    assert Parent(q) < p && second ==> IsDir(s.tree, Parent(q));
  }

  /** No directory is at or beneath what is none. */
  lemma NothingInAFile(s: Fs, p: Path, y: Path)
    requires ValidFs(s) && !IsDir(s.tree, p)
    ensures p <= y ==> !IsDir(s.tree, y)
  {
    if IsDir(s.tree, y) && p <= y {
      assert p != y;
      AncestorsAreDirs(s.tree, p, y);
    }
  }

  /** The link's own member. */
  lemma LinkArrives(t0: FsTree, ms: seq<Member>, c: Config, i: nat, j: nat, p: Path, q: Path, st: State, first: bool, second: bool)
    requires Linked(t0, ms, c, i, j, p, q) && Underway(t0, ms, c, p, q, ms[i].kind.file, st.fs, first, second)
    requires !Process(st, ms[j], c).raised
    ensures Underway(t0, ms, c, p, q, ms[i].kind.file, Process(st, ms[j], c).state.fs, first, true)
  {
    hide NeverALink, ValidFs, KeepsOff, StandsFor, DescendCreate, Write, Process, Whiteout;
    WaysAreStraight(t0, ms, c, i, j, p, q);
    MemberIsValid(t0, ms, c, st, ms[j]);
    LandsAtItsPlace(t0, ms, c, st, ms[j]);
    MadeOnlyAt(st.fs, q, ms[j].kind, c.implied);
    LinkKeeps(st.fs.tree, Process(st, ms[j], c).state.fs.tree, p, q);
    hide Linked, Straight, NoNewLinks, Extends;
  }

  lemma LinkKeeps(t: FsTree, t': FsTree, p: Path, q: Path)
    requires Extends(t, t', q) && (q in t' ==> q in t && t'[q] == t[q]) && p != q
    ensures IsDir(t', q) <==> IsDir(t, q)
    ensures p in t ==> p in t' && t'[p] == t[p]
  {
  }

  /** Any of the members. */
  lemma MemberArrives(t0: FsTree, ms: seq<Member>, c: Config, i: nat, j: nat, p: Path, q: Path, st: State, k: nat, first: bool, second: bool)
    requires Linked(t0, ms, c, i, j, p, q) && Underway(t0, ms, c, p, q, ms[i].kind.file, st.fs, first, second)
    requires k < |ms| && !Process(st, ms[k], c).raised
    ensures Underway(t0, ms, c, p, q, ms[i].kind.file, Process(st, ms[k], c).state.fs, first || k == i, second || k == j)
  {
    if k == i {
      WaysAreStraight(t0, ms, c, i, j, p, q);
      FileArrives(t0, ms, c, i, j, p, q, st, first, second);
    } else if k == j {
      LinkArrives(t0, ms, c, i, j, p, q, st, first, second);
    } else {
      WaysAreStraight(t0, ms, c, i, j, p, q);
      MemberIsValid(t0, ms, c, st, ms[k]);
      KeptByMember(t0, ms, c, st, ms[k], p);
      KeptByMember(t0, ms, c, st, ms[k], q);
    }
  }

  ghost predicate AllQueued(t0: FsTree, ms: seq<Member>, c: Config, p: Path, q: Path, links: seq<(seq<string>, seq<string>)>) {
    forall l :: l in links ==> Queued(t0, ms, c, p, q, l)
  }

  /** What a member adds to the queue. */
  function Adds(m: Member, c: Config): seq<(seq<string>, seq<string>)> {
    var rel := MemberParts(m.name, c.strip);
    if m.kind.LinkMember? && rel.Some? && !(c.whiteouts && IsWhiteout(Leaf(rel.value)))
    then DeferLink(m.kind.linkname, c.strip, rel.value)
    else []
  }

  lemma LinksAdded(t0: FsTree, ms: seq<Member>, c: Config, st: State, m: Member)
    requires m in ms && Straight(t0, ms, c, m) && NoNewLinks(t0, ms, c, st.fs.tree) && !Process(st, m, c).raised
    ensures Process(st, m, c).state.links == st.links + Adds(m, c)
  {
    assert st.links + [] == st.links;
    if Place(m, c).Some? {
      var x := WayToPlace(t0, ms, c, st.fs.tree, m);
      hide ResolveFrom, DescendCreate, Write, Whiteout, Reachable, DeferLink, IsWhiteout, WithoutDots, Straight, NoNewLinks;
    }
  }

  lemma OurLinkIsQueued(m: Member, c: Config, p: Path, q: Path)
    requires StandsFor(m.name, c.strip, q) && m.kind.LinkMember? && StandsFor(m.kind.linkname, c.strip, p)
    requires q != [] && (c.whiteouts ==> !(".wh." <= Leaf(q)))
    ensures |Adds(m, c)| == 1 && Ours(p, q, Adds(m, c)[0])
  {
    NamedPlace(m, c, q);
    var z := PlaceOfParts(m, c);
    var x := StandsForParts(m.name, c.strip, q);
    var y := StandsForParts(m.kind.linkname, c.strip, p);
  }

  lemma AddedForPlace(m: Member, c: Config)
    requires Adds(m, c) != []
    ensures m.kind.LinkMember? && Place(m, c).Some? && Place(m, c).value != []
    ensures |Adds(m, c)| == 1 && !(c.whiteouts && ".wh." <= Leaf(Place(m, c).value))
    ensures var l := Adds(m, c)[0]; Dotted(l.0) && Dotted(l.1) && WithoutDots(l.0) == Place(m, c).value
  {
    var x := PlaceOfParts(m, c);
    UnescapedIsDotted(Adds(m, c)[0].1);
  }

  lemma LinkIsQueued(t0: FsTree, ms: seq<Member>, c: Config, m: Member, p: Path, q: Path, l: (seq<string>, seq<string>))
    requires m.kind.LinkMember? && Straight(t0, ms, c, m) && Place(m, c) == Some(WithoutDots(l.0)) && WithoutDots(l.0) != []
    requires Dotted(l.0) && Dotted(l.1) && !(c.whiteouts && ".wh." <= Leaf(WithoutDots(l.0)))
    requires Ours(p, q, l) || (KeepsOff(m, c, p) && KeepsOff(m, c, q))
    ensures Queued(t0, ms, c, p, q, l)
  {
    hide NeverALink, Dotted, Place;
    var to := WithoutDots(l.0);
    assert to[..|to|] == to;
  }

  lemma AddedIsQueued(t0: FsTree, ms: seq<Member>, c: Config, i: nat, j: nat, p: Path, q: Path, k: nat)
    requires Linked(t0, ms, c, i, j, p, q) && k < |ms|
    ensures AllQueued(t0, ms, c, p, q, Adds(ms[k], c))
    ensures k == j ==> |Adds(ms[k], c)| == 1 && Ours(p, q, Adds(ms[k], c)[0])
  {
    var m := ms[k];
    WaysAreStraight(t0, ms, c, i, j, p, q);
    if k == j {
      OurLinkIsQueued(m, c, p, q);
    }
    if Adds(m, c) != [] {
      AddedForPlace(m, c);
      var l := Adds(m, c)[0];
      assert Adds(m, c) == [l];
      assert Straight(t0, ms, c, m) && (k != j ==> KeepsOff(m, c, p) && KeepsOff(m, c, q));
      hide Adds, Linked, StandsFor, NeverALink, Straight, KeepsOff, Dotted, Place;
      LinkIsQueued(t0, ms, c, m, p, q, l);
    }
  }

  ghost predicate OursAmong(p: Path, q: Path, links: seq<(seq<string>, seq<string>)>) {
    exists l :: l in links && Ours(p, q, l)
  }

  lemma {:induction false} MembersArrive(t0: FsTree, ms: seq<Member>, c: Config, i: nat, j: nat, p: Path, q: Path, st: State, k: nat)
    requires Linked(t0, ms, c, i, j, p, q) && k <= |ms| && Underway(t0, ms, c, p, q, ms[i].kind.file, st.fs, i < k, j < k)
    requires AllQueued(t0, ms, c, p, q, st.links) && (j < k ==> OursAmong(p, q, st.links))
    requires !ProcessAll(st, ms[k..], c).raised
    ensures var o := ProcessAll(st, ms[k..], c).state;
      && Underway(t0, ms, c, p, q, ms[i].kind.file, o.fs, true, true)
      && AllQueued(t0, ms, c, p, q, o.links) && OursAmong(p, q, o.links)
    decreases |ms| - k
  {
    if k < |ms| {
      assert ms[k..][0] == ms[k] && ms[k..][1..] == ms[k + 1..];
      var next := Process(st, ms[k], c).state;
      MemberArrives(t0, ms, c, i, j, p, q, st, k, i < k, j < k);
      QueueGrows(t0, ms, c, i, j, p, q, st, k);
      hide Linked, Underway, Process, AllQueued, OursAmong;
      MembersArrive(t0, ms, c, i, j, p, q, next, k + 1);
    }
  }

  lemma QueueGrows(t0: FsTree, ms: seq<Member>, c: Config, i: nat, j: nat, p: Path, q: Path, st: State, k: nat)
    requires Linked(t0, ms, c, i, j, p, q) && k < |ms| && NoNewLinks(t0, ms, c, st.fs.tree) && AllQueued(t0, ms, c, p, q, st.links)
    requires !Process(st, ms[k], c).raised && (j < k ==> OursAmong(p, q, st.links))
    ensures var links := Process(st, ms[k], c).state.links;
      AllQueued(t0, ms, c, p, q, links) && (j <= k ==> OursAmong(p, q, links))
  {
    assert Straight(t0, ms, c, ms[k]);
    LinksAdded(t0, ms, c, st, ms[k]);
    AddedIsQueued(t0, ms, c, i, j, p, q, k);
    hide Linked, Process, Adds, Queued, Ours, NoNewLinks, Straight;
    var links := st.links + Adds(ms[k], c);
    if k == j {
      assert links[|st.links|] == Adds(ms[k], c)[0];
    } else if j < k {
      var l :| l in st.links && Ours(p, q, l);
      assert l in links;
    }
  }

  // -------------------------------------------------------------------------
  // The queue
  // -------------------------------------------------------------------------

  /** One copy changes its own place alone, and makes no link. */
  lemma CopiedOnlyAt(s: Fs, to: Path, from: Path, c: Config)
    requires ValidFs(s) && to != [] && from != [] && ValidPath(to)
    ensures var s' := CopyBeside(s, to, from, c);
      ValidFs(s') && OnlyAt(s.tree, s'.tree, to) && forall y :: IsLink(s'.tree, y) ==> IsLink(s.tree, y)
  {
    var d := Parent(to);
    assert [] + d == d && d + [Leaf(to)] == to && !(to <= d);
    DescendCreateIsValid(s, [], d, c.implied);
    DescendAddsDirs(s, [], d, c.implied);
    var (s1, there) := DescendCreate(s, [], d, c.implied);
    if there && !IsDir(s1.tree, to) {
      RemovedIsValid(s1, to);
      var s2 := Removed(s1, to);
      if IsFile(s2.tree, from) {
        WithNodeIsValid(s2, to, s2.tree[from]);
      }
    }
  }

  /** Copying p onto q, where q is no directory. */
  lemma CopiedOver(s: Fs, p: Path, q: Path, c: Config)
    requires ValidFs(s) && IsFile(s.tree, p) && p != [] && q != [] && !(q <= p) && IsDir(s.tree, Parent(q))
    ensures CopyBeside(s, q, p, c) == if IsDir(s.tree, q) then s else WithNode(Removed(s, q), q, s.tree[p])
  {
    assert [] + Parent(q) == Parent(q);
    NothingToCreate(s, [], Parent(q), c.implied);
    assert Rooted(s.tree, p);
    DirIsReachable(s, Parent(p));
  }

  /** Where a queued link's name leads: to its own place. */
  lemma QueuedLeadsStraight(t0: FsTree, ms: seq<Member>, c: Config, t: FsTree, p: Path, q: Path, l: (seq<string>, seq<string>))
    requires Queued(t0, ms, c, p, q, l) && NoNewLinks(t0, ms, c, t)
    ensures Resolve(t, l.0) == At(WithoutDots(l.0), MAX_HOPS) && ValidPath(WithoutDots(l.0))
  {
    WithoutDotsIsValid(l.0);
    StraightIsLinkFree(t0, ms, c, t, WithoutDots(l.0));
    assert [] + WithoutDots(l.0) == WithoutDots(l.0);
    DotsLeadNowhere(t, [], l.0, MAX_HOPS);
  }

  lemma FileLeadsStraight(s: Fs, p: Path, x: seq<string>)
    requires ValidFs(s) && IsFile(s.tree, p) && Dotted(x) && WithoutDots(x) == p
    ensures Resolve(s.tree, x) == At(p, MAX_HOPS)
  {
    WithoutDotsIsValid(x);
    forall n | 0 < n <= |p|
      ensures !IsLink(s.tree, p[..n])
    {
      if n < |p| {
        AncestorsAreDirs(s.tree, p[..n], p);
      } else {
        assert p[..n] == p;
      }
    }
    assert [] + p == p;
    DotsLeadNowhere(s.tree, [], x, MAX_HOPS);
  }

  /** A link that is not ours. */
  lemma OtherCopied(t0: FsTree, ms: seq<Member>, c: Config, p: Path, q: Path, f: FileInfo, s: Fs, l: (seq<string>, seq<string>))
    requires q != [] && Underway(t0, ms, c, p, q, f, s, true, true) && Queued(t0, ms, c, p, q, l) && !Ours(p, q, l)
    ensures var s' := CopyLink(s, l.0, l.1, c);
      Underway(t0, ms, c, p, q, f, s', true, true) && (Holds(s.tree, q, f) ==> Holds(s'.tree, q, f))
  {
    QueuedLeadsStraight(t0, ms, c, s.tree, p, q, l);
    var a := Resolve(s.tree, l.1);
    if a.At? && a.path != [] {
      CopiedOnlyAt(s, WithoutDots(l.0), a.path, c);
      var to := WithoutDots(l.0);
      assert to <= Parent(q) ==> to <= q;
      hide CopyBeside, ValidFs, NeverALink, Resolve, WithoutDots;
    }
  }

  /** Ours. */
  lemma OursCopied(t0: FsTree, ms: seq<Member>, c: Config, p: Path, q: Path, f: FileInfo, s: Fs, l: (seq<string>, seq<string>))
    requires q != [] && p != [] && !(q <= p) && ValidPath(q)
    requires Underway(t0, ms, c, p, q, f, s, true, true) && Queued(t0, ms, c, p, q, l) && Ours(p, q, l)
    ensures var s' := CopyLink(s, l.0, l.1, c);
      Underway(t0, ms, c, p, q, f, s', true, true) && (!IsDir(t0, q) ==> Holds(s'.tree, q, f))
  {
    QueuedLeadsStraight(t0, ms, c, s.tree, p, q, l);
    FileLeadsStraight(s, p, l.1);
    CopiedOver(s, p, q, c);
    CopiedOnlyAt(s, q, p, c);
    var s' := CopyBeside(s, q, p, c);
    assert CopyLink(s, l.0, l.1, c) == s';
    hide CopyBeside, NeverALink, Resolve, WithoutDots, ValidFs, CopyLink, Queued;
    assert q <= Parent(q) ==> false;
  }

  lemma {:induction false} LinksCopied(t0: FsTree, ms: seq<Member>, c: Config, p: Path, q: Path, f: FileInfo, s: Fs,
                                       links: seq<(seq<string>, seq<string>)>)
    requires q != [] && p != [] && !(q <= p) && ValidPath(q)
    requires Underway(t0, ms, c, p, q, f, s, true, true) && AllQueued(t0, ms, c, p, q, links)
    ensures var s' := CopyLinks(s, links, c);
      && Underway(t0, ms, c, p, q, f, s', true, true)
      && ((Holds(s.tree, q, f) || (OursAmong(p, q, links) && !IsDir(t0, q))) ==> Holds(s'.tree, q, f))
    decreases |links|
  {
    if links != [] {
      var l, rest := links[0], links[1..];
      assert l in links && links == [l] + rest;
      if Ours(p, q, l) {
        OursCopied(t0, ms, c, p, q, f, s, l);
        assert Holds(s.tree, q, f) ==> !IsDir(t0, q);
      } else {
        OtherCopied(t0, ms, c, p, q, f, s, l);
      }
      hide Underway, Queued, Ours, CopyLink;
      LinksCopied(t0, ms, c, p, q, f, CopyLink(s, l.0, l.1, c), rest);
    }
  }

  /** What a hard link of an archive comes to. The archive holds a regular
      file for p and a link to it for q, and the extraction goes through:
      then the rootfs has the file at p, and at q a file with its content
      and mode, unless a directory was standing there. */
  lemma HardLinkIsACopy(s: Fs, ms: seq<Member>, c: Config, i: nat, j: nat, p: Path, q: Path)
    requires ValidFs(s) && Linked(s.tree, ms, c, i, j, p, q) && Extract(s, ms, c).1
    ensures var t := Extract(s, ms, c).0.tree;
      && IsFile(t, p) && t[p].file == ms[i].kind.file
      && (IsFile(t, q) && t[q].file == ms[i].kind.file <==> !IsDir(s.tree, q))
  {
    var o := ProcessAll(State(s, []), ms, c);
    assert ms[0..] == ms;
    WaysAreStraight(s.tree, ms, c, i, j, p, q);
    MembersArrive(s.tree, ms, c, i, j, p, q, State(s, []), 0);
    LinksCopied(s.tree, ms, c, p, q, ms[i].kind.file, o.state.fs, o.state.links);
  }

  /** The shortest such archive, for any rootfs: a file, and a link to it. */
  lemma FileAndLink(s: Fs, n: Name, m: Name, f: FileInfo, c: Config)
    requires ValidFs(s) && ValidName(n) && ValidName(m) && n != m && c.strip == 0
    requires !(c.whiteouts && (".wh." <= n || ".wh." <= m)) && !IsDir(s.tree, [n]) && !IsLink(s.tree, [m])
    ensures var (fs, ok) := Extract(s, [Member(n, RegMember(f)), Member(m, LinkMember(n))], c);
      ok && Holds(fs.tree, [n], f) && (Holds(fs.tree, [m], f) <==> !IsDir(s.tree, [m]))
  {
    var ms := [Member(n, RegMember(f)), Member(m, LinkMember(n))];
    FileAndLinkAreLinked(s, n, m, f, c);
    GoesThrough(s, ms, c, n, m);
    HardLinkIsACopy(s, ms, c, 0, 1, [n], [m]);
    hide Linked, Extract;
  }

  lemma FileAndLinkAreLinked(s: Fs, n: Name, m: Name, f: FileInfo, c: Config)
    requires ValidName(n) && ValidName(m) && n != m && c.strip == 0
    requires !(c.whiteouts && (".wh." <= n || ".wh." <= m)) && !IsLink(s.tree, [m])
    ensures Linked(s.tree, [Member(n, RegMember(f)), Member(m, LinkMember(n))], c, 0, 1, [n], [m])
  {
    var ms := [Member(n, RegMember(f)), Member(m, LinkMember(n))];
    NameStandsForItself(n);
    NameStandsForItself(m);
    NamedPlace(ms[0], c, [n]);
    NamedPlace(ms[1], c, [m]);
    hide StandsFor, Place;
    assert [m][..1] == [m] && Leaf([n]) == n && Leaf([m]) == m;
    assert [n][0] == n && [m][0] == m;
    assert NeverALink(s.tree, ms, c, [m]);
    assert Straight(s.tree, ms, c, ms[0]);
    assert Straight(s.tree, ms, c, ms[1]);
    hide Straight, KeepsOff, NeverALink;
  }

  lemma NameStandsForItself(n: Name)
    requires ValidName(n)
    ensures StandsFor(n, 0, [n])
  {
    assert WithoutDots([n]) == [n];
    assert [] + [n] == [n] && "" + Join([n]) + "" == n;
    assert Spelled(n, 0, [n], "", [], "");
  }

  lemma GoesThrough(s: Fs, ms: seq<Member>, c: Config, n: Name, m: Name)
    requires Linked(s.tree, ms, c, 0, 1, [n], [m]) && |ms| == 2 && ValidFs(s) && !IsDir(s.tree, [n])
    ensures Extract(s, ms, c).1
  {
    var st := State(s, []);
    assert NoNewLinks(s.tree, ms, c, s.tree);
    hide StandsFor, NeverALink, NoNewLinks, KeepsOff, Process, Write, ProcessAll;
    WaysAreStraight(s.tree, ms, c, 0, 1, [n], [m]);
    assert Straight(s.tree, ms, c, ms[0]) && Straight(s.tree, ms, c, ms[1]);
    assert Parent([n]) == [] && Parent([m]) == [] && Leaf([n]) == n && Leaf([m]) == m;
    LandsAtItsPlace(s.tree, ms, c, st, ms[0]);
    WrittenAtTop(s, n, ms[0].kind);
    var st1 := Process(st, ms[0], c).state;
    MemberIsValid(s.tree, ms, c, st, ms[0]);
    LandsAtItsPlace(s.tree, ms, c, st1, ms[1]);
    WrittenAtTop(st1.fs, m, ms[1].kind);
    TwoGoThrough(st, ms, c);
  }

  lemma TwoGoThrough(st: State, ms: seq<Member>, c: Config)
    requires |ms| == 2 && !Process(st, ms[0], c).raised && !Process(Process(st, ms[0], c).state, ms[1], c).raised
    ensures !ProcessAll(st, ms, c).raised
  {
    hide Process;
    var st1 := Process(st, ms[0], c).state;
    assert ms[1..][0] == ms[1] && ms[1..][1..] == [];
    assert !ProcessAll(Process(st1, ms[1], c).state, [], c).raised;
    assert !ProcessAll(st1, ms[1..], c).raised;
  }

  lemma WrittenAtTop(s: Fs, n: Name, kind: Kind)
    ensures (kind.RegMember? && !IsDir(s.tree, [n])) || kind.LinkMember? ==> Write(s, [], n, kind).1
  {
    assert [] + [n] == [n];
  }
}
