/** Single members of an archive, by the name each is spelled with: what one
    leaves in the rootfs, and what it leaves alone. */
module Members {
  import opened Attributes
  import opened Names
  import opened Trees
  import opened Resolver
  import opened Kernels
  import opened TarExtract

  // -------------------------------------------------------------------------
  // How an archive spells a path
  // -------------------------------------------------------------------------

  ghost predicate Slashes(s: string) {
    forall i :: 0 <= i < |s| ==> s[i] == '/'
  }

  function WithoutDots(x: seq<string>): seq<string> {
    if x == [] then [] else (if x[0] == "." then [] else [x[0]]) + WithoutDots(x[1..])
  }

  ghost predicate Dotted(x: seq<string>) {
    forall i :: 0 <= i < |x| ==> ValidName(x[i]) || x[i] == "."
  }

  /** name is x, beneath as many components as are to be dropped, whatever
      these are, between any slashes. */
  ghost predicate Spelled(name: string, strip: nat, x: seq<string>, before: string, lead: seq<string>, after: string) {
    && Slashes(before) && Slashes(after) && |lead| == strip && Components(lead) && (lead != [] ==> lead[0] != "")
    && name == before + Join(lead + x) + after
  }

  /** name stands for the path p: "." components do not count. */
  ghost predicate StandsFor(name: string, strip: nat, p: Path) {
    exists x, before, lead, after ::
      x != [] && Dotted(x) && x[|x| - 1] != "." && WithoutDots(x) == p && Spelled(name, strip, x, before, lead, after)
  }

  lemma {:induction false} LeadingSlashes(a: string, s: string)
    requires Slashes(a) && s != "" && s[0] != '/'
    ensures StripLeft(a + s) == s
  {
    if a == "" {
      assert a + s == s;
    } else {
      assert (a + s)[1..] == a[1..] + s;
      LeadingSlashes(a[1..], s);
    }
  }

  lemma {:induction false} TrailingSlashes(s: string, b: string)
    requires Slashes(b) && s != "" && s[|s| - 1] != '/'
    ensures StripRight(s + b) == s
  {
    if b == "" {
      assert s + b == s;
    } else {
      assert (s + b)[..|s + b| - 1] == s + b[..|b| - 1];
      TrailingSlashes(s, b[..|b| - 1]);
    }
  }

  lemma {:induction false} JoinOuterEnds(p: seq<string>)
    requires p != [] && Components(p) && p[0] != "" && p[|p| - 1] != ""
    ensures Join(p) != "" && Join(p)[0] != '/' && Join(p)[|Join(p)| - 1] != '/'
  {
    var up, n := p[..|p| - 1], p[|p| - 1];
    assert n[|n| - 1] in n && p[0][0] in p[0];
    if up != [] {
      assert p == up + [n];
      JoinAppend(up, n);
      assert Join(p)[0] == p[0][0];
    }
  }

  lemma StrippedSpelling(name: string, x: seq<string>, before: string, after: string)
    requires x != [] && Components(x) && x[0] != "" && x[|x| - 1] != "" && Slashes(before) && Slashes(after)
    requires name == before + Join(x) + after
    ensures Split(StripSlashes(name)) == x
  {
    JoinOuterEnds(x);
    assert name == before + (Join(x) + after);
    assert (Join(x) + after)[0] == Join(x)[0];
    LeadingSlashes(before, Join(x) + after);
    TrailingSlashes(Join(x), after);
    SplitOfJoin(x);
  }

  lemma SpelledParts(name: string, strip: nat, x: seq<string>, before: string, lead: seq<string>, after: string)
    requires x != [] && Dotted(x) && Spelled(name, strip, x, before, lead, after)
    ensures Split(StripSlashes(name)) == lead + x && !Escapes((lead + x)[strip..]) && (lead + x)[strip..] == x
  {
    var all := lead + x;
    assert x[0] != "" && x[|x| - 1] != "";
    assert Components(all);
    StrippedSpelling(name, all, before, after);
    assert all[strip..] == x;
  }

  /** A name that stands for a path, as a member's and as a link's. */
  lemma StandsForParts(name: string, strip: nat, p: Path) returns (x: seq<string>)
    requires StandsFor(name, strip, p)
    ensures Dotted(x) && x != [] && WithoutDots(x) == p && MemberParts(name, strip) == Some(x)
    ensures forall rel :: DeferLink(name, strip, rel) == [(rel, x)]
  {
    var before, lead, after;
    x, before, lead, after :| x != [] && Dotted(x) && x[|x| - 1] != "." && WithoutDots(x) == p && Spelled(name, strip, x, before, lead, after);
    SpelledParts(name, strip, x, before, lead, after);
    assert (lead + x)[|lead + x| - 1] == x[|x| - 1];
  }

  /** Where a member of the archive belongs. */
  function Place(m: Member, c: Config): Option<Path> {
    var parts := MemberParts(m.name, c.strip);
    if m.kind.DeviceMember? || parts.None? then None else Some(WithoutDots(parts.value))
  }

  lemma {:induction false} WithoutDotsIsValid(x: seq<string>)
    requires Dotted(x)
    ensures ValidPath(WithoutDots(x))
  {
    if x != [] {
      WithoutDotsIsValid(x[1..]);
    }
  }

  lemma {:induction false} WithoutDotsAppend(x: seq<string>, n: Name)
    ensures WithoutDots(x + [n]) == WithoutDots(x) + if n == "." then [] else [n]
  {
    if x == [] {
      assert x + [n] == [n];
    } else {
      assert (x + [n])[1..] == x[1..] + [n];
      WithoutDotsAppend(x[1..], n);
    }
  }

  lemma UnescapedIsDotted(x: seq<string>)
    requires Components(x) && !Escapes(x)
    ensures Dotted(x)
  {
  }

  lemma PlaceOfParts(m: Member, c: Config) returns (x: seq<string>)
    requires Place(m, c).Some?
    ensures MemberParts(m.name, c.strip) == Some(x) && Dotted(x) && x != [] && ValidName(Leaf(x))
    ensures var p := Place(m, c).value;
      p != [] && ValidPath(p) && p == WithoutDots(x) && Leaf(p) == Leaf(x) && WithoutDots(Parent(x)) == Parent(p)
  {
    x := MemberParts(m.name, c.strip).value;
    UnescapedIsDotted(x);
    assert x == Parent(x) + [Leaf(x)];
    WithoutDotsAppend(Parent(x), Leaf(x));
    WithoutDotsIsValid(x);
  }

  lemma NamedPlace(m: Member, c: Config, p: Path)
    requires StandsFor(m.name, c.strip, p) && !m.kind.DeviceMember?
    ensures Place(m, c) == Some(p) && ValidPath(p) && p != []
  {
    var x := StandsForParts(m.name, c.strip, p);
    var y := PlaceOfParts(m, c);
  }

  lemma {:induction false} DotsLeadNowhere(t: FsTree, done: Path, x: seq<string>, budget: nat)
    requires Dotted(x) && LinkFree(t, done + WithoutDots(x))
    ensures ResolveFrom(t, done, x, budget) == At(done + WithoutDots(x), budget)
    decreases |x|
  {
    if x == [] {
      assert done + WithoutDots(x) == done;
    } else if x[0] == "." {
      assert WithoutDots(x) == WithoutDots(x[1..]);
      DotsLeadNowhere(t, done, x[1..], budget);
    } else {
      var next := done + [x[0]];
      assert next + WithoutDots(x[1..]) == done + WithoutDots(x);
      assert (done + WithoutDots(x))[..|next|] == next;
      DotsLeadNowhere(t, next, x[1..], budget);
    }
  }

  // -------------------------------------------------------------------------
  // What one member leaves alone
  // -------------------------------------------------------------------------

  ghost predicate Holds(t: FsTree, p: Path, f: FileInfo) {
    IsFile(t, p) && t[p].file == f
  }

  /** Something was made at x, with the directories it takes; nothing that is
      not at x or beneath it was lost or changed. */
  ghost predicate OnlyAt(t: FsTree, t': FsTree, x: Path) {
    forall y :: !(x <= y) ==>
      if y in t then y in t' && t'[y] == t[y] else y in t' ==> y < x && t'[y].Dir?
  }

  ghost predicate SameBut(t: FsTree, t': FsTree, x: Path) {
    forall y :: y != x ==> (y in t <==> y in t') && (y in t ==> t'[y] == t[y])
  }

  lemma {:induction false} DescendAddsDirs(s: Fs, at: Path, rest: Path, mode: Mode)
    ensures var t := DescendCreate(s, at, rest, mode).0.tree;
      && (forall y :: y in s.tree ==> y in t && t[y] == s.tree[y])
      && (forall y :: y in t && y !in s.tree ==> t[y].Dir? && y <= at + rest)
    decreases |rest|
  {
    if rest != [] {
      var q := at + [rest[0]];
      assert q + rest[1..] == at + rest;
      if q !in s.tree {
        DescendAddsDirs(WithDir(s, q, mode), q, rest[1..], mode);
      } else if s.tree[q].Dir? {
        DescendAddsDirs(s, q, rest[1..], mode);
      }
    }
  }

  /** One written entry. */
  lemma WrittenOnlyAt(s: Fs, d: Path, name: Name, kind: Kind)
    requires ValidFs(s) && IsDir(s.tree, d) && ValidName(name)
    ensures var (s', done) := Write(s, d, name, kind);
      && ValidFs(s') && OnlyAt(s.tree, s'.tree, d + [name])
      && (forall y :: IsLink(s'.tree, y) ==> IsLink(s.tree, y) || (kind.SymMember? && y == d + [name]))
      && (kind.RegMember? && done ==> Holds(s'.tree, d + [name], kind.file) && !IsDir(s.tree, d + [name]))
      && (kind.DirMember? && done && !IsLink(s.tree, d + [name]) ==> IsDir(s'.tree, d + [name]) && SameBut(s.tree, s'.tree, d + [name]))
      && (kind.LinkMember? ==> s' == s)
  {
    var p := d + [name];
    assert Parent(p) == d && Leaf(p) == name && !(p <= d);
    if kind.DirMember? {
      WrittenDir(s, p, kind.mode);
    } else if !kind.LinkMember? && !kind.DeviceMember? && !(kind.RegMember? && IsDir(s.tree, p)) {
      RemovedIsValid(s, p);
      var s1 := Removed(s, p);
      if kind.RegMember? {
        WithNodeIsValid(s1, p, File(kind.file));
      } else if kind.target != "" {
        WithNodeIsValid(s1, p, Link(kind.target));
      }
    }
  }

  lemma WrittenDir(s: Fs, p: Path, mode: Mode)
    requires ValidFs(s) && p != [] && IsDir(s.tree, Parent(p)) && ValidName(Leaf(p))
    ensures var (s', done) := Write(s, Parent(p), Leaf(p), DirMember(mode));
      && ValidFs(s') && OnlyAt(s.tree, s'.tree, p) && (forall y :: IsLink(s'.tree, y) ==> IsLink(s.tree, y))
      && (done && !IsLink(s.tree, p) ==> IsDir(s'.tree, p) && SameBut(s.tree, s'.tree, p))
  {
    assert Parent(p) + [Leaf(p)] == p && !(p <= Parent(p));
    RemovedIsValid(s, p);
    var s1 := if IsLink(s.tree, p) then Removed(s, p) else s;
    if p !in s1.tree {
      WithDirIsValid(s1, p, 0x1FF);
      WithModeIsValid(WithDir(s1, p, 0x1FF), p, AtLeastOwner(mode));
    } else if s1.tree[p].Dir? {
      WithModeIsValid(s1, p, AtLeastOwner(mode));
    }
  }

  /** Directories made on the way, and then the entry. */
  lemma MadeOnlyAt(s: Fs, x: Path, kind: Kind, mode: Mode)
    requires ValidFs(s) && x != [] && ValidPath(x) && DescendCreate(s, [], Parent(x), mode).1
    ensures var s1 := DescendCreate(s, [], Parent(x), mode).0;
      var (s2, done) := Write(s1, Parent(x), Leaf(x), kind);
      && ValidFs(s2) && OnlyAt(s.tree, s2.tree, x)
      && (forall y :: IsLink(s2.tree, y) ==> IsLink(s.tree, y) || (kind.SymMember? && y == x))
      && (kind.RegMember? && done ==> Holds(s2.tree, x, kind.file) && !IsDir(s.tree, x))
      && (kind.DirMember? && done && !IsLink(s.tree, x) ==> IsDir(s2.tree, x) && Extends(s.tree, s2.tree, x))
      && (kind.LinkMember? ==> IsDir(s2.tree, Parent(x)) && Extends(s.tree, s2.tree, x) && (x in s2.tree ==> x in s.tree && s2.tree[x] == s.tree[x]))
  {
    var d := Parent(x);
    assert [] + d == d && d + [Leaf(x)] == x && !(x <= d);
    DescendCreateIsValid(s, [], d, mode);
    DescendAddsDirs(s, [], d, mode);
    WrittenOnlyAt(DescendCreate(s, [], d, mode).0, d, Leaf(x), kind);
  }

  /** Nothing but x changed; what is new, x apart, is a directory above it. */
  ghost predicate Extends(t: FsTree, t': FsTree, x: Path) {
    && (forall y :: y in t ==> y in t' && (y != x ==> t'[y] == t[y]))
    && (x in t && x in t' && t[x].Dir? ==> t'[x].Dir?)
    && forall y :: y in t' && y !in t && y != x ==> t'[y].Dir? && y < x
  }

  /** A whiteout takes at most what it names away. */
  lemma WhiteoutOnlyRemoves(s: Fs, d: Path, name: Name)
    requires ValidFs(s) && IsWhiteout(name)
    ensures var s' := Whiteout(s, d, name);
      && ValidFs(s') && (forall y :: y in s'.tree ==> y in s.tree && s'.tree[y] == s.tree[y])
      && forall y :: y in s.tree && y !in s'.tree ==> if name == ".wh..wh..opq" then d < y else d + [name[4..]] <= y
  {
    if name == OPAQUE {
      EmptiedIsValid(s, d);
    } else {
      RemovedIsValid(s, d + [name[4..]]);
    }
  }

  // -------------------------------------------------------------------------
  // What one member comes to
  // -------------------------------------------------------------------------

  /** A member for p, where no link is on the way to p. */
  ghost predicate Direct(s: Fs, m: Member, c: Config, p: Path) {
    ValidFs(s) && p != [] && StandsFor(m.name, c.strip, p) && LinkFree(s.tree, Parent(p))
  }

  lemma DirectStep(st: State, m: Member, c: Config, p: Path)
    requires Direct(st.fs, m, c, p) && !m.kind.DeviceMember? && !m.kind.LinkMember?
    ensures ValidPath(p)
    ensures var d, name := Parent(p), Leaf(p);
      var (s1, there) := DescendCreate(st.fs, [], d, c.implied);
      Process(st, m, c) ==
        if c.whiteouts && ".wh." <= name then Outcome(if IsDir(st.fs.tree, d) then st.(fs := Whiteout(st.fs, d, name)) else st, false)
        else if there then Outcome(st.(fs := Write(s1, d, name, m.kind).0), !Write(s1, d, name, m.kind).1)
        else Outcome(st.(fs := s1), true)
  {
    NamedPlace(m, c, p);
    var y := StandsForParts(m.name, c.strip, p);
    var x := PlaceOfParts(m, c);
    assert [] + WithoutDots(Parent(x)) == Parent(p);
    DotsLeadNowhere(st.fs.tree, [], Parent(x), MAX_HOPS);
    DirIsReachable(st.fs, Parent(p));
    assert st.links + [] == st.links;
    hide ResolveFrom, DescendCreate, Write, Reachable, StandsFor, WithoutDots, LinkFree;
  }

  /** The entry at p goes with the marker of that name in d. */
  predicate TakenAway(d: Path, name: Name, p: Path)
    requires ".wh." <= name
  {
    if name == ".wh..wh..opq" then d < p else name[4..] !in {"", ".", ".."} && d + [name[4..]] <= p
  }

  /** With whiteouts on: an opaque marker leaves its directory and empties it;
      any other takes away the entry it names with all beneath it, unless
      that is no name of an entry. Nothing else changes, and where there is
      no such directory, nothing does. */
  lemma WhiteoutTakesAway(st: State, m: Member, c: Config, d: Path, name: Name)
    requires Direct(st.fs, m, c, d + [name]) && ".wh." <= name && c.whiteouts && !m.kind.DeviceMember? && !m.kind.LinkMember?
    ensures var o := Process(st, m, c);
      && !o.raised && o.state.links == st.links
      && forall p :: p in o.state.fs.tree <==> p in st.fs.tree && !(IsDir(st.fs.tree, d) && TakenAway(d, name, p))
    ensures var o := Process(st, m, c); forall p :: p in o.state.fs.tree ==> o.state.fs.tree[p] == st.fs.tree[p]
  {
    assert Parent(d + [name]) == d && Leaf(d + [name]) == name;
    DirectStep(st, m, c, d + [name]);
  }

  /** A directory keeps what is in it; its mode is the member's, and open to
      its owner. It clashes with whatever is neither directory nor link. */
  lemma DirectoryArrives(st: State, m: Member, c: Config, p: Path)
    requires Direct(st.fs, m, c, p) && m.kind.DirMember? && IsDir(st.fs.tree, Parent(p)) && !(c.whiteouts && ".wh." <= Leaf(p))
    ensures var o := Process(st, m, c);
      var t, t' := st.fs.tree, o.state.fs.tree;
      && (o.raised <==> p in t && !t[p].Dir? && !t[p].Link?)
      && (forall q :: q != p ==> (q in t <==> q in t') && (q in t ==> t'[q] == t[q]))
      && (!o.raised ==> IsDir(t', p) && t'[p].dir.mode & 0x1C0 == 0x1C0 && t'[p].dir.mode & 0xE3F == m.kind.mode & 0xE3F)
  {
    DirectStep(st, m, c, p);
    ParentIsThere(st.fs, p, c);
    hide DescendCreate, Process, ValidFs, StandsFor, LinkFree, Write;
    DirectoryInPlace(st.fs, p, m.kind.mode);
    OwnerBits(m.kind.mode);
  }

  lemma DirectoryInPlace(s: Fs, p: Path, mode: Mode)
    requires ValidFs(s) && p != []
    ensures var (s', done) := Write(s, Parent(p), Leaf(p), DirMember(mode));
      var t, t' := s.tree, s'.tree;
      && (done <==> !(p in t && !t[p].Dir? && !t[p].Link?))
      && (forall q :: q != p ==> (q in t <==> q in t') && (q in t ==> t'[q] == t[q]))
      && (done ==> IsDir(t', p) && t'[p].dir.mode == AtLeastOwner(mode))
  {
    assert Parent(p) + [Leaf(p)] == p;
    if IsLink(s.tree, p) {
      forall q | q in s.tree && p <= q
        ensures q == p
      {
        if p != q {
          AncestorsAreDirs(s.tree, p, q);
        }
      }
    }
    hide ValidFs, AtLeastOwner;
  }

  lemma OwnerBits(m: Mode)
    ensures AtLeastOwner(m) & 0x1C0 == 0x1C0 && AtLeastOwner(m) & 0xE3F == m & 0xE3F
  {
  }

  lemma ParentIsThere(s: Fs, p: Path, c: Config)
    requires ValidFs(s) && p != [] && IsDir(s.tree, Parent(p))
    ensures DescendCreate(s, [], Parent(p), c.implied) == (s, true) && Parent(p) + [Leaf(p)] == p
    ensures ValidName(Leaf(p)) || p !in s.tree
  {
    assert [] + Parent(p) == Parent(p);
    NothingToCreate(s, [], Parent(p), c.implied);
    assert p in s.tree ==> Rooted(s.tree, p);
  }

  /** A file takes the place of anything but a directory, a link that of
      anything at all. */
  lemma LeafArrives(st: State, m: Member, c: Config, p: Path)
    requires Direct(st.fs, m, c, p) && IsDir(st.fs.tree, Parent(p)) && !(c.whiteouts && ".wh." <= Leaf(p))
    requires m.kind.RegMember? || (m.kind.SymMember? && m.kind.target != "")
    ensures var o := Process(st, m, c);
      var t, t' := st.fs.tree, o.state.fs.tree;
      && (o.raised <==> m.kind.RegMember? && IsDir(t, p))
      && (forall q :: !(p <= q) ==> (q in t <==> q in t') && (q in t ==> t'[q] == t[q]))
      && (!o.raised ==> p in t' && t'[p] == if m.kind.RegMember? then File(m.kind.file) else Link(m.kind.target))
      && (!o.raised ==> forall q :: p < q ==> q !in t')
  {
    DirectStep(st, m, c, p);
    ParentIsThere(st.fs, p, c);
  }

  /** A member whose name climbs, or has nothing left once the leading
      components are dropped, is passed over; so is a device. */
  lemma ClimbingNamesAreDropped(st: State, m: Member, c: Config, x: seq<string>, before: string, after: string)
    requires x != [] && Components(x) && x[0] != "" && x[|x| - 1] != "" && Slashes(before) && Slashes(after)
    requires m.name == before + Join(x) + after
    requires |x| <= c.strip || x[|x| - 1] == "." || m.kind.DeviceMember? || exists i :: c.strip <= i < |x| && x[i] in {"..", ""}
    ensures Process(st, m, c) == Outcome(st, false)
  {
    StrippedSpelling(m.name, x, before, after);
    hide StripSlashes, Join, Split;
    if |x| > c.strip {
      if i :| c.strip <= i < |x| && x[i] in {"..", ""} {
        assert x[c.strip..][i - c.strip] == x[i];
      }
    }
  }
}
