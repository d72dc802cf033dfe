/** tar_extract: streaming an archive into a rootfs. Process, below, is what a
    member does when its parent is walked down to from the root afresh; the
    Extractor keeps the last parent's descriptor instead. */
module TarExtract {
  import opened Attributes
  import opened Names
  import opened Trees
  import opened Resolver
  import opened Kernels

  datatype Kind =
    | DirMember(mode: Mode)
    | SymMember(target: string)
    | RegMember(file: FileInfo)
    | LinkMember(linkname: string)
    | DeviceMember

  datatype Member = Member(name: string, kind: Kind)

  /** strip, handle_whiteouts, and the mode mkdirat leaves on a directory
      that is only made because something lies beneath it. */
  datatype Config = Config(strip: nat, whiteouts: bool, implied: Mode)

  /** The rootfs and the hard links deferred until the end. */
  datatype State = State(fs: Fs, links: seq<(seq<string>, seq<string>)>)

  /** raised: an exception ended the extraction where it stood. */
  datatype Outcome = Outcome(state: State, raised: bool)

  const OWNER_RWX: Mode := 0x1C0

  function AtLeastOwner(m: Mode): Mode {
    m | OWNER_RWX
  }

  function StripSlashes(s: string): string {
    StripRight(StripLeft(s))
  }

  predicate Escapes(parts: seq<string>) {
    exists i :: 0 <= i < |parts| && (parts[i] == ".." || parts[i] == "")
  }

  /** The components a member's name stands for, unless it is dropped. */
  function MemberParts(name: string, strip: nat): (r: Option<seq<string>>)
    ensures r.Some? ==> r.value != [] && ValidName(r.value[|r.value| - 1]) && Components(r.value)
  {
    var parts := Split(StripSlashes(name));
    if |parts| <= strip || Escapes(parts[strip..]) || parts[|parts| - 1] == "." then None
    else
      var rel := parts[strip..];
      assert rel[|rel| - 1] == parts[|parts| - 1];
      Some(rel)
  }

  const OPAQUE := ".wh..wh..opq"
  const WHITEOUT := ".wh."

  predicate IsWhiteout(name: Name) {
    WHITEOUT <= name
  }

  // -------------------------------------------------------------------------
  // What each step does, on paths
  // -------------------------------------------------------------------------

  /** dirfd.descend_at without create. */
  predicate Reachable(s: Fs, p: Path) {
    forall i :: 0 <= i <= |p| ==> IsDir(s.tree, p[..i])
  }

  /** dirfd.descend_at with create, from the directory at onwards: the levels
      made before one that refuses stay made. */
  function DescendCreate(s: Fs, at: Path, rest: Path, mode: Mode): (Fs, bool)
    decreases |rest|
  {
    if rest == [] then (s, true)
    else
      var q := at + [rest[0]];
      if q !in s.tree then DescendCreate(WithDir(s, q, mode), q, rest[1..], mode)
      else if s.tree[q].Dir? then DescendCreate(s, q, rest[1..], mode)
      else (s, false)
  }

  function Emptied(s: Fs, d: Path): Fs {
    s.(tree := map p | p in s.tree && !(d < p) :: s.tree[p])
  }

  function Whiteout(s: Fs, d: Path, name: Name): Fs
    requires IsWhiteout(name)
  {
    if name == OPAQUE then Emptied(s, d)
    else
      var target := name[|WHITEOUT|..];
      if target == "" || target == "." || target == ".." then s else Removed(s, d + [target])
  }

  /** A member written under the directory at d. */
  function Write(s: Fs, d: Path, name: Name, kind: Kind): (Fs, bool) {
    var p := d + [name];
    match kind
    case DirMember(mode) =>
      var s1 := if IsLink(s.tree, p) then Removed(s, p) else s;
      if p !in s1.tree then (WithMode(WithDir(s1, p, 0x1FF), p, AtLeastOwner(mode)), true)
      else if s1.tree[p].Dir? then (WithMode(s1, p, AtLeastOwner(mode)), true)
      else (s1, false)
    case SymMember(target) =>
      // symlink(2) refuses an empty target, after the old entry has gone
      (if target == "" then Removed(s, p) else WithNode(Removed(s, p), p, Link(target)), true)
    case RegMember(file) =>
      if IsDir(s.tree, p) then (s, false) else (WithNode(Removed(s, p), p, File(file)), true)
    case _ => (s, true)
  }

  function DeferLink(linkname: string, strip: nat, rel: seq<string>): seq<(seq<string>, seq<string>)> {
    var parts := Split(StripSlashes(linkname));
    if |parts| <= strip || Escapes(parts[strip..]) then [] else [(rel, parts[strip..])]
  }

  function Process(st: State, m: Member, c: Config): Outcome {
    var rel := MemberParts(m.name, c.strip);
    if m.kind.DeviceMember? || rel.None? then Outcome(st, false)
    else
      var name := Leaf(rel.value);
      match Resolve(st.fs.tree, Parent(rel.value))
      case TooManyLinks => Outcome(st, false)
      case At(d, _) =>
        if c.whiteouts && IsWhiteout(name) then
          Outcome(if Reachable(st.fs, d) then st.(fs := Whiteout(st.fs, d, name)) else st, false)
        else
          var (s1, there) := DescendCreate(st.fs, [], d, c.implied);
          if !there then Outcome(st.(fs := s1), true)
          else
            var (s2, done) := Write(s1, d, name, m.kind);
            var links := if m.kind.LinkMember? then DeferLink(m.kind.linkname, c.strip, rel.value) else [];
            Outcome(State(s2, st.links + links), !done)
  }

  function ProcessAll(st: State, ms: seq<Member>, c: Config): Outcome
    decreases |ms|
  {
    if ms == [] then Outcome(st, false)
    else
      var first := Process(st, ms[0], c);
      if first.raised then first else ProcessAll(first.state, ms[1..], c)
  }

  /** A deferred hard link becomes a copy of the file it names. */
  function CopyLink(s: Fs, dest: seq<string>, src: seq<string>, c: Config): Fs {
    match (Resolve(s.tree, src), Resolve(s.tree, dest))
    case (At(from, _), At(to, _)) => if from == [] || to == [] then s else CopyBeside(s, to, from, c)
    case _ => s
  }

  function CopyBeside(s: Fs, to: Path, from: Path, c: Config): Fs
    requires to != [] && from != []
  {
    if !Reachable(s, Parent(from)) || !IsFile(s.tree, from) then s
    else
      var (s1, there) := DescendCreate(s, [], Parent(to), c.implied);
      if !there || IsDir(s1.tree, to) then s1
      else
        var s2 := Removed(s1, to);
        if IsFile(s2.tree, from) then WithNode(s2, to, s2.tree[from]) else s2
  }

  function CopyLinks(s: Fs, links: seq<(seq<string>, seq<string>)>, c: Config): Fs
    decreases |links|
  {
    if links == [] then s else CopyLinks(CopyLink(s, links[0].0, links[0].1, c), links[1..], c)
  }

  /** The whole extraction. */
  function Extract(s: Fs, ms: seq<Member>, c: Config): (Fs, bool) {
    var o := ProcessAll(State(s, []), ms, c);
    if o.raised then (o.state.fs, false) else (CopyLinks(o.state.fs, o.state.links, c), true)
  }

  // -------------------------------------------------------------------------
  // The extraction as the program runs it
  // -------------------------------------------------------------------------

  lemma {:induction false} DescendCreateIsValid(s: Fs, at: Path, rest: Path, mode: Mode)
    requires ValidFs(s) && IsDir(s.tree, at) && ValidPath(rest)
    ensures var (s1, ok) := DescendCreate(s, at, rest, mode);
      ValidFs(s1) && (ok ==> IsDir(s1.tree, at + rest))
      && (forall p :: p in s.tree ==> p in s1.tree && s1.tree[p] == s.tree[p])
    decreases |rest|
  {
    if rest != [] {
      var q := at + [rest[0]];
      assert Leaf(q) == rest[0] && Parent(q) == at;
      assert q + rest[1..] == at + rest;
      if q !in s.tree {
        WithDirIsValid(s, q, mode);
        DescendCreateIsValid(WithDir(s, q, mode), q, rest[1..], mode);
      } else if s.tree[q].Dir? {
        DescendCreateIsValid(s, q, rest[1..], mode);
      }
    } else {
      assert at + rest == at;
    }
  }

  lemma EmptiedIsValid(s: Fs, d: Path)
    requires ValidFs(s)
    ensures ValidFs(Emptied(s, d))
  {
    var t := Emptied(s, d).tree;
    forall p
      ensures p in t && p != [] ==> Rooted(t, p)
      ensures Alone(t, p)
    {
      assert Alone(s.tree, p);
      if p in t && p != [] {
        assert Rooted(s.tree, p);
        assert !(d < Parent(p));
      }
      if IsDir(t, p) {
        assert Alone(s.tree, PathOf(t, t[p].dir.ino).value);
      }
    }
  }

  function MadeIfMissing(s: Fs, q: Path, mode: Mode): Fs {
    if q in s.tree then s else WithDir(s, q, mode)
  }

  /** One component of a descent: open it, or make it and open it. */
  method OpenLevel(k: Kernel, src: nat, part: Name, create: bool, mode: Mode, ghost at: Path) returns (r: OpenResult)
    requires ValidFs(k.fs) && src in k.fds && k.Where(src) == Some(at) && ValidName(part)
    modifies k
    ensures ValidFs(k.fs) && IsDir(k.fs.tree, at) && k.fs.tree[at] == old(k.fs).tree[at]
    ensures k.fs == if create then MadeIfMissing(old(k.fs), at + [part], mode) else old(k.fs)
    ensures r.Opened? <==> IsDir(k.fs.tree, at + [part])
    ensures if r.Opened? then r.fd !in old(k.fds) && k.fds == old(k.fds)[r.fd := k.fs.tree[at + [part]].dir.ino]
            else k.fds == old(k.fds)
  {
    r := k.OpenDirAt(src, part);
    if r.NoEntry? && create {
      var _ := k.MkdirAt(src, part, mode);
      assert Alone(k.fs.tree, at);
      r := k.OpenDirAt(src, part);
    }
  }

  /** dirfd.descend_at: one level open at a time beside the root's own. */
  method DescendAt(k: Kernel, root: nat, parts: Path, create: bool, mode: Mode) returns (ok: bool, fd: nat)
    requires ValidFs(k.fs) && root in k.fds && k.Where(root) == Some([]) && ValidPath(parts)
    modifies k
    ensures ValidFs(k.fs)
    ensures create ==> (k.fs, ok) == DescendCreate(old(k.fs), [], parts, mode)
    ensures !create ==> k.fs == old(k.fs) && (ok <==> Reachable(k.fs, parts))
    ensures if ok then fd !in old(k.fds) && IsDir(k.fs.tree, parts) && k.fds == old(k.fds)[fd := k.fs.tree[parts].dir.ino]
            else k.fds == old(k.fds)
  {
    fd, ok := root, true;
    ghost var at := [];
    var i := 0;
    while i < |parts|
      invariant 0 <= i <= |parts| && at == parts[..i] && ValidFs(k.fs) && ok
      invariant create ==> DescendCreate(old(k.fs), [], parts, mode) == DescendCreate(k.fs, at, parts[i..], mode)
      invariant !create ==> k.fs == old(k.fs) && forall j :: 0 <= j <= i ==> IsDir(k.fs.tree, parts[..j])
      invariant IsDir(k.fs.tree, at)
      invariant fd in k.fds && k.fds[fd] == k.fs.tree[at].dir.ino
      invariant if i == 0 then k.fds == old(k.fds) else fd !in old(k.fds) && k.fds - {fd} == old(k.fds)
    {
      assert Alone(k.fs.tree, at);
      assert parts[..i + 1] == at + [parts[i]];
      assert parts[i..][0] == parts[i] && parts[i..][1..] == parts[i + 1..];
      var nxt := OpenLevel(k, fd, parts[i], create, mode, at);
      if i > 0 {
        k.Close(fd);
      }
      if !nxt.Opened? {
        return false, 0;
      }
      fd, at, i := nxt.fd, at + [parts[i]], i + 1;
    }
    assert parts[..|parts|] == parts;
    if parts == [] {
      fd := k.Reopen(root);
    }
  }

  lemma {:induction false} NothingToCreate(s: Fs, at: Path, rest: Path, mode: Mode)
    requires WellFormed(s.tree) && IsDir(s.tree, at + rest)
    ensures DescendCreate(s, at, rest, mode) == (s, true)
    decreases |rest|
  {
    if rest != [] {
      var q := at + [rest[0]];
      assert q + rest[1..] == at + rest;
      if q != at + rest {
        AncestorsAreDirs(s.tree, q, at + rest);
      }
      NothingToCreate(s, q, rest[1..], mode);
    }
  }

  lemma DirIsReachable(s: Fs, p: Path)
    requires WellFormed(s.tree)
    ensures Reachable(s, p) <==> IsDir(s.tree, p)
  {
    assert p[..|p|] == p;
    if IsDir(s.tree, p) {
      forall i | 0 <= i < |p|
        ensures IsDir(s.tree, p[..i])
      {
        AncestorsAreDirs(s.tree, p[..i], p);
      }
    }
  }

  /** d with only these of its children. */
  function OnlyChildren(s: Fs, d: Path, names: set<Name>): Fs {
    s.(tree := map p | p in s.tree && (d < p ==> p[|d|] in names) :: s.tree[p])
  }

  lemma AllChildren(s: Fs, d: Path)
    requires WellFormed(s.tree)
    ensures OnlyChildren(s, d, ChildNames(s.tree, d)) == s
    ensures forall n :: n in ChildNames(s.tree, d) ==> ValidName(n)
  {
    forall p | p in s.tree && d < p
      ensures p[|d|] in ChildNames(s.tree, d)
    {
      var c := p[..|d| + 1];
      assert c == d + [p[|d|]];
      if c != p {
        AncestorsAreDirs(s.tree, c, p);
      }
      ChildNamesExact(s.tree, d, p[|d|]);
    }
    forall n | n in ChildNames(s.tree, d)
      ensures ValidName(n)
    {
      ChildNamesExact(s.tree, d, n);
      assert Rooted(s.tree, d + [n]);
    }
  }

  lemma OneChildLess(s: Fs, d: Path, names: set<Name>, n: Name)
    ensures Removed(OnlyChildren(s, d, names), d + [n]) == OnlyChildren(s, d, names - {n})
  {
    forall p | p in s.tree && d < p
      ensures p[|d|] == n <==> d + [n] <= p
    {
      assert d + [n] <= p ==> p[..|d| + 1] == d + [n];
      assert p[|d|] == n ==> p[..|d| + 1] == d + [n];
    }
  }

  /** A member's parent, as the last descriptor walked down to. */
  class Extractor {
    const k: Kernel
    const root: nat
    /** The descriptors that are not the cache's. */
    ghost var before: map<nat, nat>
    var key: Option<Path>
    var fd: nat

    ghost predicate Valid()
      reads this, k
    {
      && ValidFs(k.fs)
      && root in before && before[root] == k.fs.tree[[]].dir.ino
      && match key
         case None => k.fds == before
         case Some(p) => IsDir(k.fs.tree, p) && fd !in before && k.fds == before[fd := k.fs.tree[p].dir.ino]
    }

    constructor (k: Kernel, root: nat)
      requires ValidFs(k.fs) && root in k.fds && k.Where(root) == Some([])
      ensures Valid() && key.None? && this.k == k && before == k.fds && fresh(this)
    {
      this.k, this.root, this.before := k, root, k.fds;
      key, fd := None, 0;
    }

    method CloseParent()
      requires Valid()
      modifies this, k`fds
      ensures Valid() && key.None? && before == old(before)
    {
      if key.Some? {
        k.Close(fd);
      }
      key := None;
    }

    /** _Parents.get: a hit costs nothing and gives what a fresh descent from
        the root would have given. */
    method GetParent(parts: Path, create: bool, mode: Mode) returns (ok: bool)
      requires Valid() && ValidPath(parts)
      modifies this, k
      ensures Valid()
      ensures create ==> (k.fs, ok) == DescendCreate(old(k.fs), [], parts, mode)
      ensures !create ==> k.fs == old(k.fs) && (ok <==> Reachable(k.fs, parts))
      ensures ok ==> key == Some(parts)
      ensures before == old(before) && root in k.fds
    {
      DirIsReachable(k.fs, parts);
      if key == Some(parts) {
        assert [] + parts == parts;
        NothingToCreate(k.fs, [], parts, mode);
        return true;
      }
      CloseParent();
      assert Alone(k.fs.tree, []);
      DescendCreateIsValid(k.fs, [], parts, mode);
      var n;
      ok, n := DescendAt(k, root, parts, create, mode);
      if ok {
        key, fd := Some(parts), n;
      }
    }

    method ApplyWhiteout(name: Name)
      requires Valid() && key.Some? && IsWhiteout(name) && ValidName(name)
      modifies k`fs
      ensures Valid() && k.fs == Whiteout(old(k.fs), key.value, name)
    {
      assert Alone(k.fs.tree, key.value);
      if name == OPAQUE {
        EmptyParent();
      } else {
        var target := name[|WHITEOUT|..];
        if target != "" && target != "." && target != ".." {
          k.RemoveTreeAt(fd, target);
        }
      }
    }

    method EmptyParent()
      requires Valid() && key.Some?
      modifies k`fs
      ensures Valid() && k.fs == Emptied(old(k.fs), key.value)
    {
      ghost var d, s := key.value, k.fs;
      assert Alone(k.fs.tree, d);
      var names := k.ListAt(fd);
      AllChildren(s, d);
      while names != {}
        invariant Valid() && names <= ChildNames(s.tree, d)
        invariant k.fs == OnlyChildren(s, d, names)
        decreases names
      {
        var n :| n in names;
        assert Alone(k.fs.tree, d);
        OneChildLess(s, d, names, n);
        k.RemoveTreeAt(fd, n);
        names := names - {n};
      }
    }

    /** mkdirat and chmod, symlinkat, or a brand-new file. */
    method WriteMember(name: Name, kind: Kind) returns (raised: bool)
      requires Valid() && key.Some? && ValidName(name)
      modifies k`fs
      ensures Valid() && (k.fs, !raised) == Write(old(k.fs), key.value, name, kind)
    {
      raised := false;
      match kind {
        case DirMember(mode) => raised := WriteDir(name, mode);
        case SymMember(target) => WriteLink(name, target);
        case RegMember(file) => raised := WriteFile(name, file);
        case _ =>
      }
    }

    method WriteDir(name: Name, mode: Mode) returns (raised: bool)
      requires Valid() && key.Some? && ValidName(name)
      modifies k`fs
      ensures Valid() && (k.fs, !raised) == Write(old(k.fs), key.value, name, DirMember(mode))
    {
      ghost var d := key.value;
      assert Alone(k.fs.tree, d);
      var st := k.LstatAt(fd, name);
      if st.Some? && st.value.Link? {
        var _ := k.UnlinkAt(fd, name);
        assert Alone(k.fs.tree, d);
      }
      var made := k.MkdirAt(fd, name, 0x1FF);
      assert Alone(k.fs.tree, d);
      if made.Exists? {
        st := k.LstatAt(fd, name);
        if st.None? || !st.value.Dir? {
          return true;
        }
      }
      var _ := k.ChmodDirAt(fd, name, AtLeastOwner(mode));
      return false;
    }

    method WriteLink(name: Name, target: string)
      requires Valid() && key.Some? && ValidName(name)
      modifies k`fs
      ensures Valid() && k.fs == Write(old(k.fs), key.value, name, SymMember(target)).0
    {
      ghost var d := key.value;
      assert Alone(k.fs.tree, d);
      var st := k.LstatAt(fd, name);
      if st.Some? {
        k.RemoveTreeAt(fd, name);
      } else {
        NothingToRemove(k.fs, d + [name]);
      }
      assert Alone(k.fs.tree, d);
      if target != "" {
        var _ := k.CreateAt(fd, name, Link(target));
      }
    }

    method WriteFile(name: Name, file: FileInfo) returns (raised: bool)
      requires Valid() && key.Some? && ValidName(name)
      modifies k`fs
      ensures Valid() && (k.fs, !raised) == Write(old(k.fs), key.value, name, RegMember(file))
    {
      ghost var d := key.value;
      assert Alone(k.fs.tree, d);
      NothingToRemove(k.fs, d + [name]);
      var made := k.CreateAt(fd, name, File(file));
      assert Alone(k.fs.tree, d);
      if made.Exists? {
        var gone := k.UnlinkAt(fd, name);
        assert Alone(k.fs.tree, d);
        if !gone.Done? {
          return true;
        }
        made := k.CreateAt(fd, name, File(file));
      }
      return false;
    }

    /** _process_member */
    method ProcessMember(m: Member, links: seq<(seq<string>, seq<string>)>, c: Config)
      returns (links': seq<(seq<string>, seq<string>)>, raised: bool)
      requires Valid()
      modifies this, k
      ensures Valid() && before == old(before)
      ensures Outcome(State(k.fs, links'), raised) == Process(State(old(k.fs), links), m, c)
    {
      links', raised := links, false;
      var rel := MemberParts(m.name, c.strip);
      if m.kind.DeviceMember? || rel.None? {
        return;
      }
      var parent := SafeResolveParts(k.fs.tree, Parent(rel.value));
      if parent.None? {
        return;
      }
      ResolvedIsLinkFree(k.fs.tree, [], Parent(rel.value), MAX_HOPS);
      var name := Leaf(rel.value);
      if c.whiteouts && IsWhiteout(name) {
        var there := GetParent(parent.value, false, c.implied);
        if there {
          ApplyWhiteout(name);
        }
        return;
      }
      var there := GetParent(parent.value, true, c.implied);
      if !there {
        raised := true;
        return;
      }
      raised := WriteMember(name, m.kind);
      if m.kind.LinkMember? {
        links' := links + DeferLink(m.kind.linkname, c.strip, rel.value);
      }
    }

    /** A descriptor of the caller's own, beside the cache. */
    method OpenBeside(parts: Path, c: Config) returns (ok: bool, n: nat)
      requires Valid() && ValidPath(parts)
      modifies this, k
      ensures Valid() && k.fs == old(k.fs) && key == old(key) && (ok <==> Reachable(k.fs, parts))
      ensures if ok then n !in old(before) && IsDir(k.fs.tree, parts) && before == old(before)[n := k.fs.tree[parts].dir.ino]
              else before == old(before)
    {
      assert Alone(k.fs.tree, []);
      ok, n := DescendAt(k, root, parts, false, c.implied);
      if ok {
        before := before[n := k.fs.tree[parts].dir.ino];
      }
    }

    method CloseBeside(n: nat)
      requires Valid() && n in before && n != root
      modifies this, k`fds
      ensures Valid() && key == old(key) && before == old(before) - {n}
    {
      k.Close(n);
      before := before - {n};
    }

    /** unlink_quietly, then copy_file_at, into the cached parent. */
    method CopyOnto(n: nat, source: Name, target: Name, ghost from: Path)
      requires Valid() && key.Some? && n in before && k.Where(n) == Some(from)
      requires ValidName(source) && ValidName(target)
      modifies k`fs
      ensures var to := key.value + [target];
        var s1 := old(k.fs);
        && Valid()
        && k.fs == if IsDir(s1.tree, to) then s1
                   else var s2 := Removed(s1, to);
                     if IsFile(s2.tree, from + [source]) then WithNode(s2, to, s2.tree[from + [source]]) else s2
    {
      ghost var d := key.value;
      assert Alone(k.fs.tree, d) && Alone(k.fs.tree, from);
      NothingToRemove(k.fs, d + [target]);
      if !IsDir(k.fs.tree, d + [target]) {
        StillThere(k.fs, d + [target], from);
      }
      var _ := k.UnlinkAt(fd, target);
      assert Alone(k.fs.tree, d) && Alone(k.fs.tree, from);
      var st := k.LstatAt(n, source);
      if st.Some? && st.value.File? {
        var made := k.CreateAt(fd, target, st.value);
        assert Alone(k.fs.tree, d);
        if made.Exists? {
          // a directory stands there: the retry's unlink refuses it too
          var gone := k.UnlinkAt(fd, target);
          assert !gone.Done?;
        }
      }
    }

    /** _copy_hardlink */
    method CopyHardlink(dest: seq<string>, src: seq<string>, c: Config)
      requires Valid() && Components(dest) && Components(src)
      modifies this, k
      ensures Valid() && before == old(before) && k.fs == CopyLink(old(k.fs), dest, src, c)
    {
      hide CopyBeside;
      ghost var s := k.fs;
      var from := SafeResolveParts(k.fs.tree, src);
      var to := SafeResolveParts(k.fs.tree, dest);
      if from.None? || from.value == [] || to.None? || to.value == [] {
        return;
      }
      ResolvedIsLinkFree(s.tree, [], src, MAX_HOPS);
      ResolvedIsLinkFree(s.tree, [], dest, MAX_HOPS);
      CopyBetween(to.value, from.value, c);
    }

    /** The file is held open by its directory; what is left is the copy. */
    method CopyHeld(n: nat, to: Path, from: Path, c: Config)
      requires Valid() && ValidPath(to) && ValidPath(from) && to != [] && from != []
      requires n in before && IsDir(k.fs.tree, Parent(from)) && before[n] == k.fs.tree[Parent(from)].dir.ino
      requires Reachable(k.fs, Parent(from)) && IsFile(k.fs.tree, from)
      modifies this, k
      ensures Valid() && before == old(before) && k.fs == CopyBeside(old(k.fs), to, from, c)
    {
      hide DescendCreate, Removed, WithNode, Reachable;
      ghost var s := k.fs;
      var source, target := Leaf(from), Leaf(to);
      assert from == Parent(from) + [source] && to == Parent(to) + [target];
      assert Alone(s.tree, Parent(from));
      DescendCreateIsValid(s, [], Parent(to), c.implied);
      var there := GetParent(Parent(to), true, c.implied);
      assert Alone(k.fs.tree, Parent(from));
      if there {
        CopyOnto(n, source, target, Parent(from));
      }
    }

    method CopyBetween(to: Path, from: Path, c: Config)
      requires Valid() && ValidPath(to) && ValidPath(from) && to != [] && from != []
      modifies this, k
      ensures Valid() && before == old(before) && k.fs == CopyBeside(old(k.fs), to, from, c)
    {
      hide DescendCreate, Removed, WithNode, Reachable;
      ghost var s, b := k.fs, before;
      var source := Leaf(from);
      assert from == Parent(from) + [source];
      var ok, n := OpenBeside(Parent(from), c);
      if !ok {
        return;
      }
      assert Alone(s.tree, Parent(from));
      var st := k.LstatAt(n, source);
      if st.Some? && st.value.File? {
        CopyHeld(n, to, from, c);
      }
      CloseBeside(n);
      assert before == b;
    }

    /** _extract_stream: every member through the cache, then the deferred
        hard links. The rootfs ends up as when each member descends afresh,
        and no descriptor is left open. */
    method ExtractStream(ms: seq<Member>, c: Config) returns (ok: bool)
      requires Valid() && key.None?
      modifies this, k
      ensures k.fds == old(k.fds) && ValidFs(k.fs)
      ensures (k.fs, ok) == Extract(old(k.fs), ms, c)
    {
      var links: seq<(seq<string>, seq<string>)> := [];
      ok := true;
      var i := 0;
      while i < |ms| && ok
        invariant 0 <= i <= |ms| && Valid() && before == old(before) && DeferredAreComponents(links)
        invariant var all := ProcessAll(State(old(k.fs), []), ms, c);
          if ok then all == ProcessAll(State(k.fs, links), ms[i..], c) else all == Outcome(State(k.fs, links), true)
      {
        var raised;
        links, raised := ProcessMember(ms[i], links, c);
        ok := !raised;
        i := i + 1;
      }
      if ok {
        var j := 0;
        while j < |links|
          invariant 0 <= j <= |links| && Valid() && before == old(before)
          invariant Extract(old(k.fs), ms, c) == (CopyLinks(k.fs, links[j..], c), true)
        {
          CopyHardlink(links[j].0, links[j].1, c);
          j := j + 1;
        }
      }
      CloseParent();
    }
  }

  ghost predicate DeferredAreComponents(links: seq<(seq<string>, seq<string>)>) {
    forall i :: 0 <= i < |links| ==> Components(links[i].0) && Components(links[i].1)
  }

  /** A directory is not lost with an entry that is none. */
  lemma StillThere(s: Fs, gone: Path, d: Path)
    requires ValidFs(s) && IsDir(s.tree, d) && !IsDir(s.tree, gone)
    ensures IsDir(Removed(s, gone).tree, d) && Removed(s, gone).tree[d] == s.tree[d]
  {
    if gone < d {
      AncestorsAreDirs(s.tree, gone, d);
    }
    assert gone <= d ==> gone < d || gone == d;
  }

  lemma NothingToRemove(s: Fs, p: Path)
    requires ValidFs(s)
    ensures p !in s.tree ==> Removed(s, p) == s
  {
    if p !in s.tree {
      forall q | q in s.tree
        ensures !(p <= q)
      {
        if p < q {
          AncestorsAreDirs(s.tree, p, q);
        }
        assert p <= q ==> p < q || p == q;
      }
    }
  }
}
