/** restore: putting an archive's members back into a container directory.
    Process is what one member does when its parent is walked down to afresh;
    Destinations keeps the last parent's descriptor instead. */
module Restore {
  import opened Attributes
  import opened Names
  import opened Trees
  import opened Resolver
  import opened Kernels
  import Backup
  import TarExtract

  type Entry = Backup.Entry

  const LEGACY := "installed-rootfs"
  const SHM := "shm"
  const MANIFEST_MAX := 0x100_0000

  // -------------------------------------------------------------------------
  // Where a member goes
  // -------------------------------------------------------------------------

  datatype Dest = Dest(container: string, parts: Path)

  /** _dest_path, of a name split up */
  function DestOf(parts: Path): (r: Option<Dest>)
    requires |parts| > 1 && ValidPath(parts)
    ensures r.Some? ==> r.value.parts != [] && ValidPath(r.value.parts) && IsContainerName(r.value.container)
  {
    if parts[0] == LEGACY then
      if IsContainerName(parts[1]) then Some(Dest(parts[1], [Backup.ROOTFS] + parts[2..])) else None
    else if !IsContainerName(parts[0]) then None
    else if parts[1..] == [Backup.MANIFEST] then Some(Dest(parts[0], [Backup.MANIFEST]))
    else if parts[1] == Backup.ROOTFS then Some(Dest(parts[0], [Backup.ROOTFS] + parts[2..]))
    else Some(Dest(parts[0], [Backup.ROOTFS] + parts[1..]))
  }

  function DestPath(memberName: string): (r: Option<Dest>)
    ensures r.Some? ==> r.value.parts != [] && ValidPath(r.value.parts) && IsContainerName(r.value.container)
  {
    var name := StripLeft(memberName);
    var parts := Split(name);
    if name == "" || (exists i :: 0 <= i < |parts| && parts[i] in ["..", ".", ""]) || |parts| == 1 then None
    else DestOf(parts)
  }

  /** _check_bare_root */
  predicate BareRoot(memberName: string) {
    var name := StripLeft(memberName);
    name != "" && |Split(name)| == 1
  }

  /** The tree as a resolve anchored at the rootfs sees it. */
  function RootfsTree(t: FsTree): FsTree {
    map q | q in Inner(t) :: t[[Backup.ROOTFS] + q]
  }

  function Inner(t: FsTree): (r: set<Path>)
    ensures forall q :: q in r <==> [Backup.ROOTFS] + q in t
  {
    var r := set p | p in t && p != [] && p[0] == Backup.ROOTFS :: p[1..];
    assert forall q :: [Backup.ROOTFS] + q in t ==> ([Backup.ROOTFS] + q)[1..] == q;
    assert forall p :: p in t && p != [] && p[0] == Backup.ROOTFS ==> [Backup.ROOTFS] + p[1..] == p;
    r
  }

  // -------------------------------------------------------------------------
  // What each step does, on paths
  // -------------------------------------------------------------------------

  /** implied: the mode mkdirat leaves on a directory made only because
      something lies beneath it; now: the time of the restore; noChmod: where
      in the container directory setting a mode fails, of which nothing is
      said. */
  datatype Config = Config(implied: Mode, now: int, noChmod: set<Path>)

  /** Everything is made private and given its mode afterwards, if it can be. */
  const NEW_DIR: Mode := 0x1C0
  const NEW_FILE: Mode := 0x180

  function Given(c: Config, p: Path, made: Mode, asked: Mode): Mode {
    if p in c.noChmod then made else asked
  }

  datatype Deferred = Deferred(key: Path, name: Name, mode: Mode)

  datatype State = State(name: Option<string>, committed: bool, manifest: Option<Backup.Content>,
                         deferred: seq<Deferred>, fs: Fs)

  /** Exit: the command gives up where it stands. */
  datatype Step = Go(st: State) | Exit(st: State)

  /** _clear_existing_rootfs */
  function Cleared(s: Fs): Fs {
    Removed(Removed(s, [Backup.ROOTFS]), [SHM])
  }

  /** _Destinations._split, final component left alone: the parent's path. */
  function ParentKey(s: Fs, parts: Path): Option<Path>
    requires parts != []
  {
    if |parts| == 1 || parts[0] != Backup.ROOTFS then Some([])
    else
      match Resolve(RootfsTree(s.tree), parts[1..|parts| - 1])
      case TooManyLinks => None
      case At(d, _) => Some([Backup.ROOTFS] + d)
  }

  /** The same with the final component resolved too. */
  function SourcePath(s: Fs, parts: Path): Option<Path>
    requires parts != []
  {
    if |parts| == 1 || parts[0] != Backup.ROOTFS then Some([Leaf(parts)])
    else
      match Resolve(RootfsTree(s.tree), parts[1..])
      case TooManyLinks => None
      case At(d, _) => if d == [] then None else Some([Backup.ROOTFS] + d)
  }

  /** _Destinations.open_source */
  function Source(s: Fs, parts: Path): Option<FileInfo>
    requires parts != []
  {
    match SourcePath(s, parts)
    case None => None
    case Some(p) =>
      if p != [] && TarExtract.Reachable(s, Parent(p)) && IsFile(s.tree, p) && Backup.Readable(s.tree[p].file.mode)
      then Some(s.tree[p].file) else None
  }

  lemma SameModeIsSame(s: Fs, p: Path)
    requires IsDir(s.tree, p)
    ensures WithMode(s, p, s.tree[p].dir.mode) == s
  {
    assert s.tree[p := s.tree[p]] == s.tree;
  }

  /** _remove_existing, then the member itself. */
  function Place(s: Fs, p: Path, e: Entry, source: Option<FileInfo>, c: Config): (Fs, bool) {
    match e.body
    case DirBody =>
      var s1 := if IsDir(s.tree, p) then s else WithDir(Removed(s, p), p, NEW_DIR);
      (WithMode(s1, p, Given(c, p, s1.tree[p].dir.mode, TarExtract.AtLeastOwner(e.mode))), true)
    case LinkBody(target) =>
      if target == "" then (Removed(s, p), false) else (WithNode(Removed(s, p), p, Link(target)), true)
    case RegBody(data) => (WithNode(Removed(s, p), p, File(FileInfo(data, Given(c, p, NEW_FILE, e.mode), c.now))), true)
    case HardBody(_) =>
      if source.None? then (s, true)
      else
        var f := source.value;
        var mode := Given(c, p, NEW_FILE, if e.mode != 0 then e.mode else f.mode);
        (WithNode(Removed(s, p), p, File(FileInfo(f.data, mode, c.now))), true)
    case _ => (s, true)
  }

  predicate NeedsDeferring(m: Mode) {
    m & TarExtract.OWNER_RWX != TarExtract.OWNER_RWX
  }

  /** The entry itself, under a parent that is there. */
  function Landed(st: State, key: Path, leaf: Name, e: Entry, source: Option<FileInfo>, c: Config): Step {
    var (s3, done) := Place(st.fs, key + [leaf], e, source, c);
    var more := if e.body.DirBody? && NeedsDeferring(e.mode) then [Deferred(key, leaf, e.mode)] else [];
    if done then Go(st.(fs := s3, deferred := st.deferred + more)) else Exit(st.(fs := s3))
  }

  /** A member that will produce something, after the commit. */
  function Delivered(st: State, e: Entry, parts: Path, linked: Path, c: Config): Step
    requires parts != [] && linked != []
  {
    match ParentKey(st.fs, parts)
    case None => Go(st)
    case Some(key) =>
      var (s2, there) := TarExtract.DescendCreate(st.fs, [], key, c.implied);
      var st2 := st.(fs := s2);
      var source := if e.body.HardBody? then Source(s2, linked) else None;
      if !there || (e.body.HardBody? && source.None?) then Go(st2)
      else Landed(st2, key, Leaf(parts), e, source, c)
  }

  /** A rootfs member, once the name is settled. */
  function ProcessRootfs(st: State, e: Entry, parts: Path, c: Config): Step
    requires parts != []
  {
    var link := if e.body.HardBody? then DestPath(e.body.linkname) else Some(Dest("", parts));
    if link.None? || (e.body.HardBody? && Some(link.value.container) != st.name) then Go(st)
    else Delivered(if st.committed then st else st.(committed := true, fs := Cleared(st.fs)), e, parts, link.value.parts, c)
  }

  function Process(st: State, e: Entry, c: Config): Step {
    if e.body.DeviceBody? then Go(st)
    else if BareRoot(e.name) then Exit(st)
    else
      match DestPath(e.name)
      case None => Go(st)
      case Some(d) =>
        if st.name.Some? && st.name.value != d.container then Exit(st)
        else
          var st1 := st.(name := Some(d.container));
          if d.parts[0] != Backup.ROOTFS then
            if e.body.RegBody? && d.parts == [Backup.MANIFEST] then
              if |e.body.data| > MANIFEST_MAX then Exit(st1)
              else Go(st1.(manifest := Some(Backup.Content(e.body.data, e.mode))))
            else Go(st1)
          else if e.body.OtherBody? then Go(st1)
          else ProcessRootfs(st1, e, d.parts, c)
  }

  function ProcessAll(st: State, es: seq<Entry>, c: Config): Step
    decreases |es|
  {
    if es == [] then Go(st)
    else
      match Process(st, es[0], c)
      case Exit(st1) => Exit(st1)
      case Go(st1) => ProcessAll(st1, es[1..], c)
  }

  /** May the owner open the directory, walking down to it? */
  predicate MayDescend(s: Fs, key: Path) {
    && (forall i :: 0 <= i <= |key| ==> IsDir(s.tree, key[..i]))
    && (forall i :: 0 <= i < |key| ==> Backup.Searchable(s.tree[key[..i]].dir.mode))
    && (forall i :: 0 < i <= |key| ==> Backup.Readable(s.tree[key[..i]].dir.mode))
    && (key == [] ==> IsDir(s.tree, []) && Backup.Searchable(s.tree[[]].dir.mode) && Backup.Readable(s.tree[[]].dir.mode))
  }

  /** _Destinations.chmod: best effort. */
  function ApplyMode(s: Fs, d: Deferred, c: Config): Fs {
    var p := d.key + [d.name];
    if MayDescend(s, d.key) && IsDir(s.tree, d.key) && Backup.Searchable(s.tree[d.key].dir.mode) && IsDir(s.tree, p)
    then WithMode(s, p, Given(c, p, s.tree[p].dir.mode, d.mode)) else s
  }

  /** The deferred modes, last one first. */
  function ApplyModes(s: Fs, ds: seq<Deferred>, c: Config): Fs
    decreases |ds|
  {
    if ds == [] then s else ApplyModes(ApplyMode(s, ds[|ds| - 1], c), ds[..|ds| - 1], c)
  }

  /** atomic_replace onto manifest.json: a directory there is not replaced. */
  function WithManifest(s: Fs, m: Option<Backup.Content>, c: Config): Fs {
    match m
    case None => s
    case Some(m) =>
      var p := [Backup.MANIFEST];
      if IsDir(s.tree, p) then s
      else WithNode(Removed(s, p), p, File(FileInfo(m.data, Given(c, p, NEW_FILE, m.mode), c.now)))
  }

  datatype Result = Restored(container: string, fs: Fs) | Rejected(fs: Fs)

  function Finish(s: Step, c: Config): Result {
    match s
    case Exit(st) => Rejected(st.fs)
    case Go(st) =>
      if !st.committed || st.name.None? then Rejected(st.fs)
      else if !IsDir(st.fs.tree, [Backup.ROOTFS]) then Rejected(TarExtract.Emptied(st.fs, []))
      else Restored(st.name.value, WithManifest(ApplyModes(st.fs, st.deferred, c), st.manifest, c))
  }

  /** The whole command, on what the container directory held before. */
  function RestoreArchive(s: Fs, es: seq<Entry>, c: Config): Result {
    Finish(ProcessAll(State(None, false, None, [], s), es, c), c)
  }

  // -------------------------------------------------------------------------
  // The restore as the program runs it
  // -------------------------------------------------------------------------

  lemma KeyIsValid(s: Fs, parts: Path)
    requires parts != [] && ValidPath(parts)
    ensures ParentKey(s, parts).Some? ==> ValidPath(ParentKey(s, parts).value)
    ensures SourcePath(s, parts).Some? ==> SourcePath(s, parts).value != [] && ValidPath(SourcePath(s, parts).value)
  {
    if !(|parts| == 1 || parts[0] != Backup.ROOTFS) {
      assert Components(parts);
      assert Components(parts[1..|parts| - 1]) && Components(parts[1..]);
      ResolvedIsLinkFree(RootfsTree(s.tree), [], parts[1..|parts| - 1], MAX_HOPS);
      ResolvedIsLinkFree(RootfsTree(s.tree), [], parts[1..], MAX_HOPS);
    }
  }

  /** The container directory's descriptor, and the last parent's beside it. */
  class Destinations {
    const k: Kernel
    const root: nat
    /** The descriptors that are not the cache's. */
    ghost var before: map<nat, nat>
    var key: Option<Path>
    var fd: nat

    ghost predicate Valid()
      reads this, k
    {
      && ValidFs(k.fs)
      && root in before && before[root] == k.fs.tree[[]].dir.ino
      && match key
         case None => k.fds == before
         case Some(p) => IsDir(k.fs.tree, p) && fd !in before && k.fds == before[fd := k.fs.tree[p].dir.ino]
    }

    constructor (k: Kernel, root: nat)
      requires ValidFs(k.fs) && root in k.fds && k.Where(root) == Some([])
      ensures Valid() && key.None? && this.k == k && before == k.fds && fresh(this)
    {
      this.k, this.root, this.before := k, root, k.fds;
      key, fd := None, 0;
    }

    method Close()
      requires Valid()
      modifies this, k`fds
      ensures Valid() && key.None? && before == old(before)
    {
      if key.Some? {
        k.Close(fd);
      }
      key := None;
    }

    /** parent_of, once resolved: the descriptor of a parent that differs
        from the cached one is opened first, the cached one closed after. */
    method Parent(parts: Path, mode: Mode) returns (ok: bool)
      requires Valid() && ValidPath(parts)
      modifies this, k
      ensures Valid() && (k.fs, ok) == TarExtract.DescendCreate(old(k.fs), [], parts, mode)
      ensures ok ==> key == Some(parts)
      ensures before == old(before)
    {
      if key == Some(parts) {
        assert [] + parts == parts;
        TarExtract.NothingToCreate(k.fs, [], parts, mode);
        return true;
      }
      assert Alone(k.fs.tree, []);
      TarExtract.DescendCreateIsValid(k.fs, [], parts, mode);
      var n;
      ok, n := TarExtract.DescendAt(k, root, parts, true, mode);
      if ok {
        if key.Some? {
          k.Close(fd);
        }
        key, fd := Some(parts), n;
      }
    }

    /** _split, with the final component resolved or without. */
    method ResolveSource(parts: Path) returns (p: Option<Path>)
      requires parts != [] && ValidPath(parts)
      ensures p == SourcePath(k.fs, parts)
    {
      if |parts| == 1 || parts[0] != Backup.ROOTFS {
        return Some([Leaf(parts)]);
      }
      var r := SafeResolveParts(RootfsTree(k.fs.tree), parts[1..]);
      p := if r.None? || r.value == [] then None else Some([Backup.ROOTFS] + r.value);
    }

    method ResolveParent(parts: Path) returns (p: Option<Path>)
      requires parts != [] && ValidPath(parts)
      ensures p == ParentKey(k.fs, parts)
    {
      if |parts| == 1 || parts[0] != Backup.ROOTFS {
        return Some([]);
      }
      var r := SafeResolveParts(RootfsTree(k.fs.tree), parts[1..|parts| - 1]);
      p := if r.None? then None else Some([Backup.ROOTFS] + r.value);
    }

    /** open_source: what the descriptor then reads, whatever becomes of the
        name. */
    method OpenSource(parts: Path, mode: Mode) returns (f: Option<FileInfo>)
      requires Valid() && parts != [] && ValidPath(parts)
      modifies this, k
      ensures Valid() && k.fs == old(k.fs) && key == old(key) && before == old(before)
      ensures f == Source(k.fs, parts)
    {
      KeyIsValid(k.fs, parts);
      var p := ResolveSource(parts);
      if p.None? {
        return None;
      }
      assert Alone(k.fs.tree, []);
      var up := Names.Parent(p.value);
      var ok, n := TarExtract.DescendAt(k, root, up, false, mode);
      if !ok {
        return None;
      }
      assert Alone(k.fs.tree, up);
      assert p.value == up + [Leaf(p.value)];
      var st := k.LstatAt(n, Leaf(p.value));
      f := if st.Some? && st.value.File? && Backup.Readable(st.value.file.mode) then Some(st.value.file) else None;
      k.Close(n);
    }

    /** _remove_existing */
    method RemoveExisting(name: Name, dirMember: bool)
      requires Valid() && key.Some? && ValidName(name)
      modifies k`fs
      ensures Valid()
      ensures var p := key.value + [name];
        k.fs == if dirMember && IsDir(old(k.fs).tree, p) then old(k.fs) else Removed(old(k.fs), p)
    {
      assert Alone(k.fs.tree, key.value);
      TarExtract.NothingToRemove(k.fs, key.value + [name]);
      var st := k.LstatAt(fd, name);
      if st.Some? {
        if !st.value.Dir? {
          var _ := k.UnlinkAt(fd, name);
        } else if !dirMember {
          k.RemoveTreeAt(fd, name);
        }
      }
    }

    /** _write_directory, os.symlink, _write_regular or _write_hardlink */
    method WriteMember(name: Name, e: Entry, source: Option<FileInfo>, c: Config) returns (done: bool)
      requires Valid() && key.Some? && ValidName(name) && (e.body.HardBody? ==> source.Some?)
      requires !e.body.DeviceBody? && !e.body.OtherBody?
      modifies k`fs
      ensures Valid() && (k.fs, done) == Place(old(k.fs), key.value + [name], e, source, c)
    {
      done := true;
      var p := key.value + [name];
      RemoveExisting(name, e.body.DirBody?);
      assert Alone(k.fs.tree, key.value);
      match e.body {
        case DirBody =>
          var _ := k.MkdirAt(fd, name, NEW_DIR);
          assert Alone(k.fs.tree, key.value);
          if p in c.noChmod {
            SameModeIsSame(k.fs, p);
          } else {
            var _ := k.ChmodDirAt(fd, name, TarExtract.AtLeastOwner(e.mode));
          }
        case LinkBody(target) =>
          if target == "" {
            done := false;
          } else {
            var _ := k.CreateAt(fd, name, Link(target));
          }
        case RegBody(data) =>
          var _ := k.CreateAt(fd, name, File(FileInfo(data, Given(c, p, NEW_FILE, e.mode), c.now)));
        case HardBody(_) =>
          var mode := Given(c, p, NEW_FILE, if e.mode != 0 then e.mode else source.value.mode);
          var _ := k.CreateAt(fd, name, File(FileInfo(source.value.data, mode, c.now)));
        case _ =>
      }
    }

    method Land(st: State, leaf: Name, e: Entry, source: Option<FileInfo>, c: Config) returns (st': State, done: bool)
      requires Valid() && key.Some? && ValidName(leaf) && st.fs == k.fs && (e.body.HardBody? ==> source.Some?)
      requires !e.body.DeviceBody? && !e.body.OtherBody?
      modifies k`fs
      ensures Valid() && st'.fs == k.fs
      ensures Landed(st, key.value, leaf, e, source, c) == if done then Go(st') else Exit(st')
    {
      done := WriteMember(leaf, e, source, c);
      st' := st.(fs := k.fs);
      if done && e.body.DirBody? && NeedsDeferring(e.mode) {
        st' := st'.(deferred := st'.deferred + [Deferred(key.value, leaf, e.mode)]);
      } else {
        assert st.deferred + [] == st.deferred;
      }
    }

    method Deliver(st: State, e: Entry, parts: Path, linked: Path, c: Config) returns (st': State, done: bool)
      requires Valid() && parts != [] && ValidPath(parts) && linked != [] && ValidPath(linked) && st.fs == k.fs
      requires !e.body.DeviceBody? && !e.body.OtherBody?
      modifies this, k
      ensures Valid() && before == old(before) && st'.fs == k.fs
      ensures Delivered(st, e, parts, linked, c) == if done then Go(st') else Exit(st')
    {
      st', done := st, true;
      KeyIsValid(k.fs, parts);
      var key := ResolveParent(parts);
      if key.None? {
        return;
      }
      var there := Parent(key.value, c.implied);
      st' := st'.(fs := k.fs);
      if !there {
        return;
      }
      var source: Option<FileInfo> := None;
      if e.body.HardBody? {
        source := OpenSource(linked, c.implied);
        if source.None? {
          return;
        }
      }
      st', done := Land(st', Leaf(parts), e, source, c);
    }

    /** A rootfs member; what is committed and deferred is the caller's. */
    method ProcessMember(st: State, e: Entry, parts: Path, c: Config) returns (st': State, done: bool)
      requires Valid() && parts != [] && ValidPath(parts) && st.fs == k.fs
      requires !e.body.DeviceBody? && !e.body.OtherBody?
      modifies this, k
      ensures Valid() && before == old(before) && st'.fs == k.fs
      ensures ProcessRootfs(st, e, parts, c) == if done then Go(st') else Exit(st')
    {
      st', done := st, true;
      var linked := parts;
      if e.body.HardBody? {
        var link := DestPath(e.body.linkname);
        if link.None? || Some(link.value.container) != st.name {
          return;
        }
        linked := link.value.parts;
      }
      if !st.committed {
        ClearRootfs();
        st' := st'.(committed := true, fs := k.fs);
      }
      st', done := Deliver(st', e, parts, linked, c);
    }

    /** _clear_existing_rootfs, before anything is cached. */
    method ClearRootfs()
      requires Valid()
      modifies this, k
      ensures Valid() && before == old(before) && k.fs == Cleared(old(k.fs))
    {
      Close();
      assert Alone(k.fs.tree, []);
      assert [] + [Backup.ROOTFS] == [Backup.ROOTFS] && [] + [SHM] == [SHM];
      k.RemoveTreeAt(root, Backup.ROOTFS);
      assert Alone(k.fs.tree, []);
      k.RemoveTreeAt(root, SHM);
    }

    /** command_restore's loop and what follows it: through the cache, every
        member ends up where a walk from the root would have put it, and no
        descriptor is left open. */
    method Run(es: seq<Entry>, c: Config) returns (r: Result)
      requires Valid() && key.None?
      modifies this, k
      ensures k.fds == old(k.fds) && r == RestoreArchive(old(k.fs), es, c)
    {
      var st := State(None, false, None, [], k.fs);
      var going := true;
      var i := 0;
      while i < |es| && going
        invariant 0 <= i <= |es| && Valid() && before == old(before) && st.fs == k.fs
        invariant var all := ProcessAll(State(None, false, None, [], old(k.fs)), es, c);
          if going then all == ProcessAll(st, es[i..], c) else all == Exit(st)
      {
        st, going := ProcessNext(st, es[i], c);
        i := i + 1;
      }
      Close();
      if !going || !st.committed || st.name.None? {
        return Rejected(st.fs);
      }
      if !IsDir(st.fs.tree, [Backup.ROOTFS]) {
        return Rejected(TarExtract.Emptied(st.fs, []));
      }
      var fs := ApplyDeferred(st.fs, st.deferred, c);
      r := Restored(st.name.value, WithManifest(fs, st.manifest, c));
    }

    method ProcessNext(st: State, e: Entry, c: Config) returns (st': State, going: bool)
      requires Valid() && st.fs == k.fs
      modifies this, k
      ensures Valid() && before == old(before) && st'.fs == k.fs
      ensures Process(st, e, c) == if going then Go(st') else Exit(st')
    {
      st', going := st, true;
      if e.body.DeviceBody? {
        return;
      }
      if BareRoot(e.name) {
        return st, false;
      }
      var d := DestPath(e.name);
      if d.None? {
        return;
      }
      if st.name.Some? && st.name.value != d.value.container {
        return st, false;
      }
      st' := st.(name := Some(d.value.container));
      if d.value.parts[0] != Backup.ROOTFS {
        if e.body.RegBody? && d.value.parts == [Backup.MANIFEST] {
          if |e.body.data| > MANIFEST_MAX {
            going := false;
          } else {
            st' := st'.(manifest := Some(Backup.Content(e.body.data, e.mode)));
          }
        }
      } else if !e.body.OtherBody? {
        st', going := ProcessMember(st', e, d.value.parts, c);
      }
    }
  }

  method ApplyDeferred(s: Fs, ds: seq<Deferred>, c: Config) returns (r: Fs)
    ensures r == ApplyModes(s, ds, c)
  {
    r := s;
    var i := |ds|;
    assert ds[..|ds|] == ds;
    while i > 0
      invariant 0 <= i <= |ds| && ApplyModes(s, ds, c) == ApplyModes(r, ds[..i], c)
    {
      assert ds[..i][..i - 1] == ds[..i - 1];
      i := i - 1;
      r := ApplyMode(r, ds[i], c);
    }
  }
}
