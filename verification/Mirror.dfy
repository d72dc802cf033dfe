/** sync's second pass: writing one source tree onto a destination. The
    destination's files are inodes, because what a transfer must not do is
    write to one that has a name elsewhere. */
module Mirror {
  import opened Names
  import opened Trees
  import opened Resolver
  import opened Walks
  import opened Attributes
  import opened Sync

  type DNode = Node<DirStat, nat>

  /** outside: inodes that also have a name outside the destination. */
  datatype Dst = Dst(tree: Tree<DirStat, nat>, inodes: map<nat, FileStat>, next: nat, outside: set<nat>)

  datatype Config = Config(checksum: bool, crc: Bytes -> nat, now: int)

  ghost predicate ValidDst(d: Dst) {
    && WellFormed(d.tree)
    && (forall p :: IsFile(d.tree, p) ==> d.tree[p].file in d.inodes)
    && (forall i :: i in d.inodes ==> i < d.next)
    && d.outside <= d.inodes.Keys
  }

  // -------------------------------------------------------------------------
  // Comparison
  // -------------------------------------------------------------------------

  /** What the comparison looks at: size, then content or whole seconds. */
  predicate Differs(a: FileStat, b: FileStat, cfg: Config) {
    || |a.data| != |b.data|
    || if cfg.checksum then cfg.crc(a.data) != cfg.crc(b.data) else WholeSeconds(a.mtime) != WholeSeconds(b.mtime)
  }

  /** _needs_update: a checksum that cannot be taken counts as different. */
  predicate NeedsUpdate(src: FileStat, o: Faults, d: Dst, p: Path, cfg: Config)
    requires IsFile(d.tree, p) ==> d.tree[p].file in d.inodes
  {
    || !IsFile(d.tree, p)
    || Differs(src, d.inodes[d.tree[p].file], cfg)
    || (cfg.checksum && (p in o.noRead || p in o.noPeek))
  }

  predicate Stale(src: FileStat, dst: FileStat) {
    dst.mode != src.mode || WholeSeconds(dst.mtime) != WholeSeconds(src.mtime)
  }

  /** The destination entry is of the kind the source entry asks for, with
      its target, or its size and checksum. */
  ghost predicate Placed(n: SNode, d: Dst, p: Path, cfg: Config) {
    match n
    case Dir(_) => IsDir(d.tree, p)
    case Link(target) => p in d.tree && d.tree[p] == Link(target)
    case File(f) =>
      && IsFile(d.tree, p) && d.tree[p].file in d.inodes
      && var g := d.inodes[d.tree[p].file]; |g.data| == |f.data| && (cfg.checksum ==> cfg.crc(f.data) == cfg.crc(g.data))
    case Special => true
  }

  /** And a file has the source's mode and time. */
  ghost predicate Good(n: SNode, d: Dst, p: Path, cfg: Config) {
    Placed(n, d, p, cfg) && (n.File? ==> !Stale(n.file, d.inodes[d.tree[p].file]))
  }

  // What a file is left with. Nothing is said when a mode or a time cannot be
  // set, nor when a file that needs no rewrite cannot be opened.

  /** A file that needs no rewrite: the mode is tried before the time, and
      the first call that fails is the last. */
  function InPlace(f: FileStat, o: Faults, g: FileStat, p: Path): FileStat {
    if p in o.noPeek || (g.mode != f.mode && p in o.noChmod) then g
    else FileStat(g.data, f.mode, if WholeSeconds(g.mtime) != WholeSeconds(f.mtime) && p !in o.noTimes then f.mtime else g.mtime)
  }

  /** A file made anew. */
  function Anew(f: FileStat, o: Faults, p: Path, now: int): FileStat {
    FileStat(f.data, NewMode(o, p, f.mode), if p in o.noTimes then now else f.mtime)
  }

  /** Up to date, but to be made anew if it has another name. */
  predicate Amiss(f: FileStat, o: Faults, d: Dst, p: Path)
    requires IsFile(d.tree, p) && d.tree[p].file in d.inodes
  {
    p !in o.noPeek && Stale(f, d.inodes[d.tree[p].file])
  }

  /** The file at p in d, as the transfer left it, given what it was in d0. */
  ghost predicate FileLeft(f: FileStat, o: Faults, cfg: Config, d0: Dst, d: Dst, p: Path)
    requires IsFile(d.tree, p) && d.tree[p].file in d.inodes && ValidDst(d0)
  {
    var g := d.inodes[d.tree[p].file];
    if IsFile(d0.tree, p) && d.tree[p] == d0.tree[p]
    then
      && g == InPlace(f, o, d0.inodes[d0.tree[p].file], p)
      && !NeedsUpdate(f, o, d0, p, cfg) && !(Amiss(f, o, d0, p) && d0.tree[p].file in d0.outside)
    else g == Anew(f, o, p, cfg.now) && (NeedsUpdate(f, o, d0, p, cfg) || (Amiss(f, o, d0, p) && !OnlyName(d0.tree, d0.outside, p)))
  }

  /** Why an entry that was seen may have been skipped. */
  ghost predicate Reason(n: SNode, o: Faults, d: Dst, p: Path) {
    || n.Special? || (n.File? && IsDir(d.tree, p))
    || p in o.noStat + o.noOpen + o.noList + o.noRead + o.noReplace + o.noCreate + o.noEnter
  }

  /** Never mirrored, and never replaced by a file. */
  ghost predicate Untouchable(n: SNode, d: Dst, p: Path) {
    n.Special? || (n.File? && IsDir(d.tree, p))
  }

  /** Must be skipped whatever happens. */
  ghost predicate Declined(n: SNode, o: Faults, d: Dst, p: Path) {
    Untouchable(n, d, p) || p in o.noStat
  }

  /** The mirror cannot make the directory. */
  predicate DirFails(o: Faults, d: Dst, p: Path) {
    (p in d.tree && !d.tree[p].Dir? && p in o.noReplace) || (!IsDir(d.tree, p) && p in o.noCreate)
  }

  /** The file has to be made anew, and cannot be. */
  predicate FileFails(f: FileStat, o: Faults, cfg: Config, d: Dst, p: Path)
    requires IsFile(d.tree, p) ==> d.tree[p].file in d.inodes
  {
    && (NeedsUpdate(f, o, d, p, cfg) || (Amiss(f, o, d, p) && !OnlyName(d.tree, d.outside, p)))
    && (IsDir(d.tree, p) || p in o.noRead + o.noCreate)
  }

  /** The link cannot be read, or is not there yet and cannot be made. */
  predicate LinkFails(target: string, o: Faults, d: Dst, p: Path) {
    || p in o.noRead
    || (!(p in d.tree && d.tree[p] == Link(target)) && (p in o.noCreate || (p in d.tree && p in o.noReplace)))
  }

  /** Exactly when an entry that is seen is not mirrored. */
  ghost predicate Missed(n: SNode, o: Faults, cfg: Config, d: Dst, p: Path)
    requires ValidDst(d)
  {
    || p in o.noStat || n.Special?
    || (n.Dir? && DirFails(o, d, p))
    || (n.Link? && LinkFails(n.target, o, d, p))
    || (n.File? && FileFails(n.file, o, cfg, d, p))
  }

  // -------------------------------------------------------------------------
  // One entry
  // -------------------------------------------------------------------------

  /** Nothing but the entry at p, what is beneath it and its parent's mode
      and times may change; no inode that has another name does. */
  ghost predicate Elsewhere(d: Dst, d': Dst, p: Path) {
    && p != [] && (forall q :: !(p <= q) && q != Parent(p) ==> AgreeAt(d, d', q))
    && IsDir(d'.tree, Parent(p)) && d'.outside == d.outside && d.next <= d'.next
    && forall i :: i in d.inodes ==>
         SameInode(d, d', i) || (IsFile(d.tree, p) && d.tree[p].file == i && OnlyName(d.tree, d.outside, p))
  }

  ghost predicate SameInode(d: Dst, d': Dst, i: nat)
    requires i in d.inodes
  {
    i in d'.inodes && d'.inodes[i] == d.inodes[i]
  }

  ghost predicate AgreeAt(d: Dst, d': Dst, q: Path) {
    (q in d.tree <==> q in d'.tree) && (q in d.tree ==> d'.tree[q] == d.tree[q])
  }

  ghost predicate Unmoved(d: Dst, d': Dst, p: Path) {
    forall q :: p < q ==> AgreeAt(d, d', q)
  }

  /** What writing the entry at p does to its directory: the mtime moves if
      an entry was made, replaced or removed, and the mode only where it can
      be set. A failure may have moved the mtime all the same. */
  ghost predicate ParentAfter(o: Faults, now: int, d: Dst, d': Dst, p: Path, failed: bool)
    requires p != []
  {
    var up := Parent(p);
    && IsDir(d.tree, up) && IsDir(d'.tree, up)
    && (up in o.noChmod ==> d'.tree[up].dir.mode == d.tree[up].dir.mode)
    && (!failed ==> d'.tree[up].dir.mtime == if SameEntry(d.tree, d'.tree, p) then d.tree[up].dir.mtime else now)
  }

  /** The same entry, whatever a directory's own mode and times. */
  ghost predicate SameEntry<D, F>(t: Tree<D, F>, t': Tree<D, F>, p: Path) {
    (p in t <==> p in t') && (p in t ==> (t[p].Dir? && t'[p].Dir?) || t[p] == t'[p])
  }

  /** A directory the transfer made is private and as old as the run. */
  function NewDir(o: Faults, p: Path, now: int): DirStat {
    DirStat(NewMode(o, p, 0x1C0), now)
  }

  /** Inodes never get another name. */
  ghost predicate NoNewNames(d0: Dst, d: Dst) {
    forall q :: IsFile(d.tree, q) && d.tree[q].file < d0.next ==> q in d0.tree && d0.tree[q] == d.tree[q]
  }

  ghost predicate EntryDone(n: SNode, o: Faults, cfg: Config, d: Dst, d': Dst, p: Path, skip: bool) {
    && ValidDst(d) && ValidDst(d') && Elsewhere(d, d', p) && (n.Link? || Unmoved(d, d', p)) && ParentAfter(o, cfg.now, d, d', p, skip && !n.Special?)
    && (if Declined(n, o, d, p) then skip else skip || Done(n, o, cfg, d, d', p))
    && (skip ==> Reason(n, o, d, p)) && (Untouchable(n, d, p) ==> d' == d) && NoNewNames(d, d')
    && (n.Dir? && p !in o.noStat ==> if DirFails(o, d, p) then skip else IsDir(d'.tree, p))
    && (n.Dir? && IsDir(d'.tree, p) ==> d'.tree[p].dir == if IsDir(d.tree, p) then d.tree[p].dir else NewDir(o, p, cfg.now))
  }

  ghost predicate Done(n: SNode, o: Faults, cfg: Config, d: Dst, d': Dst, p: Path)
    requires ValidDst(d)
  {
    Placed(n, d', p, cfg) && (n.File? ==> FileLeft(n.file, o, cfg, d, d', p))
  }

  /** Nothing to do for this entry. */
  ghost predicate Settled(n: SNode, d: Dst, p: Path, cfg: Config) {
    Good(n, d, p, cfg) && (n.Dir? ==> d.tree[p].dir == n.dir)
  }

  /** dirfd.make_writable, for a directory that is not */
  function WritableMode(o: Faults, dir: Path, mode: Mode): Mode {
    if mode & 0xC0 == 0xC0 || dir in o.noChmod then mode else mode | 0x1C0
  }

  /** No bit is lost, none but the owner's gained, and none at all where the
      directory can be written already. */
  lemma WritableExactly(o: Faults, dir: Path, mode: Mode)
    ensures var m := WritableMode(o, dir, mode);
      && m & mode == mode && m & 0xE3F == mode & 0xE3F
      && (mode & 0xC0 == 0xC0 || dir in o.noChmod ==> m == mode) && (dir !in o.noChmod ==> m & 0xC0 == 0xC0)
  {
  }

  function MadeWritable(o: Faults, t: Tree<DirStat, nat>, dir: Path): Tree<DirStat, nat>
    requires IsDir(t, dir)
  {
    t[dir := Dir(DirStat(WritableMode(o, dir, t[dir].dir.mode), t[dir].dir.mtime))]
  }

  /** Writing into a directory moves its mtime too. */
  function Touched(o: Faults, t: Tree<DirStat, nat>, dir: Path, now: int): Tree<DirStat, nat>
    requires IsDir(t, dir)
  {
    t[dir := Dir(DirStat(WritableMode(o, dir, t[dir].dir.mode), now))]
  }

  function Put(o: Faults, d: Dst, p: Path, n: DNode, now: int): Dst
    requires p != [] && IsDir(d.tree, Parent(p))
  {
    d.(tree := Touched(o, d.tree, Parent(p), now)[p := n])
  }

  /** unlink, or rmtree: all of it. */
  function Unlinked(o: Faults, d: Dst, p: Path, now: int): Dst
    requires p != [] && IsDir(d.tree, Parent(p))
  {
    d.(tree := Touched(o, Without(d.tree, p), Parent(p), now))
  }

  /** A removal that failed on the way. */
  function PartlyUnlinked(d: Dst, p: Path, gone: set<Path>): Dst {
    d.(tree := map q | q in d.tree && !(p < q && Buried(q, |p|, gone)) :: d.tree[q])
  }

  predicate Buried(q: Path, depth: nat, gone: set<Path>) {
    |q| > depth && (q in gone || Buried(Parent(q), depth, gone))
  }

  ghost predicate Ready(d: Dst, p: Path) {
    ValidDst(d) && p != [] && ValidName(Leaf(p)) && IsDir(d.tree, Parent(p))
  }

  lemma RestampedIsWellFormed(t: Tree<DirStat, nat>, dir: Path, st: DirStat)
    requires WellFormed(t) && IsDir(t, dir)
    ensures WellFormed(t[dir := Dir(st)])
  {
    var u := t[dir := Dir(st)];
    forall p | p in u
      ensures Rooted(u, p)
    {
      assert Rooted(t, p);
    }
  }

  lemma PutIsValid(o: Faults, d: Dst, p: Path, n: DNode, now: int)
    requires Ready(d, p) && (n.Dir? || !IsDir(d.tree, p)) && (IsDir(d.tree, p) ==> n.Dir?)
    requires n.File? ==> n.file in d.inodes
    ensures var d' := Put(o, d, p, n, now);
      ValidDst(d') && Elsewhere(d, d', p) && Unmoved(d, d', p)
    ensures !SameEntry(d.tree, Put(o, d, p, n, now).tree, p) ==> ParentAfter(o, now, d, Put(o, d, p, n, now), p, false)
  {
    var d' := Put(o, d, p, n, now);
    RestampedIsWellFormed(d.tree, Parent(p), Touched(o, d.tree, Parent(p), now)[Parent(p)].dir);
    AddedIsWellFormed(Touched(o, d.tree, Parent(p), now), p, n);
    forall q | p < q || (!(p <= q) && q != Parent(p))
      ensures AgreeAt(d, d', q)
    {
    }
    forall q | IsFile(d'.tree, q) && q != p
      ensures IsFile(d.tree, q) && d'.tree[q] == d.tree[q]
    {
    }
  }

  lemma UnlinkedIsValid(o: Faults, d: Dst, p: Path, now: int)
    requires Ready(d, p)
    ensures var d' := Unlinked(o, d, p, now);
      && Ready(d', p) && Elsewhere(d, d', p) && p !in d'.tree
      && (p in d.tree ==> ParentAfter(o, now, d, d', p, false))
  {
    var d' := Unlinked(o, d, p, now);
    WithoutIsWellFormed(d.tree, p);
    RestampedIsWellFormed(Without(d.tree, p), Parent(p), d'.tree[Parent(p)].dir);
    forall q | IsFile(d'.tree, q)
      ensures IsFile(d.tree, q) && d'.tree[q] == d.tree[q]
    {
    }
  }

  lemma PartlyUnlinkedIsWellFormed(d: Dst, p: Path, gone: set<Path>)
    requires Ready(d, p)
    ensures WellFormed(PartlyUnlinked(d, p, gone).tree)
  {
    var d' := PartlyUnlinked(d, p, gone);
    forall q | q in d'.tree
      ensures Rooted(d'.tree, q)
    {
      assert Rooted(d.tree, q);
    }
  }

  lemma PartlyUnlinkedIsValid(d: Dst, p: Path, gone: set<Path>)
    requires Ready(d, p)
    ensures ValidDst(PartlyUnlinked(d, p, gone)) && Elsewhere(d, PartlyUnlinked(d, p, gone), p)
  {
    var d' := PartlyUnlinked(d, p, gone);
    PartlyUnlinkedIsWellFormed(d, p, gone);
    forall q | IsFile(d'.tree, q)
      ensures IsFile(d.tree, q) && d'.tree[q] == d.tree[q]
    {
    }
  }

  lemma ElsewhereTwice(d: Dst, d1: Dst, d2: Dst, p: Path)
    requires Elsewhere(d, d1, p) && Elsewhere(d1, d2, p) && p !in d1.tree
    ensures Elsewhere(d, d2, p)
  {
    forall q | !(p <= q) && q != Parent(p)
      ensures AgreeAt(d, d2, q)
    {
      assert AgreeAt(d, d1, q) && AgreeAt(d1, d2, q);
    }
    forall i | i in d.inodes
      ensures SameInode(d, d2, i) || (IsFile(d.tree, p) && d.tree[p].file == i && OnlyName(d.tree, d.outside, p))
    {
      assert SameInode(d, d1, i) ==> SameInode(d1, d2, i);
    }
  }

  lemma NothingBelow(d: Dst, p: Path)
    requires WellFormed(d.tree) && !IsDir(d.tree, p)
    ensures forall q :: p < q ==> q !in d.tree
  {
    forall q | p < q
      ensures q !in d.tree
    {
      if q in d.tree {
        AncestorsAreDirs(d.tree, p, q);
      }
    }
  }

  /** The directory alone has changed. */
  lemma ParentStays(o: Faults, d: Dst, p: Path, st: DirStat, now: int)
    requires Ready(d, p)
    ensures var d' := d.(tree := d.tree[Parent(p) := Dir(st)]);
      && ValidDst(d') && Elsewhere(d, d', p) && Unmoved(d, d', p) && AgreeAt(d, d', p) && Ready(d', p)
      && (st.mode == WritableMode(o, Parent(p), d.tree[Parent(p)].dir.mode) ==> ParentAfter(o, now, d, d', p, true))
  {
    var d' := d.(tree := d.tree[Parent(p) := Dir(st)]);
    RestampedIsWellFormed(d.tree, Parent(p), st);
    forall q | IsFile(d'.tree, q)
      ensures IsFile(d.tree, q) && d'.tree[q] == d.tree[q]
    {
    }
  }

  /** One call after another that took the entry away. */
  lemma ParentTwice(o: Faults, now: int, d: Dst, d1: Dst, d2: Dst, p: Path, failed: bool)
    requires p != [] && ParentAfter(o, now, d, d1, p, false) && ParentAfter(o, now, d1, d2, p, failed)
    requires p in d.tree && p !in d1.tree && !(p in d2.tree && SameEntry(d.tree, d2.tree, p))
    ensures ParentAfter(o, now, d, d2, p, failed)
  {
  }

  /** What stood at p is removed, and something made there, if it can be. */
  function Remade(o: Faults, d: Dst, p: Path, n: Option<DNode>, now: int): Dst
    requires p != [] && IsDir(d.tree, Parent(p))
  {
    var d1 := if p in d.tree then Unlinked(o, d, p, now) else d;
    if n.Some? then Put(o, d1, p, n.value, now) else d1.(tree := MadeWritable(o, d1.tree, Parent(p)))
  }

  lemma RemadeIsValid(o: Faults, d: Dst, p: Path, n: Option<DNode>, now: int)
    requires Ready(d, p) && (n.Some? ==> !n.value.File? && !SameEntry(d.tree, d.tree[p := n.value], p))
    ensures var d' := Remade(o, d, p, n, now);
      && ValidDst(d') && Elsewhere(d, d', p) && (!IsDir(d.tree, p) ==> Unmoved(d, d', p))
      && ParentAfter(o, now, d, d', p, n.None?) && NoNewNames(d, d')
  {
    hide Elsewhere, Unmoved, NoNewNames, ParentAfter;
    var d1 := if p in d.tree then Unlinked(o, d, p, now) else d;
    var d' := Remade(o, d, p, n, now);
    if p in d.tree {
      UnlinkedIsValid(o, d, p, now);
    }
    if n.Some? {
      PutIsValid(o, d1, p, n.value, now);
    } else {
      ParentStays(o, d1, p, d'.tree[Parent(p)].dir, now);
    }
    RemadeTwice(o, d, d1, d', p, n, now);
    RemadeNames(o, d, p, n, now);
  }

  lemma RemadeTwice(o: Faults, d: Dst, d1: Dst, d': Dst, p: Path, n: Option<DNode>, now: int)
    requires Ready(d, p) && Elsewhere(d1, d', p) && ParentAfter(o, now, d1, d', p, n.None?) && p !in d1.tree && Unmoved(d1, d', p)
    requires if p in d.tree then Elsewhere(d, d1, p) && ParentAfter(o, now, d, d1, p, false) && WellFormed(d1.tree) else d1 == d
    requires if n.Some? then p in d'.tree && d'.tree[p] == n.value && !SameEntry(d.tree, d.tree[p := n.value], p) else p !in d'.tree
    ensures Elsewhere(d, d', p) && ParentAfter(o, now, d, d', p, n.None?) && (!IsDir(d.tree, p) ==> Unmoved(d, d', p))
  {
    if p in d.tree {
      ElsewhereTwice(d, d1, d', p);
      ParentTwice(o, now, d, d1, d', p, n.None?);
      if !IsDir(d.tree, p) {
        NothingBelow(d, p);
        NothingBelow(d1, p);
        forall q | p < q
          ensures AgreeAt(d, d', q)
        {
          assert AgreeAt(d1, d', q);
        }
      }
    }
  }

  lemma RemadeNames(o: Faults, d: Dst, p: Path, n: Option<DNode>, now: int)
    requires Ready(d, p) && (n.Some? ==> !n.value.File?)
    ensures NoNewNames(d, Remade(o, d, p, n, now))
  {
  }

  /** _sync_dir; did says that the directory was newly made. */
  method SyncDir(n: SNode, o: Faults, cfg: Config, d: Dst, p: Path) returns (ok: bool, did: bool, d': Dst)
    requires n.Dir? && Ready(d, p) && p !in o.noStat
    ensures EntryDone(n, o, cfg, d, d', p, !ok)
    ensures ok <==> !DirFails(o, d, p)
    ensures IsDir(d.tree, p) ==> !did && d' == d
  {
    did, d' := false, d;
    if p in d.tree && !d.tree[p].Dir? {
      if p in o.noReplace {
        return false, false, d;
      }
      d' := Unlinked(o, d, p, cfg.now);
    }
    if IsDir(d'.tree, p) {
      return true, false, d';
    }
    RemadeIsValid(o, d, p, if p in o.noCreate then None else Some(Dir(NewDir(o, p, cfg.now))), cfg.now);
    hide Elsewhere, Unmoved, NoNewNames, ParentAfter, ValidDst;
    if p in o.noCreate {
      d' := d'.(tree := MadeWritable(o, d'.tree, Parent(p)));
      ok := false;
    } else {
      d' := Put(o, d', p, Dir(NewDir(o, p, cfg.now)), cfg.now);
      ok, did := true, true;
    }
  }

  /** _sync_symlink */
  method SyncSymlink(n: SNode, o: Faults, cfg: Config, d: Dst, p: Path) returns (ok: bool, did: bool, d': Dst)
    requires n.Link? && Ready(d, p) && p !in o.noStat
    ensures EntryDone(n, o, cfg, d, d', p, !ok) && (ok <==> !LinkFails(n.target, o, d, p))
    ensures Settled(n, d, p, cfg) ==> !did && d' == d
  {
    did, d' := false, d;
    if p in o.noRead {
      return false, false, d;
    }
    if p in d.tree {
      if d.tree[p] == Link(n.target) {
        return true, false, d;
      }
      if p in o.noReplace {
        d' := PartlyUnlinked(d, p, o.partly);
        PartlyUnlinkedIsValid(d, p, o.partly);
        return false, true, d';
      }
      d' := Unlinked(o, d, p, cfg.now);
    }
    RemadeIsValid(o, d, p, if p in o.noCreate then None else Some(Link(n.target)), cfg.now);
    hide Elsewhere, Unmoved, NoNewNames, ParentAfter, ValidDst;
    if p in o.noCreate {
      d' := d'.(tree := MadeWritable(o, d'.tree, Parent(p)));
      ok := false;
    } else {
      d' := Put(o, d', p, Link(n.target), cfg.now);
      ok, did := true, true;
    }
  }

  datatype Meta = Fine | Fixed | Rewrite

  /** _refresh_file_metadata: an inode with another name is left alone, and a
      call that fails is passed over in silence. */
  method RefreshFileMetadata(n: SNode, o: Faults, cfg: Config, d: Dst, p: Path) returns (m: Meta, d': Dst)
    requires n.File? && Ready(d, p) && p !in o.noStat && IsFile(d.tree, p) && !NeedsUpdate(n.file, o, d, p, cfg)
    ensures m.Rewrite? <==> Amiss(n.file, o, d, p) && !OnlyName(d.tree, d.outside, p)
    ensures m.Rewrite? ==> d' == d
    ensures !m.Rewrite? ==> EntryDone(n, o, cfg, d, d', p, false) && d'.tree == d.tree
    ensures Settled(n, d, p, cfg) ==> m.Fine? && d' == d
  {
    d' := d;
    if p in o.noPeek {
      return Fine, d;
    }
    var src, dst := n.file, d.inodes[d.tree[p].file];
    var stale := WholeSeconds(dst.mtime) != WholeSeconds(src.mtime);
    if dst.mode == src.mode && !stale {
      return Fine, d;
    }
    if !OnlyName(d.tree, d.outside, p) {
      return Rewrite, d;
    }
    m := Fixed;
    if dst.mode != src.mode {
      if p in o.noChmod {
        return Fine, d;
      }
      dst := dst.(mode := src.mode);
    }
    if stale {
      if p in o.noTimes {
        m := Fine;
      } else {
        dst := dst.(mtime := src.mtime);
      }
    }
    d' := d.(inodes := d.inodes[d.tree[p].file := dst]);
    assert forall q :: IsFile(d'.tree, q) ==> IsFile(d.tree, q);
  }

  /** A new inode, with what could be set of its mode and times. */
  function WithFile(d: Dst, f: FileStat): Dst {
    d.(inodes := d.inodes[d.next := f], next := d.next + 1)
  }

  lemma WithFileIsReady(d: Dst, f: FileStat, p: Path)
    requires Ready(d, p)
    ensures Ready(WithFile(d, f), p)
  {
    var d1 := WithFile(d, f);
    forall q | IsFile(d1.tree, q)
      ensures d1.tree[q].file in d1.inodes
    {
      assert IsFile(d.tree, q);
    }
  }

  /** _sync_file: a new inode, renamed into place. */
  method SyncFile(n: SNode, o: Faults, cfg: Config, d: Dst, p: Path) returns (ok: bool, did: bool, d': Dst)
    requires n.File? && Ready(d, p) && p !in o.noStat
    requires NeedsUpdate(n.file, o, d, p, cfg) || (Amiss(n.file, o, d, p) && !OnlyName(d.tree, d.outside, p))
    ensures EntryDone(n, o, cfg, d, d', p, !ok) && (ok <==> !FileFails(n.file, o, cfg, d, p))
  {
    did, d' := false, d;
    if IsDir(d.tree, p) || p in o.noRead {
      return false, false, d;
    }
    if p in o.noCreate {
      d' := d.(tree := Touched(o, d.tree, Parent(p), cfg.now));
      ParentStays(o, d, p, d'.tree[Parent(p)].dir, cfg.now);
      return false, false, d';
    }
    NothingBelow(d, p);
    ghost var d1 := WithFile(d, Anew(n.file, o, p, cfg.now));
    WithFileIsReady(d, Anew(n.file, o, p, cfg.now), p);
    d' := Put(o, WithFile(d, Anew(n.file, o, p, cfg.now)), p, File(d.next), cfg.now);
    PutIsValid(o, d1, p, File(d.next), cfg.now);
    assert IsFile(d.tree, p) ==> d.tree[p].file < d.next;
    assert Elsewhere(d, d', p) by {
      forall q | !(p <= q) && q != Parent(p)
        ensures AgreeAt(d, d', q)
      {
        assert AgreeAt(d1, d', q);
      }
    }
    forall q | p < q
      ensures AgreeAt(d, d', q)
    {
      assert AgreeAt(d1, d', q);
    }
    ok, did := true, true;
  }

  /** One round of _mirror_entries' loop. */
  method MirrorEntry(s: STree, o: Faults, cfg: Config, d: Dst, p: Path, ctx: Ctx)
    returns (descend: bool, did: bool, d': Dst, ghost skip: bool)
    requires p in s && Ready(d, p)
    modifies ctx`srcRels, ctx`skipped, ctx`failures, ctx`excused
    ensures ctx.srcRels == old(ctx.srcRels) + {p}
    ensures EntryDone(s[p], o, cfg, d, d', p, skip) && (skip <==> Missed(s[p], o, cfg, d, p))
    ensures ctx.skipped == old(ctx.skipped) + if skip then {p} else {}
    ensures ctx.excused <= old(ctx.excused) + if s[p].Special? then {p} else {}
    ensures old(ctx.Counted()) ==> ctx.Counted()
    ensures descend <==> s[p].Dir? && p !in o.noStat && !DirFails(o, d, p)
    ensures Settled(s[p], d, p, cfg) && p !in o.noRead && p !in o.noPeek ==> !did && d' == d
  {
    ctx.Saw(p);
    descend, did, d', skip := false, false, d, false;
    if p in o.noStat {
      ctx.NoteFailure(p);
      skip := true;
      return;
    }
    var ok := true;
    match s[p] {
      case Special =>
        ctx.SkipSpecial(p);
        skip := true;
      case Dir(_) =>
        ok, did, d' := SyncDir(s[p], o, cfg, d, p);
        descend := ok;
      case Link(_) =>
        ok, did, d' := SyncSymlink(s[p], o, cfg, d, p);
      case File(f) =>
        var m := Rewrite;
        if !NeedsUpdate(f, o, d, p, cfg) {
          m, d' := RefreshFileMetadata(s[p], o, cfg, d, p);
        }
        if m == Rewrite {
          ok, did, d' := SyncFile(s[p], o, cfg, d, p);
        } else {
          did := m == Fixed;
        }
    }
    if !ok {
      ctx.NoteFailure(p);
      skip := true;
    }
  }

  // -------------------------------------------------------------------------
  // All the entries so far
  // -------------------------------------------------------------------------

  /** Beneath a source symlink: a destination directory that stood there is
      gone with everything in it. */
  ghost predicate Swallowed(s: STree, q: Path) {
    exists k :: 0 < k < |q| && IsLink(s, q[..k])
  }

  /** An entry the first tree and the destination now agree on, content
      included. */
  ghost predicate Kept(d0: Dst, d: Dst, q: Path) {
    && AgreeAt(d0, d, q)
    && (IsFile(d0.tree, q) && d0.tree[q].file in d0.inodes ==> SameInode(d0, d, d0.tree[q].file))
  }

  /** What is true of an entry the mirror has got past. */
  ghost predicate Outcome(s: STree, o: Faults, cfg: Config, d0: Dst, d: Dst, p: Path, skipped: set<Path>)
    requires p in s && ValidDst(d0)
  {
    && (if Declined(s[p], o, d0, p) then p in skipped else p in skipped || Done(s[p], o, cfg, d0, d, p))
    && (Untouchable(s[p], d0, p) ==> Kept(d0, d, p))
    && (s[p].Dir? && p !in o.noStat ==> if DirFails(o, d0, p) then p in skipped else IsDir(d.tree, p))
  }

  /** No entry of the directory was made, replaced or removed. */
  ghost predicate Intact<D, F>(t0: Tree<D, F>, t: Tree<D, F>, x: Path) {
    forall c {:trigger SameEntry(t0, t, c)} :: c != [] && Parent(c) == x ==> SameEntry(t0, t, c)
  }

  /** The mode and the time a directory has before it is given its source's. */
  function ModeBefore(o: Faults, d0: Dst, x: Path): Mode {
    if IsDir(d0.tree, x) then d0.tree[x].dir.mode else NewMode(o, x, 0x1C0)
  }

  ghost function TimeBefore(cfg: Config, d0: Dst, d: Dst, x: Path): int {
    if IsDir(d0.tree, x) && Intact(d0.tree, d.tree, x) then d0.tree[x].dir.mtime else cfg.now
  }

  /** No entry of the directory failed. */
  ghost predicate Unfailed(s: STree, skipped: set<Path>, x: Path) {
    forall c :: c in skipped && c != [] && Parent(c) == x ==> c in s && s[c].Special?
  }

  /** A directory of the destination, while it is being filled and when it
      has been given the source's mode and times. */
  ghost predicate DirSoFar(s: STree, o: Faults, cfg: Config, d0: Dst, d: Dst, x: Path, fin: bool, unfailed: bool)
    requires IsDir(s, x) && IsDir(d.tree, x)
  {
    var st := d.tree[x].dir;
    && (x in o.noChmod ==> st.mode == ModeBefore(o, d0, x))
    && (unfailed && (fin ==> x in o.noTimes) ==> st.mtime == TimeBefore(cfg, d0, d, x))
    && (fin ==> (x !in o.noChmod ==> st.mode == s[x].dir.mode) && (x !in o.noTimes ==> st.mtime == s[x].dir.mtime))
  }

  ghost predicate DirsSoFar(s: STree, o: Faults, cfg: Config, d0: Dst, d: Dst, done: set<Path>, fin: set<Path>, skipped: set<Path>) {
    forall x :: (x in done || x == []) && IsDir(s, x) && IsDir(d.tree, x) ==>
      DirSoFar(s, o, cfg, d0, d, x, x in fin, Unfailed(s, skipped, x))
  }

  /** done: entries looked at; fin: directories given their metadata. */
  ghost predicate Core(s: STree, o: Faults, cfg: Config, d0: Dst, d: Dst, done: set<Path>, fin: set<Path>,
                       skip0: set<Path>, skipped: set<Path>) {
    Entries(s, o, cfg, d0, d, done, fin, skip0, skipped) && DirsSoFar(s, o, cfg, d0, d, done, fin, skipped)
  }

  ghost predicate Entries(s: STree, o: Faults, cfg: Config, d0: Dst, d: Dst, done: set<Path>, fin: set<Path>,
                          skip0: set<Path>, skipped: set<Path>) {
    && ValidDst(d0) && ValidDst(d) && skip0 <= skipped && d.outside == d0.outside && d.next >= d0.next
    && (forall p :: p in done ==> p in s && p != [] && Outcome(s, o, cfg, d0, d, p, skipped))
    && (forall p :: p in skipped && p !in skip0 ==> (p in done || p == []) && p in s && Reason(s[p], o, d0, p))
    && (forall p :: p in fin ==> p in done && IsDir(s, p) && IsDir(d.tree, p))
    && (forall q {:trigger Swallowed(s, q)} :: q != [] && q !in done && !Swallowed(s, q) ==> Kept(d0, d, q))
    && (forall i :: i in d0.outside && i in d0.inodes ==> SameInode(d0, d, i))
    && (done == {} ==> d == d0) && NoNewNames(d0, d)
  }

  /** A file or link once written is not changed by what happens elsewhere. */
  lemma DoneElsewhere(n: SNode, o: Faults, cfg: Config, d0: Dst, d: Dst, d': Dst, q: Path, p: Path)
    requires ValidDst(d0) && ValidDst(d) && Elsewhere(d, d', p) && IsDir(d.tree, Parent(p)) && !(p <= q)
    requires q == Parent(p) ==> n.Dir?
    requires Done(n, o, cfg, d0, d, q)
    ensures Done(n, o, cfg, d0, d', q)
  {
    if q != Parent(p) {
      assert AgreeAt(d, d', q);
      if IsFile(d.tree, q) {
        assert SameInode(d, d', d.tree[q].file);
      }
    }
  }

  lemma KeptElsewhere(n: SNode, o: Faults, cfg: Config, d0: Dst, d: Dst, d': Dst, p: Path, q: Path, skip: bool)
    requires ValidDst(d0) && ValidDst(d) && Kept(d0, d, q) && EntryDone(n, o, cfg, d, d', p, skip)
    requires q != p && q != Parent(p) && !(n.Link? && p < q)
    ensures Kept(d0, d', q)
  {
    assert p <= q ==> p < q || p == q;
    assert AgreeAt(d, d', q) && AgreeAt(d0, d, q);
    if IsFile(d0.tree, q) {
      var i := d0.tree[q].file;
      assert SameInode(d0, d, i);
      assert SameInode(d, d', i);
    }
  }

  /** Up to p itself, first and present tree judge p alike. */
  lemma SameJudgement(n: SNode, o: Faults, cfg: Config, d0: Dst, d: Dst, p: Path)
    requires ValidDst(d0) && ValidDst(d) && Kept(d0, d, p)
    ensures Declined(n, o, d, p) <==> Declined(n, o, d0, p)
    ensures Reason(n, o, d, p) <==> Reason(n, o, d0, p)
    ensures n.File? ==> (NeedsUpdate(n.file, o, d, p, cfg) <==> NeedsUpdate(n.file, o, d0, p, cfg))
    ensures n.File? && IsFile(d0.tree, p) ==> (Amiss(n.file, o, d, p) <==> Amiss(n.file, o, d0, p))
    ensures DirFails(o, d, p) <==> DirFails(o, d0, p)
    ensures Settled(n, d, p, cfg) <==> Settled(n, d0, p, cfg)
  {
    assert AgreeAt(d0, d, p);
    if IsFile(d0.tree, p) {
      assert SameInode(d0, d, d0.tree[p].file);
    }
  }

  lemma UntouchedElsewhere(s: STree, o: Faults, cfg: Config, d0: Dst, d: Dst, d': Dst, p: Path, q: Path, skip: bool)
    requires WellFormed(s) && p in s && q in s && p != [] && !s[q].Dir? && !(p <= q)
    requires ValidDst(d0) && ValidDst(d) && Kept(d0, d, q) && EntryDone(s[p], o, cfg, d, d', p, skip)
    ensures Kept(d0, d', q)
  {
    assert Rooted(s, p);
    KeptElsewhere(s[p], o, cfg, d0, d, d', p, q, skip);
  }

  /** The file at p, judged by the tree the run found. */
  lemma DoneSince(n: SNode, o: Faults, cfg: Config, d0: Dst, d: Dst, d': Dst, p: Path)
    requires ValidDst(d0) && ValidDst(d) && Kept(d0, d, p) && NoNewNames(d0, d) && d.outside == d0.outside
    requires Done(n, o, cfg, d, d', p)
    ensures Done(n, o, cfg, d0, d', p)
  {
    SameJudgement(n, o, cfg, d0, d, p);
    assert AgreeAt(d0, d, p);
    if n.File? && IsFile(d0.tree, p) {
      var i := d0.tree[p].file;
      assert SameInode(d0, d, i);
      if !OnlyName(d.tree, d.outside, p) && i !in d.outside {
        var q :| q in d.tree && d.tree[q] == d.tree[p] && q != p;
        assert IsFile(d.tree, q);
      }
    }
  }

  lemma EntryKeeps(d0: Dst, d: Dst, d': Dst, p: Path, c: Path)
    requires Elsewhere(d, d', p) && IsDir(d.tree, Parent(p)) && !(p <= c)
    ensures SameEntry(d0.tree, d'.tree, c) <==> SameEntry(d0.tree, d.tree, c)
  {
    if c != Parent(p) {
      assert AgreeAt(d, d', c);
    }
  }

  lemma NotBeneath(p: Path, c: Path)
    requires p != [] && c != [] && !(p <= Parent(c)) && Parent(c) != Parent(p)
    ensures !(p <= c)
  {
    if |p| < |c| {
      assert c[..|p|] == Parent(c)[..|p|];
    }
  }

  lemma IntactElsewhere(d0: Dst, d: Dst, d': Dst, p: Path, x: Path)
    requires Elsewhere(d, d', p) && IsDir(d.tree, Parent(p)) && !(p <= x) && x != Parent(p)
    ensures Intact(d0.tree, d'.tree, x) <==> Intact(d0.tree, d.tree, x)
  {
    forall c | c != [] && Parent(c) == x
      ensures SameEntry(d0.tree, d'.tree, c) <==> SameEntry(d0.tree, d.tree, c)
    {
      NotBeneath(p, c);
      EntryKeeps(d0, d, d', p, c);
    }
  }

  lemma IntactParent(d0: Dst, d: Dst, d': Dst, p: Path)
    requires Elsewhere(d, d', p) && IsDir(d.tree, Parent(p)) && AgreeAt(d0, d, p)
    ensures Intact(d0.tree, d'.tree, Parent(p)) <==> Intact(d0.tree, d.tree, Parent(p)) && SameEntry(d.tree, d'.tree, p)
  {
    forall c | c != [] && Parent(c) == Parent(p) && c != p
      ensures SameEntry(d0.tree, d'.tree, c) <==> SameEntry(d0.tree, d.tree, c)
    {
      assert p <= c ==> c == p;
      EntryKeeps(d0, d, d', p, c);
    }
    assert SameEntry(d0.tree, d'.tree, p) <==> SameEntry(d.tree, d'.tree, p);
  }

  /** Nothing beneath a directory has been touched when it is looked at. */
  lemma IntactYet(s: STree, d0: Dst, d: Dst, done: set<Path>, p: Path)
    requires IsDir(s, p) && WellFormed(s) && forall q :: q in done ==> !(p <= q)
    requires forall q {:trigger Swallowed(s, q)} :: q != [] && q !in done && !Swallowed(s, q) ==> Kept(d0, d, q)
    ensures Intact(d0.tree, d.tree, p)
  {
    forall c | c != [] && Parent(c) == p
      ensures SameEntry(d0.tree, d.tree, c)
    {
      assert p <= c;
      ChildNotSwallowed(s, c);
      assert Kept(d0, d, c);
    }
  }

  lemma ChildNotSwallowed(s: STree, c: Path)
    requires WellFormed(s) && c != [] && IsDir(s, Parent(c))
    ensures !Swallowed(s, c)
  {
    var up := Parent(c);
    forall k | 0 < k < |c|
      ensures !IsLink(s, c[..k])
    {
      assert c[..k] == up[..k];
      if k < |up| {
        AncestorsAreDirs(s, up[..k], up);
      }
    }
  }

  /** The directory at x after the entry at p was dealt with. */
  lemma DirStep(s: STree, o: Faults, cfg: Config, d0: Dst, d: Dst, d': Dst, done: set<Path>, fin: set<Path>,
                skipped: set<Path>, p: Path, skip: bool, x: Path)
    requires WellFormed(s) && DirsSoFar(s, o, cfg, d0, d, done, fin, skipped)
    requires p in s && p != [] && IsDir(d.tree, Parent(p)) && EntryDone(s[p], o, cfg, d, d', p, skip)
    requires forall q :: q in done ==> !(p <= q)
    requires Parent(p) !in fin && (Parent(p) in done || Parent(p) == [])
    requires p !in done && p !in fin && Kept(d0, d, p) && (IsDir(s, p) ==> Intact(d0.tree, d.tree, p))
    requires (x in done || x == [] || x == p) && IsDir(s, x) && IsDir(d'.tree, x)
    ensures DirSoFar(s, o, cfg, d0, d', x, x in fin, Unfailed(s, skipped + if skip then {p} else {}, x))
  {
    var skipped' := skipped + if skip then {p} else {};
    assert Unfailed(s, skipped', x) ==> Unfailed(s, skipped, x);
    if x == p {
      assert AgreeAt(d0, d, p) && Unmoved(d, d', p);
      forall c | c != [] && Parent(c) == p
        ensures SameEntry(d0.tree, d'.tree, c) <==> SameEntry(d0.tree, d.tree, c)
      {
        assert p < c;
        assert AgreeAt(d, d', c);
      }
      assert Intact(d0.tree, d'.tree, p) <==> Intact(d0.tree, d.tree, p);
    } else if x == Parent(p) {
      assert Unfailed(s, skipped', x) ==> !(skip && !s[p].Special?);
      assert AgreeAt(d0, d, p);
      IntactParent(d0, d, d', p);
    } else {
      assert x == [] ==> !(p <= x);
      assert AgreeAt(d, d', x);
      IntactElsewhere(d0, d, d', p, x);
    }
  }

  lemma OutcomeElsewhere(s: STree, o: Faults, cfg: Config, d0: Dst, d: Dst, d': Dst, p: Path, q: Path,
                         skipped: set<Path>, skipped': set<Path>, skip: bool)
    requires WellFormed(s) && p in s && q in s && p != [] && !(p <= q) && IsDir(d.tree, Parent(p)) && skipped <= skipped'
    requires ValidDst(d0) && Outcome(s, o, cfg, d0, d, q, skipped) && EntryDone(s[p], o, cfg, d, d', p, skip)
    ensures Outcome(s, o, cfg, d0, d', q, skipped')
  {
    assert Rooted(s, p);
    assert q != Parent(p) ==> AgreeAt(d, d', q);
    if Done(s[q], o, cfg, d0, d, q) {
      DoneElsewhere(s[q], o, cfg, d0, d, d', q, p);
    }
    if Untouchable(s[q], d0, q) {
      UntouchedElsewhere(s, o, cfg, d0, d, d', p, q, skip);
    }
  }

  lemma OutcomeHere(s: STree, o: Faults, cfg: Config, d0: Dst, d: Dst, d': Dst, p: Path, skipped': set<Path>, skip: bool)
    requires ValidDst(d0) && Kept(d0, d, p) && NoNewNames(d0, d) && d.outside == d0.outside
    requires p in s && EntryDone(s[p], o, cfg, d, d', p, skip) && (skip ==> p in skipped')
    ensures Outcome(s, o, cfg, d0, d', p, skipped') && (skip ==> Reason(s[p], o, d0, p))
  {
    SameJudgement(s[p], o, cfg, d0, d, p);
    if Done(s[p], o, cfg, d, d', p) {
      DoneSince(s[p], o, cfg, d0, d, d', p);
    }
  }

  lemma KeptOn(s: STree, o: Faults, cfg: Config, d0: Dst, d: Dst, d': Dst, done: set<Path>, p: Path, q: Path, skip: bool)
    requires p in s && p != [] && ValidDst(d0) && ValidDst(d) && Kept(d0, d, q) && EntryDone(s[p], o, cfg, d, d', p, skip)
    requires q != [] && q !in done + {p} && !Swallowed(s, q) && (Parent(p) in done || Parent(p) == [])
    ensures Kept(d0, d', q)
  {
    assert p < q ==> q[..|p|] == p;
    KeptElsewhere(s[p], o, cfg, d0, d, d', p, q, skip);
  }

  lemma EntriesStep(s: STree, o: Faults, cfg: Config, d0: Dst, d: Dst, d': Dst, done: set<Path>, fin: set<Path>,
                    skip0: set<Path>, skipped: set<Path>, p: Path, skip: bool)
    requires WellFormed(s) && Entries(s, o, cfg, d0, d, done, fin, skip0, skipped)
    requires p in s && p != [] && IsDir(d.tree, Parent(p)) && EntryDone(s[p], o, cfg, d, d', p, skip)
    requires forall q :: q in done ==> !(p <= q)
    requires Parent(p) !in fin && (Parent(p) in done || Parent(p) == [])
    requires p !in done && !Swallowed(s, p) && ValidDst(d0)
    ensures Entries(s, o, cfg, d0, d', done + {p}, fin, skip0, skipped + if skip then {p} else {})
  {
    var skipped' := skipped + if skip then {p} else {};
    assert Kept(d0, d, p);
    OutcomeHere(s, o, cfg, d0, d, d', p, skipped', skip);
    hide Outcome, Done, Kept, Swallowed, WellFormed;
    forall q | q in done
      ensures Outcome(s, o, cfg, d0, d', q, skipped')
    {
      OutcomeElsewhere(s, o, cfg, d0, d, d', p, q, skipped, skipped', skip);
    }
    forall q {:trigger Swallowed(s, q)} | q != [] && q !in done + {p} && !Swallowed(s, q)
      ensures Kept(d0, d', q)
    {
      KeptOn(s, o, cfg, d0, d, d', done, p, q, skip);
    }
    forall i | i in d0.outside && i in d0.inodes
      ensures SameInode(d0, d', i)
    {
      assert SameInode(d0, d, i) && SameInode(d, d', i);
    }
    forall q | q in fin
      ensures IsDir(d'.tree, q)
    {
      assert AgreeAt(d, d', q);
    }
  }

  lemma DirsStep(s: STree, o: Faults, cfg: Config, d0: Dst, d: Dst, d': Dst, done: set<Path>, fin: set<Path>,
                 skip0: set<Path>, skipped: set<Path>, p: Path, skip: bool)
    requires WellFormed(s) && Core(s, o, cfg, d0, d, done, fin, skip0, skipped)
    requires p in s && p != [] && IsDir(d.tree, Parent(p)) && EntryDone(s[p], o, cfg, d, d', p, skip)
    requires forall q :: q in done ==> !(p <= q)
    requires Parent(p) !in fin && (Parent(p) in done || Parent(p) == [])
    requires p !in done && !Swallowed(s, p)
    ensures DirsSoFar(s, o, cfg, d0, d', done + {p}, fin, skipped + if skip then {p} else {})
  {
    assert Kept(d0, d, p) && p !in fin;
    if s[p].Dir? {
      IntactYet(s, d0, d, done, p);
    }
    hide EntryDone, DirSoFar, Unfailed, Intact, Outcome, Kept, WellFormed;
    forall x | (x in done + {p} || x == []) && IsDir(s, x) && IsDir(d'.tree, x)
      ensures DirSoFar(s, o, cfg, d0, d', x, x in fin, Unfailed(s, skipped + if skip then {p} else {}, x))
    {
      DirStep(s, o, cfg, d0, d, d', done, fin, skipped, p, skip, x);
    }
  }

  lemma CoreStep(s: STree, o: Faults, cfg: Config, d0: Dst, d: Dst, d': Dst, done: set<Path>, fin: set<Path>,
                 skip0: set<Path>, skipped: set<Path>, p: Path, skip: bool)
    requires WellFormed(s) && Core(s, o, cfg, d0, d, done, fin, skip0, skipped)
    requires p in s && p != [] && IsDir(d.tree, Parent(p)) && EntryDone(s[p], o, cfg, d, d', p, skip)
    requires forall q :: q in done ==> !(p <= q)
    requires Parent(p) !in fin && (Parent(p) in done || Parent(p) == [])
    requires p !in done && !Swallowed(s, p)
    ensures Core(s, o, cfg, d0, d', done + {p}, fin, skip0, skipped + if skip then {p} else {})
  {
    assert ValidDst(d0);
    hide EntryDone, DirsSoFar, WellFormed, ValidDst, Entries, Swallowed;
    EntriesStep(s, o, cfg, d0, d, d', done, fin, skip0, skipped, p, skip);
    DirsStep(s, o, cfg, d0, d, d', done, fin, skip0, skipped, p, skip);
  }

  /** A directory is given its source's mode and times. */
  function Stamped(d: Dst, c: Path, st: DirStat): Dst {
    d.(tree := d.tree[c := Dir(st)])
  }

  lemma StampedIsValid(d: Dst, c: Path, st: DirStat)
    requires ValidDst(d) && IsDir(d.tree, c)
    ensures ValidDst(Stamped(d, c, st))
  {
    var d' := Stamped(d, c, st);
    RestampedIsWellFormed(d.tree, c, st);
    forall p | IsFile(d'.tree, p)
      ensures IsFile(d.tree, p) && d'.tree[p] == d.tree[p]
    {
    }
  }

  lemma EntriesStamp(s: STree, o: Faults, cfg: Config, d0: Dst, d: Dst, done: set<Path>, fin: set<Path>,
                     skip0: set<Path>, skipped: set<Path>, c: Path, st: DirStat)
    requires Entries(s, o, cfg, d0, d, done, fin, skip0, skipped) && IsDir(s, c) && IsDir(d.tree, c) && c in done
    ensures Entries(s, o, cfg, d0, Stamped(d, c, st), done, fin + {c}, skip0, skipped)
  {
    var d' := Stamped(d, c, st);
    StampedIsValid(d, c, st);
    forall q | q in done
      ensures Outcome(s, o, cfg, d0, d', q, skipped)
    {
      assert Outcome(s, o, cfg, d0, d, q, skipped);
    }
    forall q | q != [] && q !in done && !Swallowed(s, q)
      ensures Kept(d0, d', q)
    {
      assert Kept(d0, d, q);
    }
    forall i | i in d0.outside && i in d0.inodes
      ensures SameInode(d0, d', i)
    {
      assert SameInode(d0, d, i);
    }
  }

  lemma DirsStamp(s: STree, o: Faults, cfg: Config, d0: Dst, d: Dst, done: set<Path>, fin: set<Path>, skipped: set<Path>, c: Path)
    requires DirsSoFar(s, o, cfg, d0, d, done, fin, skipped) && IsDir(s, c) && IsDir(d.tree, c) && c in done && c !in fin
    ensures DirsSoFar(s, o, cfg, d0, Stamped(d, c, Restamped(o, c, d.tree[c].dir, s[c].dir)), done, fin + {c}, skipped)
  {
    var d' := Stamped(d, c, Restamped(o, c, d.tree[c].dir, s[c].dir));
    forall x | (x in done || x == []) && IsDir(s, x) && IsDir(d'.tree, x)
      ensures DirSoFar(s, o, cfg, d0, d', x, x in fin + {c}, Unfailed(s, skipped, x))
    {
      assert DirSoFar(s, o, cfg, d0, d, x, x in fin, Unfailed(s, skipped, x));
      forall e
        ensures SameEntry(d0.tree, d'.tree, e) <==> SameEntry(d0.tree, d.tree, e)
      {
      }
      assert Intact(d0.tree, d'.tree, x) <==> Intact(d0.tree, d.tree, x);
    }
  }

  lemma CoreStamp(s: STree, o: Faults, cfg: Config, d0: Dst, d: Dst, done: set<Path>, fin: set<Path>,
                  skip0: set<Path>, skipped: set<Path>, c: Path)
    requires Core(s, o, cfg, d0, d, done, fin, skip0, skipped) && IsDir(s, c) && IsDir(d.tree, c) && c in done && c !in fin
    ensures Core(s, o, cfg, d0, Stamped(d, c, Restamped(o, c, d.tree[c].dir, s[c].dir)), done, fin + {c}, skip0, skipped)
  {
    EntriesStamp(s, o, cfg, d0, d, done, fin, skip0, skipped, c, Restamped(o, c, d.tree[c].dir, s[c].dir));
    DirsStamp(s, o, cfg, d0, d, done, fin, skipped, c);
  }

  /** Noting a failure at an entry already looked at. */
  lemma CoreNote(s: STree, o: Faults, cfg: Config, d0: Dst, d: Dst, done: set<Path>, fin: set<Path>,
                 skip0: set<Path>, skipped: set<Path>, c: Path)
    requires Core(s, o, cfg, d0, d, done, fin, skip0, skipped) && c in s && Reason(s[c], o, d0, c)
    requires c in done || c == []
    ensures Core(s, o, cfg, d0, d, done, fin, skip0, skipped + {c})
  {
    forall q | q in done
      ensures Outcome(s, o, cfg, d0, d, q, skipped + {c})
    {
      assert Outcome(s, o, cfg, d0, d, q, skipped);
    }
    forall x
      ensures Unfailed(s, skipped + {c}, x) ==> Unfailed(s, skipped, x)
    {
    }
  }

  // -------------------------------------------------------------------------
  // The walk
  // -------------------------------------------------------------------------

  /** The pass enters a directory when both sides let it. Seen this way, it
      walks as pass 1 does. */
  ghost function Effective(o: Faults, d0: Dst): Faults {
    o.(noStat := o.noStat + (set p | p in o.noReplace + o.noCreate && DirFails(o, d0, p)),
       noOpen := o.noOpen + o.noEnter)
  }

  /** Every source entry is already at the destination, directories with
      their metadata. */
  ghost predicate AllSettled(s: STree, d: Dst, cfg: Config) {
    forall p :: p in s && p != [] ==> Settled(s[p], d, p, cfg)
  }

  ghost predicate Calm(s: STree, o: Faults, cfg: Config, d0: Dst, d: Dst, changed: set<Path>) {
    AllSettled(s, d0, cfg) && o.noRead == {} && o.noPeek == {} ==> d == d0 && changed == {}
  }

  ghost function Specials(s: STree): set<Path> {
    set p | p in s && s[p].Special?
  }

  lemma NotSwallowed(s: STree, p: Path)
    requires WellFormed(s) && p in s
    ensures !Swallowed(s, p)
  {
    if Swallowed(s, p) {
      var k :| 0 < k < |p| && IsLink(s, p[..k]);
      AncestorsAreDirs(s, p[..k], p);
      assert false;
    }
  }

  lemma FreshChild(rel: Path, names: seq<Name>, i: nat, p: Path)
    requires i < |names| && p == rel + [names[i]] && NoDuplicates(names)
    ensures forall q :: q in Children(rel, names[..i]) ==> !(p <= q)
  {
    forall q | q in Children(rel, names[..i])
      ensures !(p <= q)
    {
      var n :| n in names[..i] && q == rel + [n];
      assert q[|rel|] == n && p[|rel|] == names[i];
    }
  }

  /** One round of the loop, with what it adds to the records. */
  method MirrorNext(s: STree, o: Faults, cfg: Config, d: Dst, rel: Path, name: Name, ctx: Ctx, ghost d0: Dst,
                    ghost done: set<Path>, ghost fin: set<Path>, ghost skip0: set<Path>,
                    subdirs: seq<Name>, changed: set<Path>)
    returns (subdirs': seq<Name>, d': Dst, changed': set<Path>)
    requires WellFormed(s) && ValidDst(d0) && Core(s, o, cfg, d0, d, done, fin, skip0, ctx.skipped)
    requires IsDir(d.tree, rel) && rel !in fin && (rel in done || rel == []) && rel + [name] in s
    requires forall q :: q in done ==> !(rel + [name] <= q)
    requires Calm(s, o, cfg, d0, d, changed) && ctx.excused <= Specials(s)
    modifies ctx`srcRels, ctx`skipped, ctx`failures, ctx`excused
    ensures subdirs' == if CanDescend(s, Effective(o, d0), rel + [name]) then subdirs + [name] else subdirs
    ensures ctx.srcRels == old(ctx.srcRels) + {rel + [name]}
    ensures Core(s, o, cfg, d0, d', done + {rel + [name]}, fin, skip0, ctx.skipped)
    ensures Calm(s, o, cfg, d0, d', changed') && ctx.excused <= Specials(s) && IsDir(d'.tree, rel)
    ensures old(ctx.skipped) <= ctx.skipped
    ensures old(ctx.Counted()) ==> ctx.Counted()
  {
    var p := rel + [name];
    assert Rooted(s, p) && Parent(p) == rel && Leaf(p) == name;
    NotSwallowed(s, p);
    assert p !in done && Kept(d0, d, p);
    SameJudgement(s[p], o, cfg, d0, d, p);
    ghost var skip, before := false, ctx.skipped;
    var descend, did: bool;
    descend, did, d', skip := MirrorEntry(s, o, cfg, d, p, ctx);
    CoreStep(s, o, cfg, d0, d, d', done, fin, skip0, before, p, skip);
    subdirs' := if descend then subdirs + [name] else subdirs;
    changed' := if did then changed + {p} else changed;
  }

  /** _mirror_entries, once the level is listed */
  method MirrorNames(s: STree, o: Faults, cfg: Config, d: Dst, rel: Path, names: seq<Name>, ctx: Ctx, ghost d0: Dst,
                     ghost done: set<Path>, ghost fin: set<Path>, ghost skip0: set<Path>, changed: set<Path>)
    returns (subdirs: seq<Name>, d': Dst, changed': set<Path>)
    requires WellFormed(s) && ValidDst(d0) && Core(s, o, cfg, d0, d, done, fin, skip0, ctx.skipped)
    requires IsDir(d.tree, rel) && rel !in fin && (rel in done || rel == [])
    requires NoDuplicates(names) && forall n :: n in names <==> n in ChildNames(s, rel)
    requires forall k, q :: k in Kids(s, rel) && q in done ==> !(k <= q)
    requires Calm(s, o, cfg, d0, d, changed) && ctx.excused <= Specials(s)
    modifies ctx`srcRels, ctx`skipped, ctx`failures, ctx`excused
    ensures NoDuplicates(subdirs)
    ensures forall n :: n in subdirs <==> n in names && CanDescend(s, Effective(o, d0), rel + [n])
    ensures ctx.srcRels == old(ctx.srcRels) + Kids(s, rel)
    ensures Core(s, o, cfg, d0, d', done + Kids(s, rel), fin, skip0, ctx.skipped)
    ensures Calm(s, o, cfg, d0, d', changed') && ctx.excused <= Specials(s) && old(ctx.skipped) <= ctx.skipped
    ensures old(ctx.Counted()) ==> ctx.Counted()
  {
    hide Core, Calm, Chosen, CanDescend, Children, Kids, Specials;
    subdirs, d', changed' := [], d, changed;
    KidsAreListed(s, rel, names);
    ChosenNone(s, Effective(o, d0), rel);
    NoChildren(rel);
    var i := 0;
    assert done + Children(rel, names[..0]) == done;
    while i < |names|
      invariant 0 <= i <= |names|
      invariant subdirs == Chosen(s, Effective(o, d0), rel, names[..i])
      invariant ctx.srcRels == old(ctx.srcRels) + Children(rel, names[..i])
      invariant Core(s, o, cfg, d0, d', done + Children(rel, names[..i]), fin, skip0, ctx.skipped)
      invariant Calm(s, o, cfg, d0, d', changed') && ctx.excused <= Specials(s) && IsDir(d'.tree, rel)
      invariant old(ctx.skipped) <= ctx.skipped && (old(ctx.Counted()) ==> ctx.Counted())
    {
      OneMoreChild(rel, names, i);
      NextIsFresh(s, rel, names, i, done);
      subdirs, d', changed' := MirrorNext(s, o, cfg, d', rel, names[i], ctx, d0, done + Children(rel, names[..i]),
                                          fin, skip0, subdirs, changed');
      ChosenNext(s, Effective(o, d0), rel, names, i);
      i := i + 1;
    }
    assert names[..i] == names;
    ChosenOnes(s, Effective(o, d0), rel, names);
  }

  /** The names a level's walk goes on with. */
  ghost function Chosen(s: STree, e: Faults, rel: Path, names: seq<Name>): seq<Name> {
    if names == [] then []
    else
      var n := names[|names| - 1];
      Chosen(s, e, rel, names[..|names| - 1]) + if CanDescend(s, e, rel + [n]) then [n] else []
  }

  lemma ChosenNone(s: STree, e: Faults, rel: Path)
    ensures Chosen(s, e, rel, []) == []
  {
  }

  lemma NoChildren(rel: Path)
    ensures Children(rel, []) == {}
  {
  }

  lemma ChosenNext(s: STree, e: Faults, rel: Path, names: seq<Name>, i: nat)
    requires i < |names|
    ensures Chosen(s, e, rel, names[..i + 1]) ==
      Chosen(s, e, rel, names[..i]) + if CanDescend(s, e, rel + [names[i]]) then [names[i]] else []
  {
    assert names[..i + 1][..i] == names[..i];
  }

  lemma {:induction false} ChosenOnes(s: STree, e: Faults, rel: Path, names: seq<Name>)
    ensures forall n :: n in Chosen(s, e, rel, names) <==> n in names && CanDescend(s, e, rel + [n])
    ensures NoDuplicates(names) ==> NoDuplicates(Chosen(s, e, rel, names))
  {
    if names != [] {
      var init := names[..|names| - 1];
      ChosenOnes(s, e, rel, init);
      assert names == init + [names[|names| - 1]];
      assert NoDuplicates(names) ==> names[|names| - 1] !in init;
    }
  }

  lemma NextIsFresh(s: STree, rel: Path, names: seq<Name>, i: nat, done: set<Path>)
    requires i < |names| && NoDuplicates(names) && Children(rel, names) == Kids(s, rel)
    requires forall k, q :: k in Kids(s, rel) && q in done ==> !(k <= q)
    ensures var p := rel + [names[i]];
      && p in s && (forall q :: q in done + Children(rel, names[..i]) ==> !(p <= q))
      && done + Children(rel, names[..i]) + {p} == done + Children(rel, names[..i + 1])
  {
    var p := rel + [names[i]];
    assert p in Children(rel, names);
    FreshChild(rel, names, i, p);
    OneMoreChild(rel, names, i);
  }

  /** _mirror_entries */
  method MirrorEntries(s: STree, o: Faults, cfg: Config, d: Dst, rel: Path, ctx: Ctx, ghost d0: Dst,
                       ghost done: set<Path>, ghost fin: set<Path>, ghost skip0: set<Path>, changed: set<Path>)
    returns (subdirs: seq<Name>, d': Dst, changed': set<Path>)
    requires WellFormed(s) && ValidDst(d0) && Core(s, o, cfg, d0, d, done, fin, skip0, ctx.skipped)
    requires IsDir(s, rel) && IsDir(d.tree, rel) && rel !in fin && (rel in done || rel == [])
    requires forall k, q :: k in Kids(s, rel) && q in done ==> !(k <= q)
    requires Calm(s, o, cfg, d0, d, changed) && ctx.excused <= Specials(s)
    modifies ctx`srcRels, ctx`skipped, ctx`failures, ctx`excused
    ensures old(ctx.skipped) <= ctx.skipped && (rel in o.noList ==> rel in ctx.skipped)
    ensures NoDuplicates(subdirs)
    ensures forall n :: n in subdirs <==> rel !in o.noList && CanDescend(s, Effective(o, d0), rel + [n])
    ensures ctx.srcRels == old(ctx.srcRels) + if rel in o.noList then {} else Kids(s, rel)
    ensures Core(s, o, cfg, d0, d', done + (if rel in o.noList then {} else Kids(s, rel)), fin, skip0, ctx.skipped)
    ensures Calm(s, o, cfg, d0, d', changed') && ctx.excused <= Specials(s)
    ensures old(ctx.Counted()) ==> ctx.Counted()
  {
    if rel in o.noList {
      subdirs, d', changed' := [], d, changed;
      ctx.NoteFailure(rel);
      CoreNote(s, o, cfg, d0, d, done, fin, skip0, old(ctx.skipped), rel);
      assert done + {} == done;
      return;
    }
    var listed := ListReversed(s, rel);
    subdirs, d', changed' := MirrorNames(s, o, cfg, d, rel, Reversed(listed), ctx, d0, done, fin, skip0, changed);
    forall n | CanDescend(s, Effective(o, d0), rel + [n])
      ensures n in listed
    {
      ChildNamesExact(s, rel, n);
    }
  }

  ghost function Paths<X>(ls: seq<Level<X>>): set<Path> {
    set i | 0 <= i < |ls| :: ls[i].path
  }

  /** The directories whose metadata has been applied: those entered and left. */
  ghost predicate Left(s: STree, e: Faults, ls: seq<Level<()>>, fin: set<Path>) {
    forall p :: p in fin <==>
      p != [] && Visited(s, e.noStat + e.noOpen, e.noList, p) && p !in Todo(s, ls) && p !in Paths(ls)
  }

  ghost predicate MirrorInv(s: STree, e: Faults, ls: seq<Level<()>>, done: set<Path>, noted: set<Path>, r: bool, fin: set<Path>) {
    CollectInv(s, e, ls, done, noted, r) && Left(s, e, ls, fin) && (ls != [] ==> ls[0].path == [])
  }

  lemma {:induction false} ShorterBelow<D, F, X>(s: Tree<D, F>, ls: seq<Level<X>>)
    requires Chain(s, ls) && ls != []
    ensures forall i :: 0 <= i < |ls| - 1 ==> |ls[i].path| < |Top(ls).path|
    ensures Top(ls).path !in Paths(Below(ls))
  {
    if |ls| > 1 {
      ShorterBelow(s, Below(ls));
      forall i | 0 <= i < |ls| - 1
        ensures |ls[i].path| < |Top(ls).path|
      {
        assert Below(ls)[i] == ls[i];
        assert i < |ls| - 2 || ls[i] == Top(Below(ls));
      }
    }
    forall i | 0 <= i < |Below(ls)|
      ensures Below(ls)[i].path != Top(ls).path
    {
      assert Below(ls)[i] == ls[i];
    }
  }

  lemma PathsOfWithTop<X>(ls: seq<Level<X>>, l: Level<X>)
    requires ls != [] && l.path == Top(ls).path
    ensures Paths(WithTop(ls, l)) == Paths(ls) && Paths(ls) == Paths(Below(ls)) + {Top(ls).path}
  {
    var ls' := WithTop(ls, l);
    forall i | 0 <= i < |ls|
      ensures ls'[i].path == ls[i].path && ls[i].path in Paths(ls) && ls'[i].path in Paths(ls')
      ensures i < |ls| - 1 ==> Below(ls)[i] == ls[i] && ls[i].path in Paths(Below(ls))
    {
    }
    assert ls[|ls| - 1].path in Paths(ls);
  }

  lemma PathsOfPushed<X>(ls: seq<Level<X>>, l: Level<X>)
    ensures Paths(ls + [l]) == Paths(ls) + {l.path}
  {
    var ls' := ls + [l];
    assert Below(ls') == ls && Top(ls') == l;
    PathsOfWithTop(ls', l);
  }

  lemma MirrorList(s: STree, e: Faults, ls: seq<Level<()>>, done: set<Path>, noted: set<Path>, r: bool, fin: set<Path>,
                   names: seq<Name>) returns (noted': set<Path>, r': bool)
    requires WellFormed(s) && MirrorInv(s, e, ls, done, noted, r, fin) && ls != [] && Top(ls).pending.None?
    requires NoDuplicates(names)
    requires forall n :: n in names <==> Top(ls).path !in e.noList && CanDescend(s, e, Top(ls).path + [n])
    ensures noted' == noted + (if Top(ls).path !in e.noList then Kids(s, Top(ls).path) * e.noStat
                               else if Top(ls).path != [] then {Top(ls).path} else {})
    ensures r' == (r || (Top(ls).path == [] && Top(ls).path in e.noList))
    ensures var d := Top(ls).path;
      var ls' := WithTop(ls, Level(d, Some(names), ()));
      && MirrorInv(s, e, ls', done + (if d in e.noList then {} else Kids(s, d)), noted', r', fin)
      && Closer(s, ls, ls')
  {
    var d := Top(ls).path;
    var ls' := WithTop(ls, Level(d, Some(names), ()));
    CollectList(s, e, ls, done, noted, r, names);
    noted' := noted + (if d !in e.noList then Kids(s, d) * e.noStat else if d != [] then {d} else {});
    r' := r || (d == [] && d in e.noList);
    PathsOfWithTop(ls, Top(ls'));
    PassedByIsNotVisited(s, e, ls, names);
  }

  lemma PassedByIsNotVisited(s: STree, e: Faults, ls: seq<Level<()>>, names: seq<Name>)
    requires Chain(s, ls) && ls != [] && Top(ls).pending.None?
    requires NoDuplicates(names)
    requires forall n :: n in names <==> Top(ls).path !in e.noList && CanDescend(s, e, Top(ls).path + [n])
    ensures var ls' := WithTop(ls, Level(Top(ls).path, Some(names), ()));
      && Todo(s, ls') <= Todo(s, ls)
      && forall p :: p in Todo(s, ls) && p !in Todo(s, ls') && p != Top(ls).path ==>
           !Visited(s, e.noStat + e.noOpen, e.noList, p)
  {
    var d := Top(ls).path;
    var ls' := WithTop(ls, Level(d, Some(names), ()));
    ListedSome(s, ls, names, ());
    forall p | p in Todo(s, ls) && p !in Todo(s, ls') && p != d
      ensures !Visited(s, e.noStat + e.noOpen, e.noList, p)
    {
      var c := d + [p[|d|]];
      assert c == p[..|d| + 1];
      if p != c {
        NothingBeyondShut(s, e.noStat + e.noOpen, e.noList, c, p);
      }
    }
  }

  lemma MirrorShut(s: STree, e: Faults, ls: seq<Level<()>>, done: set<Path>, noted: set<Path>, r: bool, fin: set<Path>)
    requires WellFormed(s) && MirrorInv(s, e, ls, done, noted, r, fin) && HasNext(ls) && Next(Top(ls)) in e.noOpen
    ensures var ls' := TakeNext(ls, ());
      MirrorInv(s, e, ls', done, noted + {Next(Top(ls))}, r, fin) && Closer(s, ls, ls')
  {
    var c, ls' := Next(Top(ls)), TakeNext(ls, ());
    CollectShut(s, e, ls, done, noted, r);
    Taken(s, ls, ());
    PathsOfWithTop(ls, Top(ls'));
    forall p | p in From(s, c)
      ensures !Visited(s, e.noStat + e.noOpen, e.noList, p)
    {
      if p != c {
        NothingBeyondShut(s, e.noStat + e.noOpen, e.noList, c, p);
      }
    }
  }

  lemma MirrorEnter(s: STree, e: Faults, ls: seq<Level<()>>, done: set<Path>, noted: set<Path>, r: bool, fin: set<Path>)
    requires WellFormed(s) && MirrorInv(s, e, ls, done, noted, r, fin) && HasNext(ls) && Next(Top(ls)) !in e.noOpen
    ensures var ls' := TakeNext(ls, ()) + [Level(Next(Top(ls)), None, ())];
      MirrorInv(s, e, ls', done, noted, r, fin) && Closer(s, ls, ls')
  {
    var c := Next(Top(ls));
    CollectEnter(s, e, ls, done, noted, r);
    Entered(s, ls, (), ());
    PathsOfWithTop(ls, Top(TakeNext(ls, ())));
    PathsOfPushed(TakeNext(ls, ()), Level(c, None, ()));
    assert c in Todo(s, ls);
  }

  lemma MirrorLeave(s: STree, e: Faults, ls: seq<Level<()>>, done: set<Path>, noted: set<Path>, r: bool, fin: set<Path>)
    requires WellFormed(s) && MirrorInv(s, e, ls, done, noted, r, fin) && ls != [] && Top(ls).pending == Some([])
    ensures MirrorInv(s, e, Below(ls), done, noted, r, fin + if Top(ls).path != [] then {Top(ls).path} else {})
    ensures Closer(s, ls, Below(ls))
  {
    CollectLeave(s, e, ls, done, noted, r);
    ShorterBelow(s, ls);
    PathsOfWithTop(ls, Top(ls));
    NothingAheadUnderTop(s, ls, Top(ls).path);
  }

  /** What the top level may count on. */
  lemma TopIsReady(s: STree, o: Faults, cfg: Config, d0: Dst, d: Dst, ls: seq<Level<()>>, done: set<Path>,
                   noted: set<Path>, r: bool, fin: set<Path>, skip0: set<Path>, skipped: set<Path>)
    requires WellFormed(s) && MirrorInv(s, Effective(o, d0), ls, done, noted, r, fin) && ls != []
    requires Core(s, o, cfg, d0, d, done, fin, skip0, skipped)
    ensures var rel := Top(ls).path;
      && IsDir(s, rel) && IsDir(d.tree, rel) && rel !in fin && (rel in done || rel == [])
      && (Top(ls).pending.None? ==> forall k, q :: k in Kids(s, rel) && q in done ==> !(k <= q))
  {
    var rel, e := Top(ls).path, Effective(o, d0);
    PathsOfWithTop(ls, Top(ls));
    assert Visited(s, e.noStat + e.noOpen, e.noList, rel);
    if rel != [] {
      assert Recorded(s, e.noStat + e.noOpen, e.noList, rel);
      ParentIsPast(s, ls);
      assert rel in done;
      assert Outcome(s, o, cfg, d0, d, rel, skipped);
    }
    if Top(ls).pending.None? {
      TopIsAhead(s, ls);
      forall k, q | k in Kids(s, rel) && q in done
        ensures !(k <= q)
      {
        BeneathChild(k, q);
      }
    }
  }

  lemma BeneathChild(k: Path, q: Path)
    requires k != []
    ensures k <= q ==> q != [] && (Parent(q) == Parent(k) || Parent(k) < Parent(q))
  {
    if k <= q {
      assert Parent(k) <= Parent(q);
      assert |q| == |k| ==> Parent(q) == Parent(k);
    }
  }

  lemma ParentIsPast(s: STree, ls: seq<Level<()>>)
    requires Chain(s, ls) && ls != [] && ls[0].path == [] && Top(ls).path != []
    ensures Parent(Top(ls).path) !in Todo(s, ls)
  {
    var below := Below(ls);
    assert |ls| > 1;
    NothingAheadUnderTop(s, below, Top(below).path);
    assert Ahead(s, below) == Ahead(s, Below(below)) + AheadOf(s, Top(below));
    assert Ahead(s, ls) == Ahead(s, below) + AheadOf(s, Top(ls));
  }

  lemma StartMirror(s: STree, o: Faults, cfg: Config, d0: Dst, skip0: set<Path>)
    requires WellFormed(s) && ValidDst(d0)
    ensures MirrorInv(s, Effective(o, d0), [Level([], None, ())], {}, {}, false, {})
    ensures Core(s, o, cfg, d0, d0, {}, {}, skip0, skip0)
  {
    var ls: seq<Level<()>> := [Level([], None, ())];
    CollectStart(s, Effective(o, d0));
    forall p | p in s
      ensures p in Todo(s, ls)
    {
      Start(s, [], ());
      assert p == [] || [] < p;
    }
  }

  /** _mirror_at: what the pass has seen, written and left. */
  ghost predicate Mirrored(s: STree, o: Faults, cfg: Config, d0: Dst, d: Dst, done: set<Path>, skip0: set<Path>, skipped: set<Path>) {
    var e := Effective(o, d0);
    && (forall p :: p in done <==> Recorded(s, e.noStat + e.noOpen, e.noList, p))
    && Core(s, o, cfg, d0, d, done, EnteredDirs(s, e), skip0, skipped)
    && (forall p :: Skipped1(s, e, p) ==> p in skipped + e.noStat) && ([] in o.noList ==> [] in skipped)
  }

  ghost function EnteredDirs(s: STree, e: Faults): set<Path> {
    set p | p in s && p != [] && Visited(s, e.noStat + e.noOpen, e.noList, p)
  }

  lemma CalmStamp(s: STree, o: Faults, cfg: Config, d0: Dst, d: Dst, changed: set<Path>, c: Path)
    requires Calm(s, o, cfg, d0, d, changed) && IsDir(s, c) && c != [] && IsDir(d.tree, c)
    ensures Calm(s, o, cfg, d0, Stamped(d, c, Restamped(o, c, d.tree[c].dir, s[c].dir)), changed)
  {
    if AllSettled(s, d0, cfg) && o.noRead == {} && o.noPeek == {} {
      assert Settled(s[c], d0, c, cfg);
      assert Stamped(d, c, Restamped(o, c, d.tree[c].dir, s[c].dir)).tree == d.tree;
    }
  }

  lemma NextIsDone(s: STree, e: Faults, ls: seq<Level<()>>, done: set<Path>, noted: set<Path>, r: bool)
    requires CollectInv(s, e, ls, done, noted, r) && HasNext(ls)
    ensures Next(Top(ls)) in done && Next(Top(ls)) in s
  {
    var c, rel := Next(Top(ls)), Top(ls).path;
    NothingAheadUnderTop(s, ls, rel);
    assert Parent(c) == rel && c in s;
    assert rel !in Todo(s, ls);
    assert Recorded(s, e.noStat + e.noOpen, e.noList, c);
  }

  /** What the walk has behind it. */
  datatype Books = Books(done: set<Path>, noted: set<Path>, unread: bool, fin: set<Path>)

  ghost predicate Running(s: STree, o: Faults, cfg: Config, d0: Dst, d: Dst, ls: seq<Level<()>>, b: Books,
                          skip0: set<Path>, skipped: set<Path>, changed: set<Path>) {
    && MirrorInv(s, Effective(o, d0), ls, b.done, b.noted, b.unread, b.fin)
    && Core(s, o, cfg, d0, d, b.done, b.fin, skip0, skipped)
    && Calm(s, o, cfg, d0, d, changed)
    && b.noted <= skipped + Effective(o, d0).noStat && (b.unread ==> [] in skipped)
  }

  lemma StillNoted(s: STree, e: Faults, rel: Path, noted: set<Path>, noted': set<Path>, skipped: set<Path>, skipped': set<Path>)
    requires noted <= skipped + e.noStat && skipped <= skipped' && (rel in e.noList ==> rel in skipped')
    requires noted' == noted + (if rel !in e.noList then Kids(s, rel) * e.noStat else if rel != [] then {rel} else {})
    ensures noted' <= skipped' + e.noStat
  {
  }

  method OpenLevel(s: STree, o: Faults, cfg: Config, d: Dst, ctx: Ctx, ls: seq<Level<()>>, changed: set<Path>,
                   ghost d0: Dst, ghost b: Books, ghost skip0: set<Path>)
    returns (d': Dst, ls': seq<Level<()>>, changed': set<Path>, ghost b': Books, ghost more: set<Path>)
    requires WellFormed(s) && ValidDst(d0) && ctx.excused <= Specials(s) && ls != [] && Top(ls).pending.None?
    requires Running(s, o, cfg, d0, d, ls, b, skip0, ctx.skipped, changed)
    modifies ctx`srcRels, ctx`skipped, ctx`failures, ctx`excused
    ensures Running(s, o, cfg, d0, d', ls', b', skip0, ctx.skipped, changed') && Closer(s, ls, ls')
    ensures ctx.srcRels == old(ctx.srcRels) + more && b'.done == b.done + more
    ensures ctx.excused <= Specials(s) && (old(ctx.Counted()) ==> ctx.Counted())
  {
    var rel := Top(ls).path;
    TopIsReady(s, o, cfg, d0, d, ls, b.done, b.noted, b.unread, b.fin, skip0, ctx.skipped);
    var subdirs;
    subdirs, d', changed' := MirrorEntries(s, o, cfg, d, rel, ctx, d0, b.done, b.fin, skip0, changed);
    ReversedHasNoDuplicates(subdirs);
    ghost var noted, unread := MirrorList(s, Effective(o, d0), ls, b.done, b.noted, b.unread, b.fin, Reversed(subdirs));
    more := if rel in o.noList then {} else Kids(s, rel);
    b' := Books(b.done + more, noted, unread, b.fin);
    StillNoted(s, Effective(o, d0), rel, b.noted, noted, old(ctx.skipped), ctx.skipped);
    ls' := WithTop(ls, Level(rel, Some(Reversed(subdirs)), ()));
  }

  method LeaveLevel(s: STree, o: Faults, cfg: Config, d: Dst, ls: seq<Level<()>>, ghost changed: set<Path>,
                    ghost d0: Dst, ghost b: Books, ghost skip0: set<Path>, ghost skipped: set<Path>)
    returns (d': Dst, ghost b': Books)
    requires WellFormed(s) && ls != [] && Top(ls).pending == Some([])
    requires Running(s, o, cfg, d0, d, ls, b, skip0, skipped, changed)
    ensures Running(s, o, cfg, d0, d', Below(ls), b', skip0, skipped, changed) && Closer(s, ls, Below(ls))
    ensures b'.done == b.done
  {
    hide Core, Calm, MirrorInv, Closer, Chain, WellFormed;
    var rel := Top(ls).path;
    d', b' := d, b;
    TopIsReady(s, o, cfg, d0, d, ls, b.done, b.noted, b.unread, b.fin, skip0, skipped);
    MirrorLeave(s, Effective(o, d0), ls, b.done, b.noted, b.unread, b.fin);
    if rel != [] {
      CoreStamp(s, o, cfg, d0, d, b.done, b.fin, skip0, skipped, rel);
      CalmStamp(s, o, cfg, d0, d, changed, rel);
      d' := Stamped(d, rel, Restamped(o, rel, d.tree[rel].dir, s[rel].dir));
      b' := b.(fin := b.fin + {rel});
    } else {
      assert b.fin + {} == b.fin;
    }
  }

  method EnterNext(s: STree, o: Faults, cfg: Config, ghost d: Dst, ctx: Ctx, ls: seq<Level<()>>, ghost changed: set<Path>,
                   ghost d0: Dst, ghost b: Books, ghost skip0: set<Path>)
    returns (ls': seq<Level<()>>, ghost b': Books)
    requires WellFormed(s) && HasNext(ls)
    requires Running(s, o, cfg, d0, d, ls, b, skip0, ctx.skipped, changed)
    modifies ctx`skipped, ctx`failures
    ensures Running(s, o, cfg, d0, d, ls', b', skip0, ctx.skipped, changed) && Closer(s, ls, ls')
    ensures b'.done == b.done && (old(ctx.Counted()) ==> ctx.Counted())
  {
    var child := Next(Top(ls));
    b' := b;
    if child in o.noOpen || child in o.noEnter {
      MirrorShut(s, Effective(o, d0), ls, b.done, b.noted, b.unread, b.fin);
      NextIsDone(s, Effective(o, d0), ls, b.done, b.noted, b.unread);
      CoreNote(s, o, cfg, d0, d, b.done, b.fin, skip0, ctx.skipped, child);
      b' := b.(noted := b.noted + {child});
      ctx.NoteFailure(child);
      ls' := TakeNext(ls, ());
    } else {
      MirrorEnter(s, Effective(o, d0), ls, b.done, b.noted, b.unread, b.fin);
      ls' := TakeNext(ls, ()) + [Level(child, None, ())];
    }
  }

  method MirrorAt(s: STree, o: Faults, cfg: Config, d0: Dst, ctx: Ctx) returns (d: Dst, changed: set<Path>, ghost done: set<Path>)
    requires WellFormed(s) && ValidDst(d0) && ctx.excused == {}
    modifies ctx`srcRels, ctx`skipped, ctx`failures, ctx`excused
    ensures ctx.srcRels == old(ctx.srcRels) + done
    ensures Mirrored(s, o, cfg, d0, d, done, old(ctx.skipped), ctx.skipped)
    ensures Calm(s, o, cfg, d0, d, changed)
    ensures ctx.excused <= Specials(s) && (old(ctx.Counted()) ==> ctx.Counted())
  {
    d, changed := d0, {};
    ghost var b := Books({}, {}, false, {});
    var ls: seq<Level<()>> := [Level([], None, ())];
    StartMirror(s, o, cfg, d0, ctx.skipped);
    while ls != []
      invariant Running(s, o, cfg, d0, d, ls, b, old(ctx.skipped), ctx.skipped, changed)
      invariant ctx.srcRels == old(ctx.srcRels) + b.done && ctx.excused <= Specials(s)
      invariant old(ctx.Counted()) ==> ctx.Counted()
      decreases Ahead(s, ls), Steps(ls)
    {
      if Top(ls).pending.None? {
        ghost var more;
        d, ls, changed, b, more := OpenLevel(s, o, cfg, d, ctx, ls, changed, d0, b, old(ctx.skipped));
      } else if Top(ls).pending.value == [] {
        d, b := LeaveLevel(s, o, cfg, d, ls, changed, d0, b, old(ctx.skipped), ctx.skipped);
        ls := Below(ls);
      } else {
        ls, b := EnterNext(s, o, cfg, d, ctx, ls, changed, d0, b, old(ctx.skipped));
      }
    }
    done := b.done;
    assert b.fin == EnteredDirs(s, Effective(o, d0));
  }
}
