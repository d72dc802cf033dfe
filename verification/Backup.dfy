/** backup: a pass that makes the rootfs readable to its owner, then a walk
    that turns it into a stream of archive members. */
module Backup {
  import opened Attributes
  import opened Names
  import opened Trees
  import opened Resolver
  import opened Walks

  datatype Content = Content(data: Bytes, mode: Mode)

  /** A rootfs: files are inodes, so that two names can share one; outside
      are the inodes that also have a name elsewhere. One such name is that
      of the manifest beside the rootfs, if there is one. */
  datatype Rootfs = Rootfs(tree: Tree<Mode, nat>, inodes: map<nat, Content>, outside: set<nat>, manifest: Option<nat>)

  ghost predicate ValidRootfs(d: Rootfs) {
    && WellFormed(d.tree) && (forall p :: IsFile(d.tree, p) ==> d.tree[p].file in d.inodes)
    && (forall p :: IsLink(d.tree, p) ==> d.tree[p].target != "")
    && (d.manifest.Some? ==> d.manifest.value in d.inodes && d.manifest.value in d.outside)
  }

  // -------------------------------------------------------------------------
  // _relax_permissions
  // -------------------------------------------------------------------------

  const OWNER_READ: Mode := 0x100
  const OWNER_SEARCH: Mode := 0x40
  const ANY_EXEC: Mode := 0x49

  function RelaxedDir(m: Mode): (r: Mode)
    ensures Readable(r) && Searchable(r)
  {
    m | OWNER_READ | OWNER_SEARCH
  }

  function RelaxedFile(m: Mode): (r: Mode)
    ensures Readable(r)
  {
    m | OWNER_READ | (if m & ANY_EXEC != 0 then OWNER_SEARCH else 0)
  }

  predicate Readable(m: Mode) {
    m & OWNER_READ != 0
  }

  predicate Searchable(m: Mode) {
    m & OWNER_SEARCH != 0
  }

  /** The pass over the entries in some set: every directory, and every file
      that has no other name. */
  ghost function RelaxedOn(d: Rootfs, done: set<Path>): Rootfs {
    Rootfs(map p | p in d.tree :: if p in done && d.tree[p].Dir? then Dir(RelaxedDir(d.tree[p].dir)) else d.tree[p],
           map i | i in d.inodes :: if (exists p :: p in done && Sole(d, p, i)) then d.inodes[i].(mode := RelaxedFile(d.inodes[i].mode)) else d.inodes[i],
           d.outside, d.manifest)
  }

  ghost predicate Sole(d: Rootfs, p: Path, i: nat) {
    p in d.tree && d.tree[p] == File(i) && OnlyName(d.tree, d.outside, p)
  }

  /** One entry: the directory or file is made readable, in place. */
  method RelaxPermissions(cur: Rootfs, p: Path, ghost d: Rootfs, ghost done: set<Path>) returns (next: Rootfs)
    requires ValidRootfs(d) && p in d.tree && cur == RelaxedOn(d, done) && p !in done
    ensures next == RelaxedOn(d, done + {p})
  {
    next := cur;
    match cur.tree[p] {
      case Dir(m) =>
        next := cur.(tree := cur.tree[p := Dir(RelaxedDir(m))]);
      case File(i) =>
        assert d.tree[p] == File(i);
        OtherNames(d, done, p);
        if OnlyName(cur.tree, cur.outside, p) {
          var c := cur.inodes[i];
          next := cur.(inodes := cur.inodes[i := c.(mode := RelaxedFile(c.mode))]);
        }
      case _ =>
    }
    RelaxedTree(d, done, p);
    RelaxedInodes(d, done, p);
  }

  lemma RelaxedTree(d: Rootfs, done: set<Path>, p: Path)
    requires p in d.tree && p !in done
    ensures RelaxedOn(d, done + {p}).tree ==
      (if d.tree[p].Dir? then RelaxedOn(d, done).tree[p := Dir(RelaxedDir(d.tree[p].dir))] else RelaxedOn(d, done).tree)
  {
  }

  lemma RelaxedInodes(d: Rootfs, done: set<Path>, p: Path)
    requires ValidRootfs(d) && p in d.tree && p !in done
    ensures var was := RelaxedOn(d, done).inodes;
      RelaxedOn(d, done + {p}).inodes ==
      (if d.tree[p].File? && OnlyName(d.tree, d.outside, p)
       then was[d.tree[p].file := d.inodes[d.tree[p].file].(mode := RelaxedFile(d.inodes[d.tree[p].file].mode))]
       else was)
    ensures d.tree[p].File? && OnlyName(d.tree, d.outside, p) ==> RelaxedOn(d, done).inodes[d.tree[p].file] == d.inodes[d.tree[p].file]
  {
    RelaxedOneMore(d, done, p);
    forall i | i in d.inodes
      ensures Sole(d, p, i) <==> d.tree[p].File? && OnlyName(d.tree, d.outside, p) && d.tree[p].file == i
    {
    }
  }

  lemma OtherNames(d: Rootfs, done: set<Path>, p: Path)
    requires ValidRootfs(d) && IsFile(d.tree, p)
    ensures IsFile(RelaxedOn(d, done).tree, p) && (OnlyName(RelaxedOn(d, done).tree, d.outside, p) <==> OnlyName(d.tree, d.outside, p))
  {
    var r := RelaxedOn(d, done);
    forall q | q in d.tree
      ensures r.tree[q] == r.tree[p] <==> d.tree[q] == d.tree[p]
    {
    }
  }

  lemma RelaxedOneMore(d: Rootfs, done: set<Path>, p: Path)
    requires ValidRootfs(d) && p in d.tree && p !in done
    ensures forall i :: i in d.inodes ==>
      ((exists q :: q in done + {p} && Sole(d, q, i)) <==> (exists q :: q in done && Sole(d, q, i)) || Sole(d, p, i))
    ensures forall i :: i in d.inodes && Sole(d, p, i) ==> !exists q :: q in done && Sole(d, q, i)
  {
    forall i | i in d.inodes && Sole(d, p, i)
      ensures p in done + {p}
    {
    }
    forall i | i in d.inodes
      ensures (exists q :: q in done + {p} && Sole(d, q, i)) <==> (exists q :: q in done && Sole(d, q, i)) || Sole(d, p, i)
    {
      if exists q :: q in done && Sole(d, q, i) {
        var q :| q in done && Sole(d, q, i);
        assert q in done + {p};
      }
    }
  }

  // -------------------------------------------------------------------------
  // What a walk gets to see
  // -------------------------------------------------------------------------

  /** The owner can open the directory, and look at what is in it. */
  predicate Open(m: Mode) {
    Readable(m) && Searchable(m)
  }

  predicate Shut(d: Rootfs, p: Path) {
    IsDir(d.tree, p) && !Open(d.tree[p].dir)
  }

  /** Beneath a directory of some set. */
  predicate Beneath(shut: set<Path>, p: Path) {
    exists k :: 0 <= k < |p| && p[..k] in shut
  }

  /** The rootfs without what lies beneath those directories. What is out of
      view still counts among a file's names. */
  ghost function InView(d: Rootfs, shut: set<Path>): Rootfs {
    Rootfs(map p | p in d.tree && !Beneath(shut, p) :: d.tree[p], d.inodes,
           d.outside + (set p | p in d.tree && d.tree[p].File? && Beneath(shut, p) :: d.tree[p].file), d.manifest)
  }

  /** Directories nobody can open: the permission pass could not relax them. */
  ghost function Refused(d: Rootfs, refused: set<Path>): set<Path> {
    set p | p in d.tree && p in refused && Shut(d, p)
  }

  ghost function Closed(d: Rootfs): set<Path> {
    set p | p in d.tree && Shut(d, p)
  }

  lemma BeneathLonger(shut: set<Path>, p: Path, n: Name)
    ensures Beneath(shut, p + [n]) <==> Beneath(shut, p) || p in shut
  {
    var c := p + [n];
    assert c[..|p|] == p && forall k :: 0 <= k < |p| ==> c[..k] == p[..k];
    if Beneath(shut, c) {
      var k :| 0 <= k < |c| && c[..k] in shut;
      assert k < |p| ==> p[..k] in shut;
    }
    if Beneath(shut, p) {
      var k :| 0 <= k < |p| && p[..k] in shut;
      assert c[..k] in shut;
    }
  }

  lemma InViewIsValid(d: Rootfs, shut: set<Path>)
    requires ValidRootfs(d)
    ensures ValidRootfs(InView(d, shut))
  {
    var t := InView(d, shut).tree;
    forall p | p in t
      ensures Rooted(t, p)
    {
      assert Rooted(d.tree, p);
      if p != [] {
        assert p == Parent(p) + [Leaf(p)];
        BeneathLonger(shut, Parent(p), Leaf(p));
      }
    }
    assert forall p :: IsFile(t, p) ==> IsFile(d.tree, p);
    assert forall p :: IsLink(t, p) ==> IsLink(d.tree, p);
  }

  /** In view, a directory has all its entries or none. */
  lemma EntriesInView(d: Rootfs, shut: set<Path>, p: Path)
    requires p in InView(d, shut).tree
    ensures ChildNames(InView(d, shut).tree, p) == if p in shut then {} else ChildNames(d.tree, p)
  {
    forall n
      ensures n in ChildNames(InView(d, shut).tree, p) <==> p !in shut && n in ChildNames(d.tree, p)
    {
      ChildNamesExact(InView(d, shut).tree, p, n);
      ChildNamesExact(d.tree, p, n);
      BeneathLonger(shut, p, n);
    }
  }

  lemma HiddenNames(d: Rootfs, shut: set<Path>, q: Path)
    requires IsFile(d.tree, q)
    ensures Beneath(shut, q) ==> d.tree[q].file in InView(d, shut).outside
  {
  }

  lemma NamesInView(d: Rootfs, shut: set<Path>, p: Path)
    requires IsFile(InView(d, shut).tree, p)
    ensures OnlyName(InView(d, shut).tree, InView(d, shut).outside, p) <==> OnlyName(d.tree, d.outside, p)
  {
    var v := InView(d, shut);
    if OnlyName(v.tree, v.outside, p) {
      forall q | q in d.tree && d.tree[q] == d.tree[p]
        ensures q == p
      {
        HiddenNames(d, shut, q);
        assert q in v.tree && v.tree[q] == v.tree[p];
      }
    }
  }

  // -------------------------------------------------------------------------
  // _walk_tree, with the permission pass as its visitor
  // -------------------------------------------------------------------------

  /** Everything the walk has got past; its directories have been relaxed. */
  ghost function Behind(t: Tree<Mode, nat>, ls: seq<Level<()>>): set<Path> {
    t.Keys - Ahead(t, ls)
  }

  ghost function Reached(d: Rootfs, refused: set<Path>): Tree<Mode, nat> {
    InView(d, Refused(d, refused)).tree
  }

  ghost predicate Relaxing(d: Rootfs, refused: set<Path>, ls: seq<Level<()>>, cur: Rootfs) {
    var t := Reached(d, refused);
    Chain(t, ls) && cur == RelaxedOn(d, Behind(t, ls) - refused)
  }

  lemma RelaxStart(d: Rootfs, refused: set<Path>)
    requires ValidRootfs(d)
    ensures [] in Reached(d, refused) && Relaxing(d, refused, [Level([], None, ())], RelaxedOn(d, {[]} - refused))
  {
    var t := Reached(d, refused);
    var ls: seq<Level<()>> := [Level([], None, ())];
    InViewIsValid(d, Refused(d, refused));
    Start(t, [], ());
    forall p | p in t
      ensures p == [] || [] < p
    {
    }
    assert Behind(t, ls) == {[]};
  }

  /** chmod_at, best effort */
  method RelaxOne(cur: Rootfs, refused: set<Path>, p: Path, ghost d: Rootfs, ghost done: set<Path>) returns (next: Rootfs)
    requires ValidRootfs(d) && p in d.tree && cur == RelaxedOn(d, done - refused) && p !in done
    ensures next == RelaxedOn(d, done + {p} - refused)
  {
    if p in refused {
      next := cur;
      assert done + {p} - refused == done - refused;
    } else {
      next := RelaxPermissions(cur, p, d, done - refused);
      assert done - refused + {p} == done + {p} - refused;
    }
  }

  /** The pass reaches everything that is not beneath a directory it could
      neither open nor relax: a directory is relaxed before it is opened, and
      so are the directories above it. */
  method FixPermissions(d: Rootfs, refused: set<Path>) returns (r: Rootfs)
    requires ValidRootfs(d)
    ensures r == RelaxedOn(d, Reached(d, refused).Keys - refused)
  {
    r := d;
    assert d == RelaxedOn(d, {} - refused) by {
      assert RelaxedOn(d, {}).tree == d.tree && RelaxedOn(d, {}).inodes == d.inodes;
      var none: set<Path> := {};
      assert none - refused == none;
    }
    RelaxStart(d, refused);
    r := RelaxOne(r, refused, [], d, {});
    ghost var none: set<Path> := {};
    assert none + {[]} == {[]};
    var ls: seq<Level<()>> := [Level([], None, ())];
    hide RelaxedOn, Reached, ValidRootfs, Ahead, Chain, Relaxing, InView;
    while ls != []
      invariant Relaxing(d, refused, ls, r)
      decreases Ahead(Reached(d, refused), ls), Steps(ls)
    {
      var top := Top(ls);
      if top.pending.None? {
        ls := RelaxList(d, refused, ls, r);
      } else if top.pending.value == [] {
        RelaxLeft(d, refused, ls, r);
        ls := Below(ls);
      } else {
        r, ls := RelaxNext(d, refused, ls, r);
      }
    }
    RelaxEnd(d, refused, r);
  }

  lemma RelaxLeft(d: Rootfs, refused: set<Path>, ls: seq<Level<()>>, cur: Rootfs)
    requires Relaxing(d, refused, ls, cur) && ls != [] && Top(ls).pending == Some([])
    ensures Relaxing(d, refused, Below(ls), cur) && Closer(Reached(d, refused), ls, Below(ls))
  {
    Popped(Reached(d, refused), ls);
    assert Behind(Reached(d, refused), Below(ls)) == Behind(Reached(d, refused), ls);
  }

  lemma RelaxEnd(d: Rootfs, refused: set<Path>, cur: Rootfs)
    requires Relaxing(d, refused, [], cur)
    ensures cur == RelaxedOn(d, Reached(d, refused).Keys - refused)
  {
    var none: seq<Level<()>> := [];
    assert Behind(Reached(d, refused), none) == Reached(d, refused).Keys;
  }

  /** A directory the walk has come to is open by now, unless it is refused. */
  lemma OpenByNow(d: Rootfs, refused: set<Path>, ls: seq<Level<()>>, cur: Rootfs)
    requires ValidRootfs(d) && Relaxing(d, refused, ls, cur) && ls != []
    ensures var p := Top(ls).path;
      IsDir(cur.tree, p) && IsDir(d.tree, p) && p in Reached(d, refused) && (Open(cur.tree[p].dir) <==> p !in Refused(d, refused))
  {
    NothingAheadUnderTop(Reached(d, refused), ls, Top(ls).path);
  }

  /** opendir_at and _listing: nothing if the directory is shut; and of one
      that can be listed but not searched, nothing can be looked at. */
  method RelaxList(ghost d: Rootfs, ghost refused: set<Path>, ls: seq<Level<()>>, cur: Rootfs) returns (ls': seq<Level<()>>)
    requires ValidRootfs(d) && Relaxing(d, refused, ls, cur) && ls != [] && Top(ls).pending.None?
    ensures Relaxing(d, refused, ls', cur) && Closer(Reached(d, refused), ls, ls')
  {
    ghost var t := Reached(d, refused);
    var p := Top(ls).path;
    OpenByNow(d, refused, ls, cur);
    InViewIsValid(d, Refused(d, refused));
    EntriesInView(d, Refused(d, refused), p);
    SameNames(d, Behind(t, ls) - refused, p);
    var names: seq<Name> := [];
    if Open(cur.tree[p].dir) {
      names := ListReversed(cur.tree, p);
    }
    Listed(t, ls, names, ());
    ls' := WithTop(ls, Level(p, Some(names), ()));
    assert Behind(t, ls') == Behind(t, ls);
  }

  lemma SameNames(d: Rootfs, done: set<Path>, p: Path)
    ensures ChildNames(RelaxedOn(d, done).tree, p) == ChildNames(d.tree, p)
  {
    forall n
      ensures n in ChildNames(RelaxedOn(d, done).tree, p) <==> n in ChildNames(d.tree, p)
    {
      ChildNamesExact(RelaxedOn(d, done).tree, p, n);
      ChildNamesExact(d.tree, p, n);
    }
  }

  /** The walk after the name it takes: into a directory, past anything else. */
  function Onwards<D, F>(t: Tree<D, F>, ls: seq<Level<()>>): seq<Level<()>>
    requires HasNext(ls)
  {
    TakeNext(ls, ()) + if IsDir(t, Next(Top(ls))) then [Level(Next(Top(ls)), None, ())] else []
  }

  lemma OneFurther<D, F>(t: Tree<D, F>, ls: seq<Level<()>>)
    requires WellFormed(t) && Chain(t, ls) && HasNext(ls)
    ensures var c := Next(Top(ls));
      && c in t && c != [] && Parent(c) == Top(ls).path && c in Ahead(t, ls)
      && Chain(t, Onwards(t, ls)) && Closer(t, ls, Onwards(t, ls)) && Ahead(t, Onwards(t, ls)) == Ahead(t, ls) - {c}
  {
    var c := Next(Top(ls));
    Taken(t, ls, ());
    assert c in From(t, c);
    if IsDir(t, c) {
      Entered(t, ls, (), ());
    } else {
      OnlyItself(t, c);
      assert Onwards(t, ls) == TakeNext(ls, ());
    }
  }

  lemma RelaxedOnwards(d: Rootfs, refused: set<Path>, ls: seq<Level<()>>, cur: Rootfs)
    requires ValidRootfs(d) && Relaxing(d, refused, ls, cur) && HasNext(ls)
    ensures var t, c := Reached(d, refused), Next(Top(ls));
      && c in t && c in d.tree && t[c] == d.tree[c] && c !in Behind(t, ls)
      && Relaxing(d, refused, Onwards(t, ls), RelaxedOn(d, Behind(t, ls) + {c} - refused)) && Closer(t, ls, Onwards(t, ls))
  {
    var t, c := Reached(d, refused), Next(Top(ls));
    InViewIsValid(d, Refused(d, refused));
    OneFurther(t, ls);
    assert c in t && c in d.tree && t[c] == d.tree[c];
    hide Onwards, Ahead, Chain, ValidRootfs, InView, Reached;
    assert Behind(t, Onwards(t, ls)) == Behind(t, ls) + {c};
  }

  /** A directory is entered after its turn to be relaxed. */
  method RelaxNext(ghost d: Rootfs, refused: set<Path>, ls: seq<Level<()>>, cur: Rootfs) returns (next: Rootfs, ls': seq<Level<()>>)
    requires ValidRootfs(d) && Relaxing(d, refused, ls, cur) && HasNext(ls)
    ensures Relaxing(d, refused, ls', next) && Closer(Reached(d, refused), ls, ls')
  {
    ghost var t := Reached(d, refused);
    var child := Next(Top(ls));
    RelaxedOnwards(d, refused, ls, cur);
    next := RelaxOne(cur, refused, child, d, Behind(t, ls));
    ls' := TakeNext(ls, ());
    if next.tree[child].Dir? {
      ls' := ls' + [Level(child, None, ())];
    }
    assert next.tree[child].Dir? <==> IsDir(d.tree, child);
    assert ls' == Onwards(t, ls);
  }

  // -------------------------------------------------------------------------
  // The archive
  // -------------------------------------------------------------------------

  datatype Body = DirBody | LinkBody(target: string) | RegBody(data: Bytes) | HardBody(linkname: string) | DeviceBody | OtherBody

  datatype Entry = Entry(name: string, mode: Mode, body: Body)

  const MANIFEST := "manifest.json"
  const ROOTFS := "rootfs"
  const L2S_STORE := ".l2s"

  /** A member's name. */
  function Arc(container: string, q: Path): string {
    Join([container, ROOTFS] + q)
  }

  /** What ends up in the archive. */
  predicate Wanted(d: Rootfs, p: Path) {
    && p in d.tree && (p == [] || p[0] != L2S_STORE) && !d.tree[p].Special?
    && (d.tree[p].File? ==> d.tree[p].file in d.inodes && Readable(d.inodes[d.tree[p].file].mode))
  }

  /** The first of some paths that names the inode. */
  ghost function FirstOf(d: Rootfs, paths: seq<Path>, i: nat): Option<Path> {
    if paths == [] then None
    else
      var up := FirstOf(d, paths[..|paths| - 1], i);
      var p := paths[|paths| - 1];
      if up.None? && p in d.tree && d.tree[p] == File(i) then Some(p) else up
  }

  function ManifestName(container: string): string {
    Join([container, MANIFEST])
  }

  /** Is the manifest in the archive? The permission pass leaves it alone. */
  predicate ManifestKept(d: Rootfs) {
    d.manifest.Some? && d.manifest.value in d.inodes && Readable(d.inodes[d.manifest.value].mode)
  }

  /** manifest.json, when there is one. */
  function ManifestEntry(d: Rootfs, container: string): seq<Entry> {
    if ManifestKept(d) then
      var c := d.inodes[d.manifest.value];
      [Entry(ManifestName(container), c.mode, RegBody(c.data))]
    else []
  }

  /** The member that has the inode's content already: the manifest, which
      comes first, or the first of some paths. */
  ghost function NameOf(d: Rootfs, container: string, paths: seq<Path>, i: nat): Option<string> {
    if ManifestKept(d) && d.manifest == Some(i) then Some(ManifestName(container))
    else if FirstOf(d, paths, i).Some? then Some(Arc(container, FirstOf(d, paths, i).value))
    else None
  }

  /** The member for p, when those before it are in the archive already: a
      second name for an inode is a hard-link member. */
  ghost function EntryOf(d: Rootfs, container: string, before: seq<Path>, p: Path): Entry
    requires Wanted(d, p)
  {
    match d.tree[p]
    case Dir(m) => Entry(Arc(container, p), m, DirBody)
    case Link(target) => Entry(Arc(container, p), 0x1FF, LinkBody(target))
    case File(i) =>
      Entry(Arc(container, p), d.inodes[i].mode,
            match NameOf(d, container, before, i) case None => RegBody(d.inodes[i].data) case Some(f) => HardBody(f))
  }

  ghost function Archive(d: Rootfs, container: string, paths: seq<Path>): seq<Entry>
    requires forall p :: p in paths ==> Wanted(d, p)
  {
    if paths == [] then []
    else
      Archive(d, container, paths[..|paths| - 1]) + [EntryOf(d, container, paths[..|paths| - 1], paths[|paths| - 1])]
  }

  ghost predicate ParentEarlier(paths: seq<Path>, i: nat)
    requires i < |paths|
  {
    paths[i] != [] ==> Parent(paths[i]) in paths[..i]
  }

  /** Every wanted path the walk has got past, once, after its parent. */
  ghost predicate WalkOrder(d: Rootfs, paths: seq<Path>, ahead: set<Path>) {
    && (forall p :: p in paths <==> Wanted(d, p) && p !in ahead)
    && (forall i, j :: 0 <= i < j < |paths| ==> paths[i] != paths[j])
    && (forall i :: 0 <= i < |paths| ==> ParentEarlier(paths, i))
  }

  /** What the archiving walk sees. */
  ghost function Visible(d: Rootfs): Rootfs {
    InView(d, Closed(d))
  }

  /** tarfile's inode table. */
  ghost predicate TableOf(d: Rootfs, container: string, paths: seq<Path>, table: map<nat, string>) {
    forall i :: if NameOf(d, container, paths, i).None? then i !in table
                else i in table && table[i] == NameOf(d, container, paths, i).value
  }

  lemma {:induction false} FirstIsAmong(d: Rootfs, paths: seq<Path>, i: nat)
    ensures var f := FirstOf(d, paths, i);
      && (f.Some? ==> f.value in paths && f.value in d.tree && d.tree[f.value] == File(i))
      && (f.None? ==> forall p :: p in paths && p in d.tree ==> d.tree[p] != File(i))
  {
    if paths != [] {
      FirstIsAmong(d, paths[..|paths| - 1], i);
      assert forall p :: p in paths ==> p in paths[..|paths| - 1] || p == paths[|paths| - 1];
    }
  }

  /** The regular file's part of _add_path, with gettarinfo: several says
      that the inode has more than one name. */
  method AddFile(name: string, i: nat, c: Content, several: bool, table: map<nat, string>)
    returns (e: Option<Entry>, table': map<nat, string>)
    ensures table' == if Readable(c.mode) && !(several && i in table) then table[i := name] else table
    ensures e == if !Readable(c.mode) then None
                 else Some(Entry(name, c.mode, if several && i in table then HardBody(table[i]) else RegBody(c.data)))
  {
    e, table' := None, table;
    if Readable(c.mode) {
      if several && i in table {
        e := Some(Entry(name, c.mode, HardBody(table[i])));
      } else {
        e := Some(Entry(name, c.mode, RegBody(c.data)));
        table' := table[i := name];
      }
    }
  }

  /** _each_entry's first visit: the manifest, on an empty inode table. */
  method AddManifest(d: Rootfs, container: string) returns (entries: seq<Entry>, table: map<nat, string>)
    requires ValidRootfs(d)
    ensures entries == ManifestEntry(d, container) && TableOf(d, container, [], table)
  {
    entries, table := [], map[];
    if d.manifest.Some? {
      var i := d.manifest.value;
      var e;
      e, table := AddFile(ManifestName(container), i, d.inodes[i], i in d.outside, table);
      entries := if e.Some? then [e.value] else [];
    }
  }

  /** _add_path */
  method AddPath(d: Rootfs, container: string, p: Path, table: map<nat, string>, ghost v: Rootfs, ghost before: seq<Path>)
    returns (e: Option<Entry>, table': map<nat, string>)
    requires ValidRootfs(d) && v == Visible(d) && ValidRootfs(v) && p in v.tree && (p == [] || p[0] != L2S_STORE)
    requires p !in before && TableOf(v, container, before, table)
    ensures if Wanted(v, p) then e == Some(EntryOf(v, container, before, p)) && TableOf(v, container, before + [p], table')
            else e.None? && table' == table
  {
    var name := Arc(container, p);
    table' := table;
    assert (before + [p])[..|before|] == before;
    match d.tree[p] {
      case Special => e := None;
      case Dir(m) => e := Some(Entry(name, m, DirBody));
      case Link(target) => e := Some(Entry(name, 0x1FF, LinkBody(target)));
      case File(i) =>
        NamesInView(d, Closed(d), p);
        FirstIsAmong(v, before, i);
        assert OnlyName(v.tree, v.outside, p) <==> OnlyName(d.tree, d.outside, p);
        hide InView, Visible;
        e, table' := AddFile(name, i, d.inodes[i], !OnlyName(d.tree, d.outside, p), table);
    }
  }

  /** _walk_tree with _add_path as its visitor, .l2s left out at the top. */
  method ArchiveTree(d: Rootfs, container: string, table0: map<nat, string>) returns (entries: seq<Entry>, ghost paths: seq<Path>)
    requires ValidRootfs(d) && TableOf(Visible(d), container, [], table0)
    ensures WalkOrder(Visible(d), paths, {}) && paths != [] && paths[0] == [] && entries == Archive(Visible(d), container, paths)
  {
    ghost var v := Visible(d);
    InViewIsValid(d, Closed(d));
    paths := [];
    assert [] in v.tree by {
      assert Rooted(v.tree, []);
    }
    var e, table := AddPath(d, container, [], table0, v, paths);
    entries, paths := [e.value], [[]];
    assert paths[..0] == [];
    var ls: seq<Level<()>> := [Level([], None, ())];
    ArchiveStart(v);
    while ls != []
      invariant Chain(v.tree, ls) && WalkOrder(v, paths, Ahead(v.tree, ls)) && paths != [] && paths[0] == []
      invariant TableOf(v, container, paths, table) && entries == Archive(v, container, paths)
      decreases Ahead(v.tree, ls), Steps(ls)
    {
      if Top(ls).pending.None? {
        ls := OpenListing(d, ls, v, paths);
      } else if Top(ls).pending.value == [] {
        Popped(v.tree, ls);
        ls := Below(ls);
      } else {
        ghost var p;
        OneFurther(v.tree, ls);
        var child := Next(Top(ls));
        entries, table, p := ArchiveNext(d, container, ls, entries, table, v, paths);
        paths := p;
        SameKind(d, child);
        ls := Onwards(d.tree, ls);
      }
    }
  }

  lemma SameKind(d: Rootfs, p: Path)
    requires p in Visible(d).tree
    ensures p in d.tree && Visible(d).tree[p] == d.tree[p]
  {
  }

  lemma ArchiveStart(d: Rootfs)
    requires ValidRootfs(d)
    ensures Chain(d.tree, [Level([], None, ())]) && WalkOrder(d, [[]], Ahead(d.tree, [Level([], None, ())]))
  {
    var ls: seq<Level<()>> := [Level([], None, ())];
    Start(d.tree, [], ());
    forall p | p in d.tree
      ensures p == [] || [] < p
    {
    }
  }

  /** opendir_at and _listing, as in the permission pass */
  method OpenListing(d: Rootfs, ls: seq<Level<()>>, ghost v: Rootfs, ghost paths: seq<Path>) returns (ls': seq<Level<()>>)
    requires ValidRootfs(d) && v == Visible(d) && ValidRootfs(v) && Chain(v.tree, ls) && ls != [] && Top(ls).pending.None?
    requires WalkOrder(v, paths, Ahead(v.tree, ls))
    ensures Chain(v.tree, ls') && Closer(v.tree, ls, ls') && WalkOrder(v, paths, Ahead(v.tree, ls'))
  {
    var rel := Top(ls).path;
    EntriesInView(d, Closed(d), rel);
    SameKind(d, rel);
    var names: seq<Name> := [];
    if Open(d.tree[rel].dir) {
      names := ListReversed(d.tree, rel);
    }
    hide InView, Visible, WalkOrder;
    if rel == [] {
      var kept := WithoutName(names, L2S_STORE);
      forall n | n in names
        ensures rel + [n] in v.tree
      {
        ChildNamesExact(v.tree, rel, n);
      }
      ListedSome(v.tree, ls, kept, ());
      ls' := WithTop(ls, Level(rel, Some(kept), ()));
      SkippedAtTop(v, ls, names, kept, paths);
    } else {
      Listed(v.tree, ls, names, ());
      ls' := WithTop(ls, Level(rel, Some(names), ()));
    }
  }

  lemma SkippedAtTop(d: Rootfs, ls: seq<Level<()>>, names: seq<Name>, kept: seq<Name>, paths: seq<Path>)
    requires ValidRootfs(d) && Chain(d.tree, ls) && ls != [] && Top(ls).pending.None? && Top(ls).path == []
    requires forall n :: n in names <==> n in ChildNames(d.tree, [])
    requires forall n :: n in kept <==> n in names && n != L2S_STORE
    requires NoDuplicates(kept) && WalkOrder(d, paths, Ahead(d.tree, ls))
    ensures WalkOrder(d, paths, Ahead(d.tree, WithTop(ls, Level([], Some(kept), ()))))
  {
    forall n | n in kept
      ensures [] + [n] in d.tree
    {
      ChildNamesExact(d.tree, [], n);
    }
    ListedSome(d.tree, ls, kept, ());
    hide Ahead, Chain, WalkOrder;
    var skipped := set p | p in d.tree && [] < p && p[0] !in kept;
    forall p | p in skipped
      ensures !Wanted(d, p)
    {
      SkippedIsUnwanted(d, names, kept, p);
    }
    WalkOrderWithout(d, paths, Ahead(d.tree, ls), skipped);
  }

  lemma WalkOrderWithout(d: Rootfs, paths: seq<Path>, ahead: set<Path>, skipped: set<Path>)
    requires WalkOrder(d, paths, ahead) && forall p :: p in skipped ==> !Wanted(d, p)
    ensures WalkOrder(d, paths, ahead - skipped)
  {
    hide Wanted;
  }

  lemma SkippedIsUnwanted(d: Rootfs, names: seq<Name>, kept: seq<Name>, p: Path)
    requires ValidRootfs(d) && p in d.tree && p != [] && p[0] !in kept
    requires forall n :: n in names <==> n in ChildNames(d.tree, [])
    requires forall n :: n in kept <==> n in names && n != L2S_STORE
    ensures !Wanted(d, p)
  {
    assert p[..1] == [] + [p[0]];
    if |p| > 1 {
      AncestorsAreDirs(d.tree, p[..1], p);
    } else {
      assert p == p[..1];
    }
    ChildNamesExact(d.tree, [], p[0]);
  }

  /** [n for n in names if n not in skip] */
  function WithoutName(names: seq<Name>, skip: Name): (r: seq<Name>)
    ensures forall n :: n in r <==> n in names && n != skip
    ensures NoDuplicates(names) ==> NoDuplicates(r)
  {
    if names == [] then []
    else
      var rest := WithoutName(names[1..], skip);
      assert NoDuplicates(names) ==> NoDuplicates(names[1..]) && names[0] !in names[1..];
      if names[0] == skip then rest else [names[0]] + rest
  }

  method ArchiveNext(d: Rootfs, container: string, ls: seq<Level<()>>, entries: seq<Entry>, table: map<nat, string>,
                     ghost v: Rootfs, ghost paths: seq<Path>)
    returns (entries': seq<Entry>, table': map<nat, string>, ghost paths': seq<Path>)
    requires ValidRootfs(d) && v == Visible(d) && ValidRootfs(v) && Chain(v.tree, ls) && HasNext(ls) && paths != []
    requires WalkOrder(v, paths, Ahead(v.tree, ls)) && TableOf(v, container, paths, table) && entries == Archive(v, container, paths)
    ensures WalkOrder(v, paths', Ahead(v.tree, ls) - {Next(Top(ls))}) && TableOf(v, container, paths', table')
    ensures paths <= paths' && entries' == Archive(v, container, paths')
  {
    var child := Next(Top(ls));
    OneFurther(v.tree, ls);
    NothingAheadUnderTop(v.tree, ls, Top(ls).path);
    entries', table', paths' := entries, table, paths;
    if child[0] != L2S_STORE {
      var e;
      e, table' := AddPath(d, container, child, table, v, paths);
      if e.Some? {
        entries' := entries + [e.value];
        paths' := paths + [child];
        assert paths'[..|paths|] == paths;
      }
    }
    WalkOrderMore(v, paths, Ahead(v.tree, ls), child);
  }

  /** One path more is behind the walk, its parent being so already. */
  lemma WalkOrderMore(d: Rootfs, paths: seq<Path>, ahead: set<Path>, child: Path)
    requires ValidRootfs(d) && WalkOrder(d, paths, ahead) && child in ahead && child in d.tree && child != [] && Parent(child) !in ahead
    ensures WalkOrder(d, if Wanted(d, child) then paths + [child] else paths, ahead - {child})
  {
    if Wanted(d, child) {
      assert Rooted(d.tree, child);
      assert Wanted(d, Parent(child));
      hide Wanted;
      var more := paths + [child];
      forall i | 0 <= i < |more|
        ensures ParentEarlier(more, i)
      {
        assert i < |paths| ==> ParentEarlier(paths, i) && more[i] == paths[i];
        assert more[..i] == paths[..i];
      }
    }
  }

  lemma RelaxedIsValid(d: Rootfs, done: set<Path>)
    requires ValidRootfs(d)
    ensures ValidRootfs(RelaxedOn(d, done))
  {
    var r := RelaxedOn(d, done);
    forall p | p in r.tree
      ensures Rooted(r.tree, p)
    {
      assert Rooted(d.tree, p);
    }
    forall p | p in r.tree && !r.tree[p].Dir?
      ensures r.tree[p] == d.tree[p]
      ensures r.tree[p].File? ==> r.tree[p].file in r.inodes
      ensures r.tree[p].Link? ==> r.tree[p].target != ""
    {
      assert IsFile(d.tree, p) || IsLink(d.tree, p) || d.tree[p].Special?;
    }
  }

  /** The rootfs after the permission pass, as far as the archive sees it. */
  ghost function Prepared(d: Rootfs, refused: set<Path>): Rootfs {
    Visible(RelaxedOn(d, Reached(d, refused).Keys - refused))
  }

  /** Where every directory can be opened in the end, that is all of it. */
  lemma NothingRefused(d: Rootfs, refused: set<Path>)
    requires ValidRootfs(d) && forall p :: p in refused ==> !Shut(d, p)
    ensures Prepared(d, refused) == RelaxedOn(d, d.tree.Keys - refused)
  {
    assert Refused(d, refused) == {};
    assert Reached(d, refused) == d.tree;
    var r := RelaxedOn(d, d.tree.Keys - refused);
    forall p
      ensures !Shut(r, p)
    {
    }
    assert Closed(r) == {};
    var v := InView(r, {});
    assert v.tree == r.tree && v.outside == r.outside;
  }

  /** The archive's walk sees what the permission pass did. */
  lemma PreparedExactly(d: Rootfs, refused: set<Path>, p: Path)
    requires ValidRootfs(d)
    ensures p in Prepared(d, refused).tree <==> p in d.tree && !Beneath(Refused(d, refused), p)
  {
    var r := RelaxedOn(d, Reached(d, refused).Keys - refused);
    if p in d.tree {
      if Beneath(Refused(d, refused), p) {
        var k :| 0 <= k < |p| && p[..k] in Refused(d, refused);
        assert p[..k] in Closed(r);
      }
      if Beneath(Closed(r), p) {
        ShutAbove(d, refused, p);
      }
    }
  }

  lemma ShutAbove(d: Rootfs, refused: set<Path>, p: Path)
    requires p in d.tree && Beneath(Closed(RelaxedOn(d, Reached(d, refused).Keys - refused)), p)
    ensures Beneath(Refused(d, refused), p)
  {
    var r := RelaxedOn(d, Reached(d, refused).Keys - refused);
    var k :| 0 <= k < |p| && p[..k] in Closed(r);
    var a := p[..k];
    assert Shut(r, a) && IsDir(d.tree, a);
    if a in Reached(d, refused) {
      assert a in Refused(d, refused);
    } else {
      var j :| 0 <= j < |a| && a[..j] in Refused(d, refused);
      assert p[..j] == a[..j];
    }
  }

  /** Refused for good are the directories that lack owner read or search and
      cannot be given it. */
  lemma RefusedExactly(d: Rootfs, refused: set<Path>, p: Path)
    ensures p in Refused(d, refused) <==> p in refused && IsDir(d.tree, p) && d.tree[p].dir & 0x140 != 0x140
  {
    if IsDir(d.tree, p) {
      OpenBits(d.tree[p].dir);
    }
  }

  lemma OpenBits(m: Mode)
    ensures Open(m) <==> m & 0x140 == 0x140
  {
  }

  /** Exactly what a backup leaves out: what lies beneath a directory that
      can be neither opened nor relaxed, the link2symlink store, special
      files, and files their owner cannot read that have several names or
      cannot be relaxed. */
  lemma LeftOutExactly(d: Rootfs, refused: set<Path>, p: Path)
    requires ValidRootfs(d) && p in d.tree
    ensures Wanted(Prepared(d, refused), p) <==>
      && !Beneath(Refused(d, refused), p)
      && (p == [] || p[0] != L2S_STORE) && !d.tree[p].Special?
      && (d.tree[p].File? ==> (OnlyName(d.tree, d.outside, p) && p !in refused) || Readable(d.inodes[d.tree[p].file].mode))
  {
    PreparedExactly(d, refused, p);
    if d.tree[p].File? && !Beneath(Refused(d, refused), p) {
      var i := d.tree[p].file;
      assert IsFile(d.tree, p);
      assert Sole(d, p, i) <==> OnlyName(d.tree, d.outside, p);
      assert forall q :: Sole(d, q, i) ==> d.tree[p] == d.tree[q];
      assert p in Reached(d, refused);
    }
  }

  // What the permission pass may do to a mode.

  /** m' has every bit of m, and of the others at most these two. */
  predicate GainsAtMost(m: Mode, m': Mode, bits: Mode) {
    m' & m == m && m' & !bits == m & !bits
  }

  lemma RelaxedDirBits(m: Mode)
    ensures GainsAtMost(m, RelaxedDir(m), 0x140) && RelaxedDir(m) & 0x140 == 0x140
    ensures m & 0x140 == 0x140 ==> RelaxedDir(m) == m
  {
  }

  lemma RelaxedFileBits(m: Mode)
    ensures GainsAtMost(m, RelaxedFile(m), 0x140) && RelaxedFile(m) & 0x100 == 0x100
    ensures RelaxedFile(m) & 0x40 == m & 0x40 || m & 0x49 != 0
    ensures OwnerMayUse(m) ==> RelaxedFile(m) == m
  {
  }

  /** Readable by its owner, and executable by it if by anyone. */
  predicate OwnerMayUse(m: Mode) {
    m & 0x100 == 0x100 && (m & 0x49 != 0 ==> m & 0x40 == 0x40)
  }

  /** The pass changes no more than it must. A directory's mode gains owner
      read and search, and only if it lacked one of them; a file's gains owner
      read, and owner execute only if somebody may execute it. Nothing else
      about an entry changes; a mode that is refused, and that of a file with
      several names, does not either. */
  lemma RelaxedNoFurther(d: Rootfs, refused: set<Path>, p: Path)
    requires ValidRootfs(d) && p in Prepared(d, refused).tree
    ensures p in d.tree
    ensures !IsDir(d.tree, p) ==> Prepared(d, refused).tree[p] == d.tree[p]
    ensures IsDir(d.tree, p) ==>
      && IsDir(Prepared(d, refused).tree, p)
      && var m, m' := d.tree[p].dir, Prepared(d, refused).tree[p].dir;
      && GainsAtMost(m, m', 0x140)
      && (if p in refused || m & 0x140 == 0x140 then m' == m else m' & 0x140 == 0x140)
    ensures IsFile(d.tree, p) ==>
      && d.tree[p].file in Prepared(d, refused).inodes
      && var c, c' := d.inodes[d.tree[p].file], Prepared(d, refused).inodes[d.tree[p].file];
      && c'.data == c.data && GainsAtMost(c.mode, c'.mode, 0x140)
      && (c'.mode & 0x40 == c.mode & 0x40 || c.mode & 0x49 != 0)
      && (p in refused || !OnlyName(d.tree, d.outside, p) ==> c'.mode == c.mode)
      && (OwnerMayUse(c.mode) ==> c'.mode == c.mode)
  {
    PreparedExactly(d, refused, p);
    assert p in Reached(d, refused);
    if IsDir(d.tree, p) {
      RelaxedDirBits(d.tree[p].dir);
    } else if IsFile(d.tree, p) {
      RelaxedFileBits(d.inodes[d.tree[p].file].mode);
      assert forall q :: Sole(d, q, d.tree[p].file) && OnlyName(d.tree, d.outside, q) ==> d.tree[p] == d.tree[q];
    }
    hide RelaxedDir, RelaxedFile, GainsAtMost;
  }

  /** Nothing that stands open to its owner needs relaxing. */
  ghost predicate StandsOpen(d: Rootfs) {
    && (forall p :: IsDir(d.tree, p) ==> d.tree[p].dir & 0x140 == 0x140)
    && (forall p :: IsFile(d.tree, p) && d.tree[p].file in d.inodes ==> OwnerMayUse(d.inodes[d.tree[p].file].mode))
  }

  /** Then the archive sees the rootfs as it was. */
  lemma OpenIsLeftAlone(d: Rootfs, refused: set<Path>)
    requires ValidRootfs(d) && StandsOpen(d)
    ensures Prepared(d, refused) == d
  {
    var done := d.tree.Keys - refused;
    forall p | p in refused
      ensures !Shut(d, p)
    {
    }
    NothingRefused(d, refused);
    forall p | IsDir(d.tree, p)
      ensures RelaxedDir(d.tree[p].dir) == d.tree[p].dir
    {
      RelaxedDirBits(d.tree[p].dir);
    }
    forall p, i | Sole(d, p, i)
      ensures RelaxedFile(d.inodes[i].mode) == d.inodes[i].mode
    {
      RelaxedFileBits(d.inodes[i].mode);
    }
    hide RelaxedDir, RelaxedFile;
    assert RelaxedOn(d, done).tree == d.tree;
    assert RelaxedOn(d, done).inodes == d.inodes;
  }

  /** command_backup, without the compression: the members in order. */
  method BackupContainer(d: Rootfs, refused: set<Path>, container: string)
    returns (entries: seq<Entry>, ghost after: Rootfs, ghost paths: seq<Path>)
    requires ValidRootfs(d)
    ensures after == Prepared(d, refused) && ValidRootfs(after)
    ensures WalkOrder(after, paths, {}) && paths != [] && paths[0] == []
    ensures ManifestKept(after) <==> ManifestKept(d)
    ensures entries == ManifestEntry(after, container) + Archive(after, container, paths)
  {
    var relaxed := FixPermissions(d, refused);
    RelaxedIsValid(d, Reached(d, refused).Keys - refused);
    InViewIsValid(relaxed, Closed(relaxed));
    after := Visible(relaxed);
    var first, table := AddManifest(relaxed, container);
    var members;
    members, paths := ArchiveTree(relaxed, container, table);
    entries := first + members;
  }
}
