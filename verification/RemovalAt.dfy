/** dirfd.rmtree_at as it runs: on descriptors, the levels of its stack
    parked and revived, in a tree that others may change meanwhile. */
module RemovalAt {
  import opened Names
  import opened Trees
  import opened Resolver
  import opened Kernels
  import opened Levels
  import opened Shared
  import opened Weights
  import Removal
  import Walks

  type Obstacles = Removal.Obstacles

  /** The locals of the walk; each level's flag is `emptied`. */
  datatype Walk = Walk(ls: seq<Level>, removed: seq<Path>, errs: seq<Path>, ok: bool)

  /** What does not change during a walk: the inode of the caller's directory
      and the name in it, the path that entry is reported by, the obstacles,
      the tree at the start, and whether nobody else acts. */
  datatype Context = Context(top: nat, root: Name, at: Path, o: Obstacles, start: Fs, alone: bool)

  /** Nobody else does anything, and the caller's directory is where the
      reports say. */
  ghost predicate Undisturbed(c: Context) {
    c.alone && c.at != [] && Leaf(c.at) == c.root && PathOf(c.start.tree, c.top) == Some(Parent(c.at))
  }

  // -------------------------------------------------------------------------
  // What holds whatever the others do
  // -------------------------------------------------------------------------

  /** Names a directory can have, as listing gives them. */
  ghost predicate Named(l: Level) {
    && l.path != [] && ValidName(Leaf(l.path))
    && (l.pending.Some? ==> forall n :: n in l.pending.value ==> ValidName(n))
  }

  ghost predicate Entry(acts: seq<Act>, f: Frame, w: Inodes, l: Level) {
    Single(w) && WentInto(acts, w[0].value) && f.owned && Named(l)
  }

  /** Level by level: what it stands for was entered by the walk, and all but
      the top one have been listed. */
  ghost predicate Sound(acts: seq<Act>, root: Name, st: seq<Frame>, want: seq<Inodes>, ls: seq<Level>) {
    && |st| == |want| == |ls|
    && (forall i :: 0 <= i < |ls| ==> Entry(acts, st[i], want[i], ls[i]))
    && (forall i :: 0 <= i < |ls| - 1 ==> ls[i].pending.Some?)
    && (ls != [] ==> Leaf(ls[0].path) == root)
  }

  /** A failure is remembered until the walk ends. */
  ghost predicate Told(w: Walk) {
    w.errs == [] <==> w.ok && forall i :: 0 <= i < |w.ls| ==> w.ls[i].data
  }

  /** Each removal is reported once, when it happens. */
  ghost predicate Reported(acts: seq<Act>, removed: seq<Path>) {
    && |Removals(acts)| == |removed|
    && forall i :: 0 <= i < |removed| ==> removed[i] != [] && Leaf(removed[i]) == Removals(acts)[i]
  }

  lemma ReportedOn(acts: seq<Act>, acts': seq<Act>, removed: seq<Path>, gone: seq<Path>)
    requires Reported(acts, removed) && |gone| <= 1 && (|gone| == 1 ==> gone[0] != [])
    requires Removals(acts') == Removals(acts) + if |gone| == 1 then [Leaf(gone[0])] else []
    ensures Reported(acts', removed + gone)
  {
  }

  lemma SoundLater(acts: seq<Act>, acts': seq<Act>, root: Name, st: seq<Frame>, want: seq<Inodes>, ls: seq<Level>)
    requires Sound(acts, root, st, want, ls)
    requires forall ino :: WentInto(acts, ino) ==> WentInto(acts', ino)
    ensures Sound(acts', root, st, want, ls)
  {
    forall i | 0 <= i < |ls|
      ensures Entry(acts', st[i], want[i], ls[i])
    {
      assert Entry(acts, st[i], want[i], ls[i]);
    }
  }

  /** The top level's names or flag changed. */
  lemma SoundRelabelled(acts: seq<Act>, root: Name, st: seq<Frame>, want: seq<Inodes>, ls: seq<Level>, l: Level)
    requires Sound(acts, root, st, want, ls) && ls != [] && l.path == Walks.Top(ls).path && Named(l)
    ensures Sound(acts, root, st, want, Walks.WithTop(ls, l))
  {
    var ls' := Walks.WithTop(ls, l);
    forall i | 0 <= i < |ls'|
      ensures Entry(acts, st[i], want[i], ls'[i])
    {
      assert Entry(acts, st[i], want[i], ls[i]);
    }
  }

  lemma SoundPushed(acts: seq<Act>, root: Name, st: seq<Frame>, st': seq<Frame>, want: seq<Inodes>, ls: seq<Level>,
                    f: Frame, w: Inodes, l: Level)
    requires Sound(acts, root, st, want, ls) && Entry(acts, f, w, l) && SameOwners(st + [f], st')
    requires if ls == [] then Leaf(l.path) == root else Walks.Top(ls).pending.Some?
    ensures Sound(acts, root, st', want + [w], ls + [l])
  {
    var want', ls' := want + [w], ls + [l];
    forall i | 0 <= i < |ls'|
      ensures Entry(acts, st'[i], want'[i], ls'[i])
    {
      assert i < |ls| ==> Entry(acts, st[i], want[i], ls[i]);
      assert st'[i].owned == (st + [f])[i].owned;
    }
  }

  lemma SoundPopped(acts: seq<Act>, root: Name, st: seq<Frame>, st': seq<Frame>, want: seq<Inodes>, ls: seq<Level>)
    requires Sound(acts, root, st, want, ls) && ls != [] && SameOwners(st[..|ls| - 1], st')
    ensures Sound(acts, root, st', want[..|ls| - 1], Walks.Below(ls))
  {
    var want', ls' := want[..|ls| - 1], Walks.Below(ls);
    forall i | 0 <= i < |ls'|
      ensures Entry(acts, st'[i], want'[i], ls'[i])
    {
      assert Entry(acts, st[i], want[i], ls[i]);
      assert st'[i].owned == st[..|ls| - 1][i].owned;
    }
  }

  lemma ToldRelabelled(w: Walk, l: Level)
    requires Told(w) && w.ls != []
    ensures l.data == Walks.Top(w.ls).data ==>
      forall gone :: Told(w.(ls := Walks.WithTop(w.ls, l), removed := gone))
    ensures !l.data ==> forall p :: Told(w.(ls := Walks.WithTop(w.ls, l), errs := w.errs + [p]))
  {
    var ls' := Walks.WithTop(w.ls, l);
    assert ls'[|w.ls| - 1] == l && forall i :: 0 <= i < |w.ls| - 1 ==> ls'[i] == w.ls[i];
    assert w.ls[|w.ls| - 1] == Walks.Top(w.ls);
  }

  // -------------------------------------------------------------------------
  // What holds when nobody else does anything
  // -------------------------------------------------------------------------

  /** The walk on descriptors is where the walk on paths is. */
  ghost predicate OnCourse(c: Context, s: Fs, want: seq<Inodes>, w: Walk) {
    && Removal.Good(c.start.tree, c.at, c.o, w.ls, s.tree, w.removed, w.errs, w.ok)
    && Singles(want) && Aligned(c.start, want, w.ls)
  }

  ghost predicate Aligned(s0: Fs, want: seq<Inodes>, ls: seq<Level>)
    requires Singles(want)
  {
    && |want| == |ls|
    && forall i :: 0 <= i < |want| ==> IsDir(s0.tree, ls[i].path) && s0.tree[ls[i].path].dir.ino == want[i][0].value
  }

  lemma StillAligned(s0: Fs, want: seq<Inodes>, ls: seq<Level>, l: Level)
    requires Singles(want) && Aligned(s0, want, ls) && ls != [] && l.path == Walks.Top(ls).path
    ensures Aligned(s0, want, Walks.WithTop(ls, l))
  {
    var ls' := Walks.WithTop(ls, l);
    assert forall i :: 0 <= i < |ls| ==> ls'[i].path == ls[i].path;
  }

  lemma AlignedBelow(s0: Fs, want: seq<Inodes>, ls: seq<Level>)
    requires Singles(want) && Aligned(s0, want, ls) && ls != [] && |want| == |ls|
    ensures var up := Walks.Below(ls);
      && Singles(want[..|up|]) && Aligned(s0, want[..|up|], up)
      && (up != [] ==> Aligned(s0, want[..|up|], Walks.WithTop(up, Walks.Top(up).(data := false))))
  {
    var up := Walks.Below(ls);
    assert forall i :: 0 <= i < |up| ==> up[i] == ls[i];
    if up != [] {
      StillAligned(s0, want[..|up|], up, Walks.Top(up).(data := false));
    }
  }

  lemma DirIsAt(s: Fs, p: Path)
    requires ValidFs(s) && IsDir(s.tree, p)
    ensures PathOf(s.tree, s.tree[p].dir.ino) == Some(p)
  {
    assert Alone(s.tree, p);
  }

  /** Every level's inode is where the level's path says. */
  lemma Placed(c: Context, s: Fs, want: seq<Inodes>, w: Walk)
    requires ValidFs(s) && OnCourse(c, s, want, w)
    ensures forall i :: 0 <= i < |want| ==> PathOf(s.tree, want[i][0].value) == Some(w.ls[i].path)
  {
    hide Removal.Good;
    Removal.GoodLevels(c.start.tree, c.at, c.o, w.ls, s.tree, w.removed, w.errs, w.ok);
    forall i | 0 <= i < |want|
      ensures PathOf(s.tree, want[i][0].value) == Some(w.ls[i].path)
    {
      DirIsAt(s, w.ls[i].path);
    }
  }

  /** So the level under the top one can be had through "..". */
  lemma TopIsInside(c: Context, s: Fs, want: seq<Inodes>, w: Walk)
    requires ValidFs(s) && OnCourse(c, s, want, w) && |want| > 1
    ensures var n := |want| - 1;
      w.ls[n].path != [] && Parent(w.ls[n].path) == w.ls[n - 1].path && Beneath(s.tree, want[n - 1], want[n])
  {
    hide Removal.Good, ValidFs;
    var n := |want| - 1;
    Placed(c, s, want, w);
    Removal.GoodLevels(c.start.tree, c.at, c.o, w.ls, s.tree, w.removed, w.errs, w.ok);
    OneIsInside(s, want[n - 1][0].value, want[n][0].value, w.ls[n].path);
  }

  lemma OneIsInside(s: Fs, below: nat, above: nat, p: Path)
    requires p != [] && PathOf(s.tree, above) == Some(p) && PathOf(s.tree, below) == Some(Parent(p))
    ensures Inside(s.tree, above, below)
  {
  }

  /** All of the above, for a walk in the state it is in. */
  ghost predicate Fine(c: Context, acts: seq<Act>, st: seq<Frame>, want: seq<Inodes>, w: Walk, s: Fs) {
    && Told(w) && Reported(acts, w.removed) && Sound(acts, c.root, st, want, w.ls)
    && (Undisturbed(c) ==> OnCourse(c, s, want, w))
  }

  lemma FineTop(c: Context, acts: seq<Act>, st: seq<Frame>, want: seq<Inodes>, w: Walk, s: Fs)
    requires Fine(c, acts, st, want, w, s)
    ensures |st| == |want| == |w.ls| && Singles(want)
    ensures forall i :: 0 <= i < |want| ==> Single(want[i]) && WentInto(acts, want[i][0].value)
    ensures forall i :: 0 <= i < |st| ==> st[i].owned && Named(w.ls[i])
    ensures Reported(acts, w.removed)
    ensures |w.ls| == 1 ==> Leaf(w.ls[0].path) == c.root
    ensures |w.ls| > 1 ==> Walks.Top(Walks.Below(w.ls)).pending.Some?
  {
    forall i | 0 <= i < |w.ls|
      ensures Single(want[i]) && WentInto(acts, want[i][0].value) && st[i].owned && Named(w.ls[i])
    {
      assert Entry(acts, st[i], want[i], w.ls[i]);
    }
  }

  ghost function ContextOf(shared: SharedTree, at: Path): Context {
    Context(shared.top, shared.EntryName(), at, shared.o, shared.start, shared.others == [])
  }

  ghost predicate Kept(shared: SharedTree, levels: Stack, before: map<nat, nat>, at: Path, w: Walk)
    reads shared, shared.k, levels, levels.k
  {
    && shared.Valid() && shared.root.Some? && levels.Valid() && levels.k == shared.k && levels.Rest() == before
    && Fine(ContextOf(shared, at), shared.acts, levels.stack, levels.want, w, shared.k.fs)
  }

  lemma TopIsOpen(levels: Stack)
    requires levels.Valid() && levels.stack != [] && Single(levels.want[|levels.want| - 1])
    ensures levels.Top().fds == [levels.Top().fds[0], None] && levels.Top().fds[0].Some?
    ensures var fd := levels.Top().fds[0].value;
      fd in levels.k.fds && levels.k.fds[fd] == levels.want[|levels.want| - 1][0].value && fd !in levels.Rest()
  {
    var n := |levels.stack| - 1;
    assert SlotRight(levels.stack, levels.low, levels.want, levels.k.fds, n, 0);
    assert SlotRight(levels.stack, levels.low, levels.want, levels.k.fds, n, 1);
  }

  lemma SharedIsValid(shared: SharedTree, at: Path)
    requires shared.Valid()
    ensures ValidFs(shared.start) && ValidFs(shared.k.fs)
    ensures Undisturbed(ContextOf(shared, at)) ==> shared.Quiet()
    ensures shared.acts == [] ==> shared.start == shared.k.fs && Removals(shared.acts) == []
  {
  }

  lemma AsItIs(levels: Stack)
    requires levels.Valid()
    ensures levels.ValidAt(levels.k.fds) && levels.Rest() == Unheld(levels.stack, levels.k.fds)
  {
  }

  /** However deep the walk is. */
  lemma OpenAreFew(levels: Stack)
    requires levels.Valid() && Singles(levels.want) && levels.Within()
    ensures |levels.k.fds| <= |levels.Rest()| + 1 + Max(levels.budget, 2)
  {
    var st, low, want, fds := levels.stack, levels.low, levels.want, levels.k.fds;
    forall i | 0 <= i < |st|
      ensures |Numbers(st[i])| <= if Parked(i, low) then 0 else 1
    {
      assert SlotRight(st, low, want, fds, i, 0) && SlotRight(st, low, want, fds, i, 1);
    }
    OpenInAll(st, fds);
    OnePerLevel(st, low);
  }

  // -------------------------------------------------------------------------
  // Listing a level
  // -------------------------------------------------------------------------

  lemma ListedIsSound(acts: seq<Act>, root: Name, st: seq<Frame>, want: seq<Inodes>, ls: seq<Level>,
                      s: Fs, d: Option<Path>, names: seq<Name>, x: bool)
    requires Sound(acts, root, st, want, ls) && ls != [] && ValidFs(s)
    requires forall n :: n in names ==> d.Some? && n in ChildNames(s.tree, d.value)
    ensures Sound(acts, root, st, want, Walks.WithTop(ls, Walks.Level(Walks.Top(ls).path, Some(names), x)))
  {
    var n := |ls| - 1;
    assert Entry(acts, st[n], want[n], ls[n]);
    forall n | n in names
      ensures ValidName(n)
    {
      ChildNamesExact(s.tree, d.value, n);
      assert Rooted(s.tree, d.value + [n]);
    }
    SoundRelabelled(acts, root, st, want, ls, Walks.Level(Walks.Top(ls).path, Some(names), x));
  }

  /** What listdir_at says of the directory ino. */
  ghost predicate Lists(o: Obstacles, s: Fs, ino: nat, names: Option<seq<Name>>) {
    var d := PathOf(s.tree, ino);
    && (names.None? <==> d.None? || d.value in o.noList)
    && (names.Some? ==>
          && Walks.NoDuplicates(names.value)
          && forall n :: n in names.value <==> n in ChildNames(s.tree, d.value))
  }

  /** The walk after the top level has been listed, or could not be. */
  function AfterList(w: Walk, names: Option<seq<Name>>): Walk
    requires w.ls != []
  {
    var top := Walks.Top(w.ls);
    if names.None? then
      w.(ls := Walks.WithTop(w.ls, Walks.Level(top.path, Some([]), false)), errs := w.errs + [top.path])
    else
      w.(ls := Walks.WithTop(w.ls, Walks.Level(top.path, Some(names.value), top.data)))
  }

  lemma ListedIsOnCourse(c: Context, s: Fs, want: seq<Inodes>, w: Walk, names: Option<seq<Name>>)
    requires ValidFs(c.start) && ValidFs(s) && OnCourse(c, s, want, w)
    requires w.ls != [] && Walks.Top(w.ls).pending.None? && Lists(c.o, s, want[|want| - 1][0].value, names)
    ensures OnCourse(c, s, want, AfterList(w, names))
  {
    hide Removal.Good, Aligned;
    Placed(c, s, want, w);
    var top := Walks.Top(w.ls);
    StillAligned(c.start, want, w.ls, Walks.Top(AfterList(w, names).ls));
    if names.None? {
      Removal.GoodUnlisted(c.start.tree, c.at, c.o, w.ls, s.tree, w.removed, w.errs, w.ok);
    } else {
      Removal.GoodListed(c.start.tree, c.at, c.o, w.ls, s.tree, w.removed, w.errs, w.ok, names.value);
    }
  }

  lemma FineListed(c: Context, acts: seq<Act>, acts': seq<Act>, st: seq<Frame>, want: seq<Inodes>, w: Walk,
                   s: Fs, s': Fs, names: Option<seq<Name>>)
    requires Fine(c, acts, st, want, w, s) && ValidFs(c.start) && ValidFs(s')
    requires (forall ino :: WentInto(acts, ino) ==> WentInto(acts', ino)) && Removals(acts') == Removals(acts)
    requires Undisturbed(c) ==> s == s'
    requires w.ls != [] && Walks.Top(w.ls).pending.None? && |want| == |w.ls| && Singles(want)
    requires Lists(c.o, s', want[|want| - 1][0].value, names)
    ensures Fine(c, acts', st, want, AfterList(w, names), s')
    ensures Nearer(s'.tree, want, w.ls, s'.tree, want, AfterList(w, names).ls)
  {
    hide Told, Reported, Removals, OnCourse, Sound, Nearer;
    var top := Walks.Top(w.ls);
    SoundLater(acts, acts', c.root, st, want, w.ls);
    ReportedOn(acts, acts', w.removed, []);
    assert w.removed + [] == w.removed;
    var listed := if names.None? then [] else names.value;
    var d := PathOf(s'.tree, want[|want| - 1][0].value);
    ListedIsSound(acts', c.root, st, want, w.ls, s', d, listed, names.Some? && top.data);
    ListedIsNearer(s'.tree, want, w.ls, listed, names.Some? && top.data);
    ToldRelabelled(w, Walks.Level(top.path, Some(listed), names.Some? && top.data));
    if Undisturbed(c) {
      ListedIsOnCourse(c, s, want, w, names);
    }
  }

  /** The top level is listed, or noted as one that cannot be. */
  method ListTop(shared: SharedTree, levels: Stack, ghost before: map<nat, nat>, ghost at: Path, w: Walk) returns (w': Walk)
    requires Kept(shared, levels, before, at, w) && w.ls != [] && Walks.Top(w.ls).pending.None?
    modifies shared, shared.k`fs
    ensures Kept(shared, levels, before, at, w') && old(shared.turn) <= shared.turn && w'.ls != []
    ensures |levels.want| == |w.ls| == |w'.ls| && Singles(levels.want)
    ensures shared.turn == old(shared.turn) ==>
      Nearer(old(shared.k.fs.tree), levels.want, w.ls, shared.k.fs.tree, levels.want, w'.ls)
  {
    hide Fine, Reported, Removals, History, ValidFs, Stack.Valid, Stack.Rest, Nearer, Sane, WentInto;
    ghost var c, acts, s := ContextOf(shared, at), shared.acts, shared.k.fs;
    FineTop(c, acts, levels.stack, levels.want, w, s);
    TopIsOpen(levels);
    var names := shared.List(levels.Top().fds[0].value);
    FineListed(c, acts, shared.acts, levels.stack, levels.want, w, s, shared.k.fs, names);
    w' := AfterList(w, names);
  }

  // -------------------------------------------------------------------------
  // Taking a name
  // -------------------------------------------------------------------------

  ghost predicate Absent(s: Fs, up: nat, name: Name) {
    var p := Place(s, up, name);
    p.None? || p.value !in s.tree
  }

  lemma GoneIsAbsent(s: Fs, up: nat, name: Name)
    requires ValidFs(s) && Place(s, up, name).Some?
    ensures ValidFs(Removed(s, Place(s, up, name).value)) && Absent(Removed(s, Place(s, up, name).value), up, name)
  {
    var s' := Removed(s, Place(s, up, name).value);
    RemovedIsValid(s, Place(s, up, name).value);
    StillThere(s, s', up);
  }

  /** What became of a name: nothing was there, a call failed, it was
      unlinked, or it is a directory that is now open. */
  datatype Fate = Skipped | Denied | Unlinked | Descended(fd: nat)

  /** What the calls say of an entry, in a tree that stays as it is between
      them: the same as Removal's walk takes them to say. */
  ghost predicate Answers(o: Obstacles, s: Fs, p: Option<Path>, r: Fate, inner: nat, s': Fs) {
    if p.None? || p.value !in s.tree then r.Skipped? && s' == s
    else if p.value in o.noStat || p.value in (if s.tree[p.value].Dir? then o.noOpen else o.noUnlink) then
      r.Denied? && s' == s
    else if s.tree[p.value].Dir? then r.Descended? && s' == s && s.tree[p.value].dir.ino == inner
    else r.Unlinked? && s' == Removed(s, p.value)
  }

  method TryName(shared: SharedTree, fd: nat, name: Name) returns (r: Fate, ghost inner: nat)
    requires shared.Valid() && fd in shared.k.fds && ValidName(name)
    requires Reach(shared.acts, shared.top, shared.root, shared.k.fds[fd], name)
    modifies shared, shared.k
    ensures shared.Valid() && shared.Onwards(if r.Unlinked? then [name] else [])
    ensures AtMost(shared.k.most, old(shared.k.most), |old(shared.k.fds)| + 2)
    ensures old(shared.Quiet()) ==>
      Answers(shared.o, old(shared.k.fs), Place(old(shared.k.fs), old(shared.k.fds)[fd], name), r, inner, shared.k.fs)
    ensures r.Skipped? || r.Unlinked? ==> Absent(shared.k.fs, old(shared.k.fds)[fd], name)
    ensures !r.Descended? ==> shared.k.fds == old(shared.k.fds)
    ensures r.Descended? ==>
      r.fd !in old(shared.k.fds) && shared.k.fds == old(shared.k.fds)[r.fd := inner] && WentInto(shared.acts, inner)
  {
    hide History, ValidFs, Sane, WentInto;
    inner := 0;
    var found := shared.Look(fd, name);
    if found.Gone? {
      r := Skipped;
    } else if found.Unseen? {
      r := Denied;
    } else if !found.node.Dir? {
      var done, was := shared.Unlink(fd, name);
      if done.Went? {
        GoneIsAbsent(was, shared.k.fds[fd], name);
      }
      r := if done.Went? then Unlinked else if done.Missing? then Skipped else Denied;
    } else {
      var sub := shared.Open(fd, name);
      if sub.None? {
        r := Denied;
      } else {
        inner := shared.k.fds[sub.value];
        r := Descended(sub.value);
      }
    }
  }

  function AfterTake(w: Walk, r: Fate): Walk
    requires Walks.HasNext(w.ls)
  {
    var top := Walks.Top(w.ls);
    var child := Walks.Next(top);
    match r
    case Skipped => w.(ls := Walks.TakeNext(w.ls, top.data))
    case Denied => w.(ls := Walks.TakeNext(w.ls, false), errs := w.errs + [child])
    case Unlinked => w.(ls := Walks.TakeNext(w.ls, top.data), removed := w.removed + [child])
    case Descended(_) => w.(ls := Walks.TakeNext(w.ls, top.data) + [Walks.Level(child, None, true)])
  }

  function WantAfterTake(want: seq<Inodes>, r: Fate, inner: nat): seq<Inodes> {
    if r.Descended? then want + [[Some(inner), None]] else want
  }

  lemma LeafGoesAlone(s: Fs, p: Path)
    requires ValidFs(s) && p in s.tree && !s.tree[p].Dir?
    ensures Removed(s, p).tree == s.tree - {p}
  {
    forall q | q in s.tree && p <= q
      ensures q == p
    {
      if q != p {
        AncestorsAreDirs(s.tree, p, q);
      }
    }
  }

  /** The top level's next name, as the calls see it. */
  lemma NextIsThere(c: Context, s: Fs, want: seq<Inodes>, w: Walk)
    requires ValidFs(c.start) && ValidFs(s) && OnCourse(c, s, want, w) && Walks.HasNext(w.ls)
    ensures |want| == |w.ls|
    ensures var child := Walks.Next(Walks.Top(w.ls));
      && Place(s, want[|want| - 1][0].value, Leaf(child)) == Some(child)
      && child in s.tree && child in c.start.tree && s.tree[child] == c.start.tree[child]
  {
    hide Removal.Good;
    Placed(c, s, want, w);
    Removal.NextIsThere(c.start.tree, c.at, c.o, w.ls, s.tree, w.removed, w.errs, w.ok);
  }

  lemma TakenIsOnCourse(c: Context, s: Fs, want: seq<Inodes>, w: Walk, r: Fate, s': Fs, inner: nat)
    requires ValidFs(c.start) && ValidFs(s) && OnCourse(c, s, want, w)
    requires Walks.HasNext(w.ls) && |want| == |w.ls|
    requires var p := Place(s, want[|want| - 1][0].value, Leaf(Walks.Next(Walks.Top(w.ls))));
      Answers(c.o, s, p, r, inner, s')
    ensures OnCourse(c, s', WantAfterTake(want, r, inner), AfterTake(w, r))
  {
    hide Removal.Good, ValidFs;
    var top := Walks.Top(w.ls);
    var child, t := Walks.Next(top), c.start.tree;
    NextIsThere(c, s, want, w);
    StillAligned(c.start, want, w.ls, Walks.Top(Walks.TakeNext(w.ls, top.data)));
    StillAligned(c.start, want, w.ls, Walks.Top(Walks.TakeNext(w.ls, false)));
    assert WellFormed(t) by {
      ValidIsWellFormed(c.start);
    }
    if r.Denied? {
      Removal.GoodStuck(t, c.at, c.o, w.ls, s.tree, w.removed, w.errs, w.ok);
    } else if r.Unlinked? {
      Removal.GoodUnlinked(t, c.at, c.o, w.ls, s.tree, w.removed, w.errs, w.ok);
      LeafGoesAlone(s, child);
    } else {
      Removal.GoodEntered(t, c.at, c.o, w.ls, s.tree, w.removed, w.errs, w.ok);
    }
  }

  lemma ValidIsWellFormed(s: Fs)
    requires ValidFs(s)
    ensures WellFormed(s.tree)
  {
  }

  lemma TakenIsSound(acts: seq<Act>, root: Name, st: seq<Frame>, st': seq<Frame>, want: seq<Inodes>, w: Walk, r: Fate, inner: nat)
    requires Sound(acts, root, st, want, w.ls) && Walks.HasNext(w.ls)
    requires if r.Descended? then WentInto(acts, inner) && SameOwners(st + [Frame([Some(r.fd), None], true)], st') else st' == st
    ensures Sound(acts, root, st', WantAfterTake(want, r, inner), AfterTake(w, r).ls)
  {
    var n, top := |w.ls| - 1, Walks.Top(w.ls);
    var names, child := top.pending.value, Walks.Next(top);
    assert Entry(acts, st[n], want[n], w.ls[n]);
    assert names[|names| - 1] in names;
    SoundRelabelled(acts, root, st, want, w.ls, Walks.Top(Walks.TakeNext(w.ls, top.data)));
    SoundRelabelled(acts, root, st, want, w.ls, Walks.Top(Walks.TakeNext(w.ls, false)));
    if r.Descended? {
      SoundPushed(acts, root, st, st', want, Walks.TakeNext(w.ls, top.data), Frame([Some(r.fd), None], true),
                  [Some(inner), None], Walks.Level(child, None, true));
    }
  }

  lemma TakenIsTold(w: Walk, r: Fate)
    requires Told(w) && Walks.HasNext(w.ls)
    ensures Told(AfterTake(w, r))
  {
    var top := Walks.Top(w.ls);
    ToldRelabelled(w, Walks.Top(Walks.TakeNext(w.ls, top.data)));
    ToldRelabelled(w, Walks.Top(Walks.TakeNext(w.ls, false)));
    if r.Descended? {
      var mid, ls' := Walks.TakeNext(w.ls, top.data), AfterTake(w, r).ls;
      assert Told(w.(ls := mid, removed := w.removed));
      assert forall i :: 0 <= i < |mid| ==> ls'[i] == mid[i];
      assert ls'[|mid|].data;
    }
  }

  lemma FineTaken(c: Context, acts: seq<Act>, acts': seq<Act>, st: seq<Frame>, st': seq<Frame>, want: seq<Inodes>, w: Walk,
                  s: Fs, s': Fs, r: Fate, inner: nat)
    requires Fine(c, acts, st, want, w, s) && ValidFs(c.start) && ValidFs(s)
    requires forall ino :: WentInto(acts, ino) ==> WentInto(acts', ino)
    requires Walks.HasNext(w.ls) && |want| == |w.ls| && Singles(want)
    requires Removals(acts') == Removals(acts) + if r.Unlinked? then [Leaf(Walks.Next(Walks.Top(w.ls)))] else []
    requires if r.Descended? then WentInto(acts', inner) && SameOwners(st + [Frame([Some(r.fd), None], true)], st') else st' == st
    requires Undisturbed(c) ==>
      var p := Place(s, want[|want| - 1][0].value, Leaf(Walks.Next(Walks.Top(w.ls))));
      Answers(c.o, s, p, r, inner, s')
    ensures Fine(c, acts', st', WantAfterTake(want, r, inner), AfterTake(w, r), s')
  {
    hide Told, Reported, Removals, OnCourse, Sound;
    SoundLater(acts, acts', c.root, st, want, w.ls);
    ReportedOn(acts, acts', w.removed, if r.Unlinked? then [Walks.Next(Walks.Top(w.ls))] else []);
    assert w.removed + [] == w.removed;
    TakenIsSound(acts', c.root, st, st', want, w, r, inner);
    TakenIsTold(w, r);
    if Undisturbed(c) {
      TakenIsOnCourse(c, s, want, w, r, s', inner);
    }
  }

  /** Whatever the calls answer, one name less is left. */
  lemma NearerTaken(o: Obstacles, want: seq<Inodes>, w: Walk, s: Fs, s': Fs, r: Fate, inner: nat)
    requires ValidFs(s) && ValidFs(s') && Walks.HasNext(w.ls) && |want| == |w.ls| && Singles(want)
    requires var p := Place(s, want[|want| - 1][0].value, Leaf(Walks.Next(Walks.Top(w.ls))));
      Answers(o, s, p, r, inner, s')
    ensures |WantAfterTake(want, r, inner)| == |AfterTake(w, r).ls| && Singles(WantAfterTake(want, r, inner))
    ensures Nearer(s.tree, want, w.ls, s'.tree, WantAfterTake(want, r, inner), AfterTake(w, r).ls)
  {
    hide Nearer, ValidFs;
    var top := Walks.Top(w.ls);
    if r.Descended? {
      EnteredIsNearer(s, want, w.ls, [Some(inner), None], Walks.Next(top), top.data, true);
    } else {
      TakenIsNearer(s, want, w.ls, s', !r.Denied? && top.data);
    }
  }

  /** A directory that was opened becomes the top level. */
  method PushTaken(levels: Stack, r: Fate, ghost inner: nat, unreadable: nat -> set<nat>, ghost was: map<nat, nat>)
    requires levels.ValidAt(was)
    requires if r.Descended? then r.fd !in was && levels.k.fds == was[r.fd := inner] else levels.k.fds == was
    modifies levels, levels.k`fds
    ensures levels.Valid() && levels.want == WantAfterTake(old(levels.want), r, inner)
    ensures levels.Rest() == Unheld(old(levels.stack), was)
    ensures if r.Descended? then SameOwners(old(levels.stack) + [Frame([Some(r.fd), None], true)], levels.stack)
            else levels.stack == old(levels.stack)
    ensures (forall ino :: unreadable(ino) == {}) && old(levels.Within()) ==> levels.Within()
  {
    AsItWas(levels, was);
    hide Stack.Valid, Stack.ValidAt, Stack.Rest, Unheld, SameOwners, Stack.Within;
    if r.Descended? {
      levels.PushOpened(r.fd, unreadable(levels.k.fds[r.fd]), was);
    }
  }

  lemma AsItWas(levels: Stack, was: map<nat, nat>)
    requires levels.ValidAt(was)
    ensures levels.k.fds == was ==> levels.Valid() && levels.Rest() == Unheld(levels.stack, was)
  {
  }

  /** The next name is unlinked, descended into, noted or passed over. */
  method TakeTop(shared: SharedTree, levels: Stack, ghost before: map<nat, nat>, ghost at: Path, w: Walk, unreadable: nat -> set<nat>)
    returns (w': Walk)
    requires Kept(shared, levels, before, at, w) && Walks.HasNext(w.ls)
    modifies shared, shared.k, levels
    ensures Kept(shared, levels, before, at, w') && old(shared.turn) <= shared.turn && w'.ls != []
    ensures (forall ino :: unreadable(ino) == {}) && old(levels.Within()) ==> levels.Within()
    ensures AtMost(shared.k.most, old(shared.k.most), |old(shared.k.fds)| + 2)
    ensures |old(levels.want)| == |w.ls| && |levels.want| == |w'.ls| && Singles(old(levels.want)) && Singles(levels.want)
    ensures shared.turn == old(shared.turn) ==>
      Nearer(old(shared.k.fs.tree), old(levels.want), w.ls, shared.k.fs.tree, levels.want, w'.ls)
  {
    hide Fine, Reported, Removals, History, ValidFs, Stack.Valid, Stack.ValidAt, Stack.Rest, Unheld, Nearer, Sane, WentInto,
      Answers, Absent, Place, AfterTake, SameOwners, Stack.Within, AtMost, SharedTree.Valid, Undisturbed;
    ghost var c, acts, s := ContextOf(shared, at), shared.acts, shared.k.fs;
    SharedIsValid(shared, at);
    ghost var st, want := levels.stack, levels.want;
    FineTop(c, acts, st, want, w, s);
    TopIsOpen(levels);
    ghost var was := levels.k.fds;
    AsItIs(levels);
    var r, inner := TryName(shared, levels.Top().fds[0].value, Leaf(Walks.Next(Walks.Top(w.ls))));
    PushTaken(levels, r, inner, unreadable, was);
    SharedIsValid(shared, at);
    FineTaken(c, acts, shared.acts, st, levels.stack, want, w, s, shared.k.fs, r, inner);
    w' := AfterTake(w, r);
    FineTop(c, shared.acts, levels.stack, levels.want, w', shared.k.fs);
    if old(shared.Quiet()) {
      NearerTaken(c.o, want, w, s, shared.k.fs, r, inner);
    }
  }

  // -------------------------------------------------------------------------
  // Leaving a level
  // -------------------------------------------------------------------------

  /** What rmdir does to the entry at p, and whether it goes. */
  ghost predicate Leaves(o: Obstacles, s: Fs, p: Option<Path>, went: bool, s': Fs) {
    && (went <==> p.Some? && IsDir(s.tree, p.value) && ChildNames(s.tree, p.value) == {} && p.value !in o.noUnlink)
    && s' == if went then Removed(s, p.value) else s
  }

  function AfterLeave(w: Walk, went: bool): Walk
    requires w.ls != []
  {
    var top, up := Walks.Top(w.ls), Walks.Below(w.ls);
    var gone := top.data && went;
    Walk(if gone || up == [] then up else Walks.WithTop(up, Walks.Top(up).(data := false)),
         if gone then w.removed + [top.path] else w.removed,
         if top.data && !went then w.errs + [top.path] else w.errs,
         w.ok && gone)
  }

  /** The inode of the directory the top level is an entry of. */
  ghost function Upper(c: Context, want: seq<Inodes>): nat
    requires |want| > 0 && Singles(want)
  {
    if |want| == 1 then c.top else
      assert Single(want[|want| - 2]);
      want[|want| - 2][0].value
  }

  lemma LeavingPlace(c: Context, s: Fs, want: seq<Inodes>, w: Walk)
    requires ValidFs(c.start) && ValidFs(s) && OnCourse(c, s, want, w) && Undisturbed(c) && w.ls != []
    ensures |want| == |w.ls|
    ensures var path := Walks.Top(w.ls).path;
      path != [] && Place(s, Upper(c, want), Leaf(path)) == Some(path) && IsDir(s.tree, path)
  {
    hide Removal.Good;
    Removal.GoodLevels(c.start.tree, c.at, c.o, w.ls, s.tree, w.removed, w.errs, w.ok);
    if |want| == 1 {
      assert !(c.at <= Parent(c.at));
      DirIsAt(s, Parent(c.at));
      assert c.at == Parent(c.at) + [Leaf(c.at)];
    } else {
      Placed(c, s, want, w);
      TopIsInside(c, s, want, w);
      var path := Walks.Top(w.ls).path;
      assert path == Parent(path) + [Leaf(path)];
    }
  }

  lemma DirGoesAlone(s: Fs, p: Path)
    requires forall q :: q in s.tree ==> !(p < q)
    ensures Removed(s, p).tree == s.tree - {p} && ChildNames(s.tree, p) == {}
  {
    forall q | q in s.tree && p <= q
      ensures q == p
    {
      assert !(p < q);
    }
    forall n
      ensures n !in ChildNames(s.tree, p)
    {
      ChildNamesExact(s.tree, p, n);
      assert p < p + [n];
    }
  }

  lemma LeftIsOnCourse(c: Context, s: Fs, want: seq<Inodes>, w: Walk, went: bool, s': Fs)
    requires ValidFs(c.start) && ValidFs(s) && OnCourse(c, s, want, w) && Undisturbed(c)
    requires w.ls != [] && Walks.Top(w.ls).pending == Some([]) && want != []
    requires var path := Walks.Top(w.ls).path;
      path != [] && if Walks.Top(w.ls).data then Leaves(c.o, s, Place(s, Upper(c, want), Leaf(path)), went, s') else s' == s
    ensures OnCourse(c, s', want[..|want| - 1], AfterLeave(w, went))
  {
    hide Removal.Good, ValidFs, WellFormed, Aligned, Undisturbed;
    var top, t := Walks.Top(w.ls), c.start.tree;
    LeavingPlace(c, s, want, w);
    AlignedBelow(c.start, want, w.ls);
    ValidIsWellFormed(c.start);
    if top.data && top.path !in c.o.noUnlink {
      Removal.GoodRemoved(t, c.at, c.o, w.ls, s.tree, w.removed, w.errs, w.ok);
      DirGoesAlone(s, top.path);
    } else {
      Removal.GoodLeft(t, c.at, c.o, w.ls, s.tree, w.removed, w.errs, w.ok);
    }
  }

  lemma LeftIsSound(acts: seq<Act>, root: Name, st: seq<Frame>, st': seq<Frame>, want: seq<Inodes>, w: Walk, went: bool)
    requires Sound(acts, root, st, want, w.ls) && w.ls != [] && SameOwners(st[..|w.ls| - 1], st')
    ensures Sound(acts, root, st', want[..|w.ls| - 1], AfterLeave(w, went).ls)
  {
    var up := Walks.Below(w.ls);
    SoundPopped(acts, root, st, st', want, w.ls);
    if up != [] {
      var n := |up| - 1;
      assert Entry(acts, st'[n], want[..|up|][n], up[n]);
      SoundRelabelled(acts, root, st', want[..|up|], up, Walks.Top(up).(data := false));
    }
  }

  lemma LeftIsTold(w: Walk, went: bool)
    requires Told(w) && w.ls != []
    ensures Told(AfterLeave(w, went))
  {
    var up, w' := Walks.Below(w.ls), AfterLeave(w, went);
    assert forall i :: 0 <= i < |up| ==> up[i] == w.ls[i];
    assert w.ls[|up|] == Walks.Top(w.ls);
  }

  lemma FineLeft(c: Context, acts: seq<Act>, acts': seq<Act>, st: seq<Frame>, st': seq<Frame>, want: seq<Inodes>, w: Walk,
                 s: Fs, s': Fs, went: bool)
    requires Fine(c, acts, st, want, w, s) && ValidFs(c.start) && ValidFs(s)
    requires forall ino :: WentInto(acts, ino) ==> WentInto(acts', ino)
    requires w.ls != [] && Walks.Top(w.ls).pending == Some([]) && |want| == |w.ls| == |st| && Singles(want)
    requires Walks.Top(w.ls).path != [] &&
      Removals(acts') == Removals(acts) + if Walks.Top(w.ls).data && went then [Leaf(Walks.Top(w.ls).path)] else []
    requires SameOwners(st[..|st| - 1], st')
    requires var path := Walks.Top(w.ls).path;
      Undisturbed(c) ==>
        path != [] && if Walks.Top(w.ls).data then Leaves(c.o, s, Place(s, Upper(c, want), Leaf(path)), went, s') else s' == s
    ensures Fine(c, acts', st', want[..|want| - 1], AfterLeave(w, went), s')
  {
    hide Told, Reported, Removals, OnCourse, Sound, Leaves;
    SoundLater(acts, acts', c.root, st, want, w.ls);
    ReportedOn(acts, acts', w.removed, if Walks.Top(w.ls).data && went then [Walks.Top(w.ls).path] else []);
    assert w.removed + [] == w.removed;
    LeftIsSound(acts', c.root, st, st', want, w, went);
    LeftIsTold(w, went);
    if Undisturbed(c) {
      LeftIsOnCourse(c, s, want, w, went, s');
    }
  }

  lemma NearerLeft(o: Obstacles, want: seq<Inodes>, w: Walk, s: Fs, p: Option<Path>, s': Fs, went: bool)
    requires ValidFs(s) && ValidFs(s') && |want| == |w.ls| && Singles(want)
    requires w.ls != [] && Walks.Top(w.ls).pending == Some([])
    requires |w.ls| > 1 ==> Walks.Top(Walks.Below(w.ls)).pending.Some?
    requires if Walks.Top(w.ls).data then Leaves(o, s, p, went, s') else s' == s
    ensures |want[..|want| - 1]| == |AfterLeave(w, went).ls| && Singles(want[..|want| - 1])
    ensures Nearer(s.tree, want, w.ls, s'.tree, want[..|want| - 1], AfterLeave(w, went).ls)
  {
    hide Nearer, ValidFs;
    LeftIsNearer(s, want, w.ls, s', Walks.Top(w.ls).data && went);
  }

  lemma HeldByOne(f: Frame, fds: map<nat, nat>, fd: nat)
    requires f.fds == [Some(fd), None] && fd in fds
    ensures HeldBy(f, fds) == map[fd := fds[fd]]
  {
  }

  /** Nobody acts. */
  function Untouched(s: Fs): Fs {
    s
  }

  /** The level is popped, and its own descriptor closed once the level under
      it is back. When that one has been moved away the walk is over, and
      all it still holds is closed. With one descriptor a level there is one
      call that looks at the tree, the open of "..", and none between which
      others could act: what fstat says of an open descriptor does not change. */
  method PopAndClose(levels: Stack, ghost before: map<nat, nat>) returns (back: bool)
    requires levels.Valid() && levels.stack != [] && levels.Rest() == before && ValidFs(levels.k.fs)
    requires levels.want != [] && Singles(levels.want) && forall i :: 0 <= i < |levels.stack| ==> levels.stack[i].owned
    modifies levels, levels.k`fds, levels.k`most, levels.k`fs
    ensures levels.k.fs == old(levels.k.fs)
    ensures AtMost(levels.k.most, old(levels.k.most), |old(levels.k.fds)| + 2)
    ensures |levels.stack| == |old(levels.stack)| - 1 == |levels.want|
    ensures back ==> levels.Valid() && levels.Rest() == before && levels.want == old(levels.want)[..|levels.stack|]
    ensures back && old(levels.Within()) ==> levels.Within()
    ensures back ==> SameOwners(old(levels.stack)[..|levels.stack|], levels.stack)
    ensures !back ==> levels.k.fds == before
    ensures var n := |levels.stack|;
      n == 0 || Beneath(levels.k.fs.tree, old(levels.want)[n - 1], old(levels.want)[n]) ==> back
  {
    hide ValidFs, Inside, SlotOwn, SlotRight, Unused, Own, HeldBy, Unheld, Stack.Within, AtMost, Beneath;
    TopIsOpen(levels);
    ghost var fds := levels.k.fds;
    var fd := levels.Top().fds[0].value;
    var frame;
    frame, back := levels.Pop(Untouched);
    assert levels.stack != [] ==> Single(levels.want[|levels.want| - 1]);
    HeldByOne(frame, fds, fd);
    levels.CloseApart(fd);
    assert levels.Rest() == before;
    if !back {
      levels.CloseFrames();
    }
  }

  /** The directory emptied is removed from the level under it, or from the
      caller's directory. */
  method RemoveEmptied(shared: SharedTree, levels: Stack, dirFd: nat, name: Name) returns (went: bool)
    requires shared.Valid() && levels.Valid() && levels.k == shared.k && ValidName(name)
    requires dirFd in levels.k.fds && shared.k.fds[dirFd] == shared.top && (levels.stack == [] ==> shared.root == Some(name))
    requires levels.stack != [] ==>
      var w := levels.want[|levels.want| - 1]; Single(w) && WentInto(shared.acts, w[0].value)
    modifies shared, shared.k`fs
    ensures shared.Valid() && shared.Onwards(if went then [name] else [])
    ensures var up := if levels.stack == [] then shared.top else levels.want[|levels.want| - 1][0].value;
      && (old(shared.Quiet()) ==>
            Leaves(shared.o, old(shared.k.fs), Place(old(shared.k.fs), up, name), went, shared.k.fs))
      && (went ==> Absent(shared.k.fs, up, name))
  {
    hide History, ValidFs, Sane, WentInto, SlotOwn, SlotRight, Unused;
    var parent := dirFd;
    if levels.stack != [] {
      TopIsOpen(levels);
      parent := levels.Top().fds[0].value;
    }
    var done, was := shared.Rmdir(parent, name);
    went := done.Went?;
    if went {
      GoneIsAbsent(was, shared.k.fds[parent], name);
    }
  }

  lemma RestIsOpen(levels: Stack)
    ensures forall fd :: fd in levels.Rest() ==> fd in levels.k.fds && levels.k.fds[fd] == levels.Rest()[fd]
  {
  }

  lemma FineIsInside(c: Context, acts: seq<Act>, st: seq<Frame>, want: seq<Inodes>, w: Walk, s: Fs)
    requires Fine(c, acts, st, want, w, s) && ValidFs(s) && Undisturbed(c) && |want| > 1
    ensures Beneath(s.tree, want[|want| - 2], want[|want| - 1])
  {
    TopIsInside(c, s, want, w);
  }

  /** The level has been popped; acts, st, want and s are from before. */
  method LeavePopped(shared: SharedTree, levels: Stack, dirFd: nat, ghost before: map<nat, nat>, ghost at: Path, w: Walk,
                     ghost acts: seq<Act>, ghost st: seq<Frame>, ghost want: seq<Inodes>, ghost s: Fs)
    returns (w': Walk)
    requires Fine(ContextOf(shared, at), acts, st, want, w, s) && ValidFs(s)
    requires w.ls != [] && Walks.Top(w.ls).pending == Some([])
    requires shared.Valid() && shared.root.Some? && levels.Valid() && levels.k == shared.k && levels.Rest() == before
    requires dirFd in before && before[dirFd] == shared.top
    requires |levels.stack| == |want| - 1 && levels.want == want[..|want| - 1] && SameOwners(st[..|want| - 1], levels.stack)
    requires (forall ino :: WentInto(acts, ino) ==> WentInto(shared.acts, ino)) && Removals(shared.acts) == Removals(acts)
    requires shared.others == [] ==> s == shared.k.fs
    modifies shared, shared.k`fs
    ensures Kept(shared, levels, before, at, w') && old(shared.turn) <= shared.turn
    ensures w'.ls == [] && w'.ok ==> Absent(shared.k.fs, shared.top, shared.EntryName())
    ensures |want| == |w.ls| && Singles(want) && |levels.want| == |w'.ls| && Singles(levels.want)
    ensures old(shared.Quiet()) && s == old(shared.k.fs) ==>
      Nearer(s.tree, want, w.ls, shared.k.fs.tree, levels.want, w'.ls)
  {
    hide Fine, Reported, Removals, History, ValidFs, Stack.Valid, Stack.Rest, Unheld, Nearer, Sane, WentInto, Leaves, Absent, Place;
    ghost var c := ContextOf(shared, at);
    FineTop(c, acts, st, want, w, s);
    var top := Walks.Top(w.ls);
    var went := false;
    RestIsOpen(levels);
    if top.data {
      went := RemoveEmptied(shared, levels, dirFd, Leaf(top.path));
    }
    w' := AfterLeave(w, went);
    FineLeft(c, acts, shared.acts, st, levels.stack, want, w, s, shared.k.fs, went);
    if old(shared.Quiet()) && s == old(shared.k.fs) {
      NearerLeft(c.o, want, w, s, Place(s, Upper(c, want), Leaf(top.path)), shared.k.fs, went);
    }
  }

  /** The top level is done with. `lost` when the level under it has been
      moved away, and the walk with it. */
  method LeaveTop(shared: SharedTree, levels: Stack, dirFd: nat, ghost before: map<nat, nat>, ghost at: Path, w: Walk)
    returns (w': Walk, lost: bool)
    requires Kept(shared, levels, before, at, w) && w.ls != [] && Walks.Top(w.ls).pending == Some([])
    requires dirFd in before && before[dirFd] == shared.top
    modifies shared, shared.k, levels
    ensures shared.Valid() && old(shared.turn) <= shared.turn
    ensures lost ==> shared.k.fds == before && Told(w') && w'.ls == [] && !w'.ok && Reported(shared.acts, w'.removed)
    ensures !lost ==> Kept(shared, levels, before, at, w')
    ensures Undisturbed(ContextOf(shared, at)) ==> !lost
    ensures !lost && old(levels.Within()) ==> levels.Within()
    ensures AtMost(shared.k.most, old(shared.k.most), |old(shared.k.fds)| + 2)
    ensures w'.ls == [] && w'.ok ==> Absent(shared.k.fs, shared.top, shared.EntryName())
    ensures |old(levels.want)| == |w.ls| && Singles(old(levels.want))
    ensures !lost ==> |levels.want| == |w'.ls| && Singles(levels.want)
    ensures !lost && shared.turn == old(shared.turn) ==>
      Nearer(old(shared.k.fs.tree), old(levels.want), w.ls, shared.k.fs.tree, levels.want, w'.ls)
  {
    hide Fine, Reported, Removals, History, ValidFs, Stack.Valid, Stack.ValidAt, Stack.Rest, Unheld, Nearer, Sane, WentInto, Leaves, Absent, Place,
      Inside, Beneath, Own, Stack.Within, AtMost;
    ghost var c, acts, s := ContextOf(shared, at), shared.acts, shared.k.fs;
    ghost var st, want := levels.stack, levels.want;
    FineTop(c, acts, st, want, w, s);
    var top := Walks.Top(w.ls);
    shared.OthersAct();
    if Undisturbed(c) && |want| > 1 {
      FineIsInside(c, acts, st, want, w, s);
    }
    var back := PopAndClose(levels, before);
    if !back {
      ReportedOn(acts, shared.acts, w.removed, []);
      assert w.removed + [] == w.removed;
      return Walk([], w.removed, w.errs + [top.path], false), true;
    }
    w' := LeavePopped(shared, levels, dirFd, before, at, w, acts, st, want, s);
    lost := false;
  }

  // -------------------------------------------------------------------------
  // The whole removal
  // -------------------------------------------------------------------------

  /** Every level in its turn, until none is left. */
  method Descend(shared: SharedTree, levels: Stack, dirFd: nat, unreadable: nat -> set<nat>,
                 ghost before: map<nat, nat>, ghost at: Path, w0: Walk)
    returns (w: Walk)
    requires Kept(shared, levels, before, at, w0) && w0.ls != []
    requires dirFd in before && before[dirFd] == shared.top && levels.Within()
    modifies shared, shared.k, levels
    ensures (forall ino :: unreadable(ino) == {}) ==>
      AtMost(shared.k.most, old(shared.k.most), |before| + Max(levels.budget, 2) + 3)
    ensures shared.Valid() && shared.k.fds == before && w.ls == [] && (w.ok <==> w.errs == [])
    ensures Reported(shared.acts, w.removed)
    ensures w.ok ==> Absent(shared.k.fs, shared.top, shared.EntryName())
    ensures Undisturbed(ContextOf(shared, at)) ==> OnCourse(ContextOf(shared, at), shared.k.fs, [], w)
  {
    hide Fine, Reported, Removals, History, ValidFs, Stack.Valid, Stack.ValidAt, Stack.Rest, Unheld, Sane, WentInto, Absent, Undisturbed, Weight,
      Stack.Within;
    w := w0;
    ghost var c := ContextOf(shared, at);
    FineTop(c, shared.acts, levels.stack, levels.want, w, shared.k.fs);
    while w.ls != []
      invariant Kept(shared, levels, before, at, w)
      invariant |levels.want| == |w.ls| && Singles(levels.want)
      invariant w.ls == [] && w.ok ==> Absent(shared.k.fs, shared.top, shared.EntryName())
      invariant (forall ino :: unreadable(ino) == {}) ==>
        levels.Within() && AtMost(shared.k.most, old(shared.k.most), |before| + Max(levels.budget, 2) + 3)
      decreases |shared.others| - shared.turn, Weight(shared.k.fs.tree, levels.want, w.ls), Unlisted(w.ls), Outstanding(w.ls)
    {
      if forall ino :: unreadable(ino) == {} {
        OpenAreFew(levels);
      }
      var top := Walks.Top(w.ls);
      if top.pending.None? {
        w := ListTop(shared, levels, before, at, w);
      } else if top.pending.value == [] {
        var lost;
        w, lost := LeaveTop(shared, levels, dirFd, before, at, w);
        if lost {
          return;
        }
      } else {
        w := TakeTop(shared, levels, before, at, w, unreadable);
      }
    }
    Finish(levels, c, shared.acts, w, shared.k.fs);
  }

  lemma Finish(levels: Stack, c: Context, acts: seq<Act>, w: Walk, s: Fs)
    requires levels.Valid() && Fine(c, acts, levels.stack, levels.want, w, s) && w.ls == []
    ensures levels.k.fds == levels.Rest() && Told(w) && Reported(acts, w.removed)
    ensures Undisturbed(c) ==> OnCourse(c, s, [], w)
  {
    assert levels.stack == [] && levels.want == [];
  }

  /** What RmtreeAt of Removal, on paths, promises. */
  ghost predicate AsOnPaths(t: FsTree, at: Path, o: Obstacles, cur: FsTree, w: Walk) {
    && cur == Removal.Remaining(t, at, o)
    && (w.ok <==> forall p :: p in cur ==> !(at <= p))
    && Removal.ChildrenFirst(w.removed)
    && (forall p :: p in w.removed <==> p in t && p !in cur)
    && (forall p :: p in w.errs ==> Removal.Stuck(t, o, p))
  }

  lemma EndsAsOnPaths(c: Context, s: Fs, w: Walk)
    requires ValidFs(c.start) && OnCourse(c, s, [], w) && w.ls == [] && IsDir(c.start.tree, c.at)
    ensures AsOnPaths(c.start.tree, c.at, c.o, s.tree, w)
  {
    Removal.Finished(c.start.tree, c.at, c.o, s.tree, w.removed, w.errs, w.ok);
  }

  lemma RootIsPlaced(c: Context)
    requires Undisturbed(c)
    ensures Place(c.start, c.top, c.root) == Some(c.at)
  {
    assert c.at == Parent(c.at) + [Leaf(c.at)];
  }

  /** The root itself settles it. */
  function AtOnce(at: Path, r: Fate): Walk {
    Walk([], if r.Unlinked? then [at] else [], if r.Denied? then [at] else [], !r.Denied?)
  }

  lemma EndsAtOnce(c: Context, r: Fate, inner: nat, s: Fs)
    requires ValidFs(c.start) && Undisturbed(c) && !r.Descended?
    requires Answers(c.o, c.start, Place(c.start, c.top, c.root), r, inner, s)
    ensures AsOnPaths(c.start.tree, c.at, c.o, s.tree, AtOnce(c.at, r))
  {
    var t := c.start.tree;
    RootIsPlaced(c);
    if r.Skipped? {
      Removal.AbsentRoot(t, c.at, c.o);
    } else if r.Denied? {
      Removal.RootIsStuck(t, c.at, c.o);
      assert c.at in s.tree && c.at <= c.at;
    } else {
      Removal.RootIsAlone(t, c.at, c.o);
      LeafGoesAlone(c.start, c.at);
    }
  }

  lemma FineAtStart(c: Context, acts: seq<Act>, st: seq<Frame>, inner: nat, s: Fs, fd: nat)
    requires ValidFs(c.start) && c.at != [] && Leaf(c.at) == c.root && ValidName(c.root)
    requires Removals(acts) == [] && WentInto(acts, inner) && SameOwners([Frame([Some(fd), None], true)], st)
    requires Undisturbed(c) ==> Answers(c.o, c.start, Place(c.start, c.top, c.root), Descended(fd), inner, s)
    ensures Fine(c, acts, st, [[Some(inner), None]], Walk([Walks.Level(c.at, None, true)], [], [], true), s)
    ensures Undisturbed(c) ==> IsDir(c.start.tree, c.at)
  {
    var l, w: Inodes := Walks.Level(c.at, None, true), [Some(inner), None];
    assert Entry(acts, Frame([Some(fd), None], true), w, l);
    SoundPushed(acts, c.root, [], st, [], [], Frame([Some(fd), None], true), w, l);
    assert [] + [w] == [w] && [] + [l] == [l];
    if Undisturbed(c) {
      RootIsPlaced(c);
      Removal.GoodAtStart(c.start.tree, c.at, c.o);
    }
  }

  /** Whatever others do meanwhile: the walk ends with the descriptors it
      began with; all it changed is on record and permitted (SharedTree.Valid
      and OutsideIsUntouched); it is a success exactly when nothing was
      reported, and then the name is gone. And when nobody else does
      anything, it does what the walk on paths does, however few descriptors
      it is given. */
  method RmtreeAt(shared: SharedTree, dirFd: nat, name: Name, at: Path, budget: nat, unreadable: nat -> set<nat>)
    returns (w: Walk)
    requires shared.Valid() && shared.acts == [] && dirFd in shared.k.fds && shared.k.fds[dirFd] == shared.top
    requires shared.root == Some(name) && ValidName(name) && at != [] && Leaf(at) == name
    modifies shared, shared.k
    ensures shared.Valid() && shared.k.fds == old(shared.k.fds)
    ensures (forall ino :: unreadable(ino) == {}) ==>
      shared.k.most <= old(shared.k.most) || shared.k.most <= |old(shared.k.fds)| + (if budget < 2 then 2 else budget) + 3
    ensures (w.ok <==> w.errs == []) && Reported(shared.acts, w.removed)
    ensures w.ok ==> Absent(shared.k.fs, shared.top, name)
    ensures shared.others == [] && PathOf(old(shared.k.fs).tree, shared.top) == Some(Parent(at)) ==>
      AsOnPaths(old(shared.k.fs).tree, at, shared.o, shared.k.fs.tree, w)
  {
    hide Fine, Removals, ValidFs, Stack.ValidAt, Stack.Rest, Sane, WentInto, Absent, AsOnPaths, Answers, Told, OnCourse, Place, History;
    ghost var before, c := shared.k.fds, ContextOf(shared, at);
    SharedIsValid(shared, at);
    var r, inner := TryName(shared, dirFd, name);
    if !r.Descended? {
      w := AtOnce(at, r);
      if Undisturbed(c) {
        EndsAtOnce(c, r, inner, shared.k.fs);
      }
      return;
    }
    var levels := new Stack(shared.k, budget);
    EmptyIsValid(levels, before);
    levels.PushOpened(r.fd, unreadable(shared.k.fds[r.fd]), before);
    w := Walk([Walks.Level(at, None, true)], [], [], true);
    assert levels.want == [[Some(inner), None]];
    FineAtStart(c, shared.acts, levels.stack, inner, shared.k.fs, r.fd);
    w := Descend(shared, levels, dirFd, unreadable, before, at, w);
    if Undisturbed(c) {
      EndsAsOnPaths(c, shared.k.fs, w);
    }
  }

  lemma EmptyIsValid(levels: Stack, fds: map<nat, nat>)
    requires levels.Valid() && levels.stack == []
    ensures levels.ValidAt(fds) && Unheld([], fds) == fds
  {
  }
}
