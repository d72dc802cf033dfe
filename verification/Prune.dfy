/** sync --delete: the third pass removes the destination entries the first
    two had no source counterpart for, and nothing they could not judge. */
module Prune {
  import opened Names
  import opened Trees
  import opened Resolver
  import opened Walks
  import opened Sync
  import opened Mirror

  type DTree = Tree<DirStat, nat>

  /** What the pass is told (src_rels, skipped_rels), and the entries it
      cannot stat, the directories it cannot open or list. */
  datatype View = View(rels: set<Path>, skipped: set<Path>, unseen: set<Path>, shutOut: set<Path>)

  /** Removals that fail, and what they took along before they did. */
  datatype Stuck = Stuck(whole: set<Path>, partly: set<Path>)

  /** A directory the pass walks: the source has it, and it was mirrored. */
  ghost predicate Walked(t: DTree, v: View, d: Path) {
    Visited(t, NotWalked(t, v), v.shutOut, d)
  }

  ghost function NotWalked(t: DTree, v: View): set<Path> {
    (t.Keys - v.rels) + v.skipped + v.unseen + v.shutOut
  }

  /** No counterpart in the source. */
  ghost predicate Extra(t: DTree, v: View, p: Path) {
    && p in t && p != [] && Walked(t, v, Parent(p)) && Parent(p) !in v.shutOut
    && p !in v.rels && p !in v.skipped && p !in v.unseen
  }

  ghost function AllExtras(t: DTree, v: View): set<Path> {
    set p | p in t && Extra(t, v, p)
  }

  lemma WalkedIsKnown(t: DTree, v: View, d: Path)
    requires Walked(t, v, d) && d != []
    ensures d in v.rels && d !in v.skipped && d !in v.unseen && d !in v.shutOut
    ensures Walked(t, v, Parent(d)) && Parent(d) !in v.shutOut
  {
  }

  /** Everything above what the pass walks is walked. */
  lemma {:induction false} WalkedAbove(t: DTree, v: View, d: Path, a: Path)
    requires Walked(t, v, d) && a <= d
    ensures Walked(t, v, a) && (a < d ==> a !in v.shutOut)
    decreases |d|
  {
    if a != d {
      assert a < d ==> a <= Parent(d);
      WalkedAbove(t, v, Parent(d), a);
    }
  }

  lemma NothingExtraBeyond(t: DTree, v: View, c: Path, p: Path)
    requires c < p && (!Walked(t, v, c) || c in v.shutOut)
    ensures !Extra(t, v, p)
  {
    if p in t && p != [] && Walked(t, v, Parent(p)) {
      assert c <= Parent(p);
      WalkedAbove(t, v, Parent(p), c);
    }
  }

  // -------------------------------------------------------------------------
  // _collect_extras_at
  // -------------------------------------------------------------------------

  ghost predicate WalkingOn<X>(t: DTree, v: View, ls: seq<Level<X>>) {
    && Chain(t, ls)
    && forall i :: 0 <= i < |ls| ==> Walked(t, v, ls[i].path) && (ls[i].pending.Some? && ls[i].pending.value != [] ==> ls[i].path !in v.shutOut)
  }

  ghost predicate ExtrasSoFar<X>(t: DTree, v: View, ls: seq<Level<X>>, extras: map<Path, bool>) {
    && (forall p :: p in extras <==> Extra(t, v, p) && p !in Ahead(t, ls))
    && (forall p :: p in extras ==> (extras[p] <==> IsDir(t, p)))
  }

  lemma ExtrasShut<X>(t: DTree, v: View, ls: seq<Level<X>>, extras: map<Path, bool>, x: X)
    requires WalkingOn(t, v, ls) && ExtrasSoFar(t, v, ls, extras) && ls != [] && Top(ls).pending.None? && Top(ls).path in v.shutOut
    ensures var ls' := WithTop(ls, Level(Top(ls).path, Some([]), x));
      WalkingOn(t, v, ls') && ExtrasSoFar(t, v, ls', extras) && Closer(t, ls, ls')
  {
    PassedOver(t, ls, x);
    forall p | p in t && Top(ls).path < p
      ensures !Extra(t, v, p)
    {
      NothingExtraBeyond(t, v, Top(ls).path, p);
    }
  }

  lemma ExtrasEnter<X>(t: DTree, v: View, ls: seq<Level<X>>, extras: map<Path, bool>, x: X)
    requires WalkingOn(t, v, ls) && ExtrasSoFar(t, v, ls, extras) && HasNext(ls)
    requires var c := Next(Top(ls)); c !in v.skipped && c !in v.unseen && c in v.rels && IsDir(t, c) && c !in v.shutOut
    ensures var ls' := TakeNext(ls, x) + [Level(Next(Top(ls)), None, x)];
      WalkingOn(t, v, ls') && ExtrasSoFar(t, v, ls', extras) && Closer(t, ls, ls')
  {
    var c := Next(Top(ls));
    Taken(t, ls, x);
    Entered(t, ls, x, x);
    assert Walked(t, v, c);
  }

  lemma ExtrasTaken<X>(t: DTree, v: View, ls: seq<Level<X>>, extras: map<Path, bool>, x: X)
    requires WalkingOn(t, v, ls) && ExtrasSoFar(t, v, ls, extras) && HasNext(ls)
    requires var c := Next(Top(ls)); !(c !in v.skipped && c !in v.unseen && c in v.rels && IsDir(t, c) && c !in v.shutOut)
    ensures var ls' := TakeNext(ls, x);
      var c := Next(Top(ls));
      && WalkingOn(t, v, ls') && Closer(t, ls, ls')
      && ExtrasSoFar(t, v, ls', if c !in v.skipped && c !in v.unseen && c !in v.rels then extras[c := IsDir(t, c)] else extras)
      && c !in extras
  {
    var c := Next(Top(ls));
    Taken(t, ls, x);
    OnlyTheTop(t, v, c);
    assert Walked(t, v, Top(ls).path) && Top(ls).path !in v.shutOut;
    assert Extra(t, v, c) <==> c !in v.skipped && c !in v.unseen && c !in v.rels;
    assert c in From(t, c);
  }

  lemma OnlyTheTop(t: DTree, v: View, c: Path)
    requires !(c !in v.skipped && c !in v.unseen && c in v.rels && IsDir(t, c) && c !in v.shutOut) && c != []
    ensures forall p :: p in From(t, c) && p != c ==> !Extra(t, v, p)
  {
    forall p | p in From(t, c) && p != c
      ensures !Extra(t, v, p)
    {
      assert c < p;
      NothingExtraBeyond(t, v, c, p);
    }
  }

  lemma ExtrasListed<X>(t: DTree, v: View, ls: seq<Level<X>>, extras: map<Path, bool>, names: seq<Name>, x: X)
    requires WellFormed(t) && WalkingOn(t, v, ls) && ExtrasSoFar(t, v, ls, extras) && ls != [] && Top(ls).pending.None?
    requires Top(ls).path !in v.shutOut
    requires NoDuplicates(names) && forall n :: n in names <==> n in ChildNames(t, Top(ls).path)
    ensures var ls' := WithTop(ls, Level(Top(ls).path, Some(names), x));
      WalkingOn(t, v, ls') && ExtrasSoFar(t, v, ls', extras) && Closer(t, ls, ls')
  {
    Listed(t, ls, names, x);
  }

  lemma ExtrasPopped<X>(t: DTree, v: View, ls: seq<Level<X>>, extras: map<Path, bool>)
    requires WalkingOn(t, v, ls) && ExtrasSoFar(t, v, ls, extras) && ls != [] && Top(ls).pending == Some([])
    ensures WalkingOn(t, v, Below(ls)) && ExtrasSoFar(t, v, Below(ls), extras) && Closer(t, ls, Below(ls))
  {
    Popped(t, ls);
  }

  lemma ExtrasStart<X>(t: DTree, v: View, x: X)
    requires WellFormed(t)
    ensures WalkingOn(t, v, [Level([], None, x)]) && ExtrasSoFar(t, v, [Level([], None, x)], map[])
  {
    Start(t, [], x);
    forall p | p in t && p != []
      ensures [] < p
    {
    }
  }

  method LookAtNext(t: DTree, v: View, ls: seq<Level<()>>, extras: map<Path, bool>)
    returns (ls': seq<Level<()>>, extras': map<Path, bool>)
    requires WalkingOn(t, v, ls) && ExtrasSoFar(t, v, ls, extras) && HasNext(ls)
    ensures WalkingOn(t, v, ls') && ExtrasSoFar(t, v, ls', extras') && Closer(t, ls, ls')
  {
    var child := Next(Top(ls));
    ls', extras' := TakeNext(ls, ()), extras;
    if child in v.skipped || child in v.unseen {
      ExtrasTaken(t, v, ls, extras, ());
    } else if child !in v.rels {
      ExtrasTaken(t, v, ls, extras, ());
      extras' := extras[child := IsDir(t, child)];
    } else if IsDir(t, child) && child !in v.shutOut {
      ExtrasEnter(t, v, ls, extras, ());
      ls' := ls' + [Level(child, None, ())];
    } else {
      ExtrasTaken(t, v, ls, extras, ());
    }
  }

  /** _collect_extras_at */
  method CollectExtras(t: DTree, v: View) returns (extras: map<Path, bool>)
    requires WellFormed(t)
    ensures forall p :: p in extras <==> Extra(t, v, p)
    ensures forall p :: p in extras ==> (extras[p] <==> IsDir(t, p))
  {
    extras := map[];
    var ls: seq<Level<()>> := [Level([], None, ())];
    ExtrasStart(t, v, ());
    while ls != []
      invariant WalkingOn(t, v, ls) && ExtrasSoFar(t, v, ls, extras)
      decreases Ahead(t, ls), Steps(ls)
    {
      var top := Top(ls);
      if top.pending.None? && top.path in v.shutOut {
        ExtrasShut(t, v, ls, extras, ());
        ls := WithTop(ls, Level(top.path, Some([]), ()));
      } else if top.pending.None? {
        var names := ListReversed(t, top.path);
        ExtrasListed(t, v, ls, extras, names, ());
        ls := WithTop(ls, Level(top.path, Some(names), ()));
      } else if top.pending.value == [] {
        ExtrasPopped(t, v, ls, extras);
        ls := Below(ls);
      } else {
        ls, extras := LookAtNext(t, v, ls, extras);
      }
    }
  }

  // -------------------------------------------------------------------------
  // _remove_extras_at
  // -------------------------------------------------------------------------

  /** Removing e takes p with it. */
  ghost predicate Killed(e: Path, p: Path, st: Stuck) {
    if e in st.whole then e < p && Buried(p, |e|, st.partly) else e <= p
  }

  ghost function Pruned(t: DTree, gone: set<Path>, st: Stuck): DTree {
    map p | p in t && !(exists e :: e in gone && Killed(e, p, st)) :: t[p]
  }

  /** An entry of the directory was removed, not merely tried. */
  ghost predicate Lost(gone: set<Path>, st: Stuck, x: Path) {
    exists e :: e in gone && e != [] && Parent(e) == x && e !in st.whole
  }

  /** A directory gets back the mode and the time it had, if the calls go
      through; a mode that cannot be set was not disturbed either. */
  ghost function LeftBy(o: Faults, t: DTree, gone: set<Path>, st: Stuck, now: int, p: Path): DNode
    requires p in t
  {
    if t[p].Dir? && p in o.noTimes && Lost(gone, st, p) then Dir(DirStat(t[p].dir.mode, now)) else t[p]
  }

  /** The tree the pass leaves. */
  ghost function Swept(o: Faults, t: DTree, gone: set<Path>, st: Stuck, now: int): DTree {
    map p | p in Pruned(t, gone, st) :: LeftBy(o, t, gone, st, now, p)
  }

  lemma SweptNothing(o: Faults, t: DTree, gone: set<Path>, st: Stuck, now: int)
    requires forall e :: e in gone ==> e in t && e != []
    ensures Swept(o, t, gone, st, now) == t <==> forall e, p :: e in gone && p in t ==> !Killed(e, p, st)
  {
    if e, p :| e in gone && p in t && Killed(e, p, st) {
      assert p !in Swept(o, t, gone, st, now);
    } else {
      forall e | e in gone
        ensures e in st.whole
      {
        assert !Killed(e, e, st);
      }
      assert Pruned(t, gone, st).Keys == t.Keys;
    }
  }

  ghost predicate AreExtra(t: DTree, v: View, gone: set<Path>) {
    forall e :: e in gone ==> Extra(t, v, e)
  }

  /** No extra entry stands above a walked directory, or above another. */
  lemma ExtrasStandApart(t: DTree, v: View, e: Path, p: Path)
    requires Extra(t, v, e) && e <= p
    ensures !Walked(t, v, p) && (Extra(t, v, p) ==> p == e)
  {
    if Walked(t, v, p) {
      WalkedAbove(t, v, p, e);
    }
    if p != e && Extra(t, v, p) {
      assert e <= Parent(p);
      WalkedAbove(t, v, Parent(p), e);
    }
  }

  lemma WalkedSurvives(t: DTree, v: View, gone: set<Path>, st: Stuck, p: Path)
    requires AreExtra(t, v, gone) && p in t && (Walked(t, v, p) || (p != [] && Walked(t, v, Parent(p)) && p !in gone))
    ensures p in Pruned(t, gone, st)
  {
    forall e | e in gone && Killed(e, p, st)
      ensures false
    {
      if Walked(t, v, p) {
        ExtrasStandApart(t, v, e, p);
      } else {
        assert e != p && e <= Parent(p);
        ExtrasStandApart(t, v, e, Parent(p));
      }
    }
  }

  /** Levels that have been listed, whose directory may have been disturbed. */
  ghost function Opened<X>(ls: seq<Level<X>>): set<Path> {
    if ls == [] then {} else if Top(ls).pending.None? then Paths(Below(ls)) else Paths(ls)
  }

  ghost function Gone<X>(t: DTree, targets: map<Path, bool>, ls: seq<Level<X>>): set<Path> {
    targets.Keys - Ahead(t, ls)
  }

  /** Where the walk stands, and the metadata it has put by. */
  ghost predicate Holding(t: DTree, v: View, ls: seq<Level<Option<DirStat>>>) {
    && WalkingOn(t, v, ls)
    && forall i :: 0 <= i < |ls| ==>
         IsDir(t, ls[i].path) && (ls[i].pending.Some? ==> ls[i].data == Some(t[ls[i].path].dir))
  }

  /** What the destination looks like: gone removed, dirty disturbed. */
  ghost predicate Standing(o: Faults, t: DTree, gone: set<Path>, dirty: set<Path>, st: Stuck, now: int, d: Dst) {
    && WellFormed(d.tree)
    && d.tree.Keys == Pruned(t, gone, st).Keys
    && (forall p :: p in d.tree && p !in dirty ==> d.tree[p] == LeftBy(o, t, gone, st, now, p))
    && (forall p :: p in dirty ==> Disturbed(o, t, gone, st, now, d, p))
  }

  ghost predicate Disturbed(o: Faults, t: DTree, gone: set<Path>, st: Stuck, now: int, d: Dst, p: Path) {
    && IsDir(t, p) && IsDir(d.tree, p)
    && (p in o.noChmod ==> d.tree[p].dir.mode == t[p].dir.mode)
    && d.tree[p].dir.mtime == if Lost(gone, st, p) then now else t[p].dir.mtime
  }

  ghost predicate Sweeping(o: Faults, t: DTree, v: View, targets: map<Path, bool>, st: Stuck, now: int,
                           ls: seq<Level<Option<DirStat>>>, d: Dst) {
    && Holding(t, v, ls) && Standing(o, t, Gone(t, targets, ls), Opened(ls), st, now, d)
    && (forall p :: p in targets <==> Extra(t, v, p))
  }

  lemma SweepStart(o: Faults, t: DTree, v: View, targets: map<Path, bool>, st: Stuck, now: int, d: Dst)
    requires WellFormed(t) && d.tree == t && forall p :: p in targets <==> Extra(t, v, p)
    ensures Sweeping(o, t, v, targets, st, now, [Level([], None, None)], d)
  {
    var ls: seq<Level<Option<DirStat>>> := [Level([], None, None)];
    var none: Option<DirStat> := None;
    ExtrasStart(t, v, none);
    assert Gone(t, targets, ls) == {} by {
      Start(t, [], none);
      forall p | p in targets
        ensures p in Ahead(t, ls)
      {
        assert [] < p;
      }
    }
    assert Pruned(t, {}, st) == t;
  }

  /** A walked directory is still there, as it was unless disturbed. */
  lemma StillStanding(o: Faults, t: DTree, v: View, gone: set<Path>, dirty: set<Path>, st: Stuck, now: int, d: Dst, p: Path)
    requires Standing(o, t, gone, dirty, st, now, d) && AreExtra(t, v, gone) && p in t
    requires Walked(t, v, p) || (p != [] && Walked(t, v, Parent(p)) && p !in gone)
    ensures p in d.tree && (t[p].Dir? <==> d.tree[p].Dir?)
    ensures p !in dirty && !Lost(gone, st, p) ==> d.tree[p] == t[p]
  {
    WalkedSurvives(t, v, gone, st, p);
  }

  lemma OneMoreListed(o: Faults, t: DTree, gone: set<Path>, dirty: set<Path>, st: Stuck, now: int, d: Dst, p: Path)
    requires Standing(o, t, gone, dirty, st, now, d) && IsDir(t, p) && IsDir(d.tree, p) && d.tree[p] == t[p] && !Lost(gone, st, p)
    ensures Standing(o, t, gone, dirty + {p}, st, now, d)
  {
  }

  /** _restore_dir_metadata */
  lemma PutRight(o: Faults, t: DTree, gone: set<Path>, dirty: set<Path>, st: Stuck, now: int, d: Dst, p: Path)
    requires Standing(o, t, gone, dirty, st, now, d) && p in dirty && IsDir(t, p) && IsDir(d.tree, p)
    ensures Standing(o, t, gone, dirty - {p}, st, now, Stamped(d, p, Restamped(o, p, d.tree[p].dir, t[p].dir)))
  {
    var d' := Stamped(d, p, Restamped(o, p, d.tree[p].dir, t[p].dir));
    RestampedIsWellFormed(d.tree, p, d'.tree[p].dir);
    assert d'.tree.Keys == d.tree.Keys;
    forall q | q in dirty - {p}
      ensures Disturbed(o, t, gone, st, now, d', q)
    {
      assert Disturbed(o, t, gone, st, now, d, q);
    }
    assert Disturbed(o, t, gone, st, now, d, p);
  }

  lemma HoldListed(t: DTree, v: View, targets: map<Path, bool>, ls: seq<Level<Option<DirStat>>>, names: seq<Name>)
    requires WellFormed(t) && Holding(t, v, ls) && ls != [] && Top(ls).pending.None?
    requires forall p :: p in targets <==> Extra(t, v, p)
    requires NoDuplicates(names)
    requires if Top(ls).path in v.shutOut then names == [] else forall n :: n in names <==> n in ChildNames(t, Top(ls).path)
    ensures var ls' := WithTop(ls, Level(Top(ls).path, Some(names), Some(t[Top(ls).path].dir)));
      && Holding(t, v, ls') && Closer(t, ls, ls')
      && Gone(t, targets, ls') == Gone(t, targets, ls) && Opened(ls') == Opened(ls) + {Top(ls).path}
  {
    var top, x := Top(ls), Some(t[Top(ls).path].dir);
    var ls' := WithTop(ls, Level(top.path, Some(names), x));
    PathsOfWithTop(ls, Top(ls'));
    if top.path in v.shutOut {
      PassedOver(t, ls, x);
      forall p | p in t && top.path < p
        ensures !Extra(t, v, p)
      {
        NothingExtraBeyond(t, v, top.path, p);
      }
    } else {
      Listed(t, ls, names, x);
    }
  }

  lemma HoldPopped(t: DTree, v: View, targets: map<Path, bool>, ls: seq<Level<Option<DirStat>>>)
    requires Holding(t, v, ls) && ls != [] && Top(ls).pending == Some([])
    ensures Holding(t, v, Below(ls)) && Closer(t, ls, Below(ls)) && Top(ls).path in Opened(ls)
    ensures Gone(t, targets, Below(ls)) == Gone(t, targets, ls) && Opened(Below(ls)) == Opened(ls) - {Top(ls).path}
  {
    Popped(t, ls);
    PathsOfWithTop(ls, Top(ls));
    ShorterBelow(t, ls);
    assert Below(ls) != [] ==> Top(Below(ls)) == ls[|ls| - 2] && Top(Below(ls)).pending.Some?;
  }

  lemma NotOnStack<X>(t: DTree, ls: seq<Level<X>>)
    requires Chain(t, ls) && HasNext(ls)
    ensures Next(Top(ls)) !in Paths(ls)
  {
    ShorterBelow(t, ls);
    forall i | 0 <= i < |ls|
      ensures ls[i].path != Next(Top(ls))
    {
      assert i < |ls| - 1 || ls[i] == Top(ls);
    }
  }

  lemma HoldEnter(t: DTree, v: View, targets: map<Path, bool>, ls: seq<Level<Option<DirStat>>>)
    requires WellFormed(t) && (forall p :: p in targets <==> Extra(t, v, p))
    requires Holding(t, v, ls) && HasNext(ls)
    requires var c := Next(Top(ls)); c !in targets && c !in v.skipped && c !in v.unseen && IsDir(t, c) && c !in v.shutOut
    ensures var ls' := TakeNext(ls, Top(ls).data) + [Level(Next(Top(ls)), None, None)];
      && Holding(t, v, ls') && Closer(t, ls, ls')
      && Gone(t, targets, ls') == Gone(t, targets, ls) && Opened(ls') == Opened(ls)
  {
    var c := Next(Top(ls));
    var none: Option<DirStat> := None;
    var mid := TakeNext(ls, Top(ls).data);
    var ls' := mid + [Level(c, None, none)];
    Taken(t, ls, Top(ls).data);
    PathsOfWithTop(ls, Top(mid));
    Entered(t, ls, Top(ls).data, none);
    assert Walked(t, v, c);
    assert Below(ls') == mid;
  }

  lemma HoldTaken(t: DTree, v: View, targets: map<Path, bool>, ls: seq<Level<Option<DirStat>>>)
    requires forall p :: p in targets <==> Extra(t, v, p)
    requires Holding(t, v, ls) && HasNext(ls)
    requires var c := Next(Top(ls)); c in targets || c in v.skipped || c in v.unseen || !IsDir(t, c) || c in v.shutOut
    ensures var c, ls' := Next(Top(ls)), TakeNext(ls, Top(ls).data);
      && Holding(t, v, ls') && Closer(t, ls, ls') && Opened(ls') == Opened(ls)
      && Gone(t, targets, ls') == Gone(t, targets, ls) + if c in targets then {c} else {}
  {
    var c, ls' := Next(Top(ls)), TakeNext(ls, Top(ls).data);
    Taken(t, ls, Top(ls).data);
    PathsOfWithTop(ls, Top(ls'));
    OnlyTheTop(t, v, c);
    assert c in From(t, c);
  }

  /** _unlink_robust on an extra entry, and what it leaves if it fails. */
  method UnlinkExtra(o: Faults, d: Dst, c: Path, st: Stuck, now: int, ctx: Ctx) returns (d': Dst)
    requires c != [] && c in d.tree && WellFormed(d.tree) && IsDir(d.tree, Parent(c))
    modifies ctx`skipped, ctx`failures
    ensures d' == AfterUnlink(o, d, c, st, now)
    ensures old(ctx.skipped) <= ctx.skipped && (old(ctx.Counted()) ==> ctx.Counted())
  {
    if c in st.whole {
      d' := PartlyUnlinked(d, c, st.partly);
      d' := d'.(tree := MadeWritable(o, d'.tree, Parent(c)));
      ctx.NoteFailure(c);
    } else {
      d' := Unlinked(o, d, c, now);
    }
  }

  function AfterUnlink(o: Faults, d: Dst, c: Path, st: Stuck, now: int): Dst
    requires c != [] && IsDir(d.tree, Parent(c))
  {
    if c in st.whole then
      var d1 := PartlyUnlinked(d, c, st.partly);
      d1.(tree := MadeWritable(o, d1.tree, Parent(c)))
    else
      Unlinked(o, d, c, now)
  }

  lemma AfterUnlinkExactly(o: Faults, d: Dst, c: Path, st: Stuck, now: int)
    requires c != [] && c in d.tree && WellFormed(d.tree) && IsDir(d.tree, Parent(c))
    ensures var d' := AfterUnlink(o, d, c, st, now);
      && WellFormed(d'.tree) && d'.inodes == d.inodes && d'.outside == d.outside && d'.next == d.next
      && IsDir(d'.tree, Parent(c))
      && (forall p :: p in d'.tree <==> p in d.tree && !Killed(c, p, st))
      && (forall p :: p in d'.tree && p != Parent(c) ==> d'.tree[p] == d.tree[p])
      && (Parent(c) in o.noChmod ==> d'.tree[Parent(c)].dir.mode == d.tree[Parent(c)].dir.mode)
      && d'.tree[Parent(c)].dir.mtime == if c in st.whole then d.tree[Parent(c)].dir.mtime else now
  {
    var d' := AfterUnlink(o, d, c, st, now);
    if c in st.whole {
      var d1 := PartlyUnlinked(d, c, st.partly);
      forall q | q in d1.tree
        ensures Rooted(d1.tree, q)
      {
        assert Rooted(d.tree, q);
      }
      RestampedIsWellFormed(d1.tree, Parent(c), d'.tree[Parent(c)].dir);
    } else {
      WithoutIsWellFormed(d.tree, c);
      RestampedIsWellFormed(Without(d.tree, c), Parent(c), d'.tree[Parent(c)].dir);
    }
  }

  lemma Dropped(o: Faults, t: DTree, v: View, gone: set<Path>, dirty: set<Path>, st: Stuck, d: Dst, c: Path, now: int)
    requires Standing(o, t, gone, dirty, st, now, d) && c in d.tree && c != [] && Parent(c) in dirty && IsDir(d.tree, Parent(c))
    requires Extra(t, v, c) && forall p :: p in dirty ==> Walked(t, v, p)
    ensures Standing(o, t, gone + {c}, dirty, st, now, AfterUnlink(o, d, c, st, now))
  {
    var d' := AfterUnlink(o, d, c, st, now);
    AfterUnlinkExactly(o, d, c, st, now);
    DroppedKeys(t, gone, st, d, c, d');
    hide Pruned, AfterUnlink, Walked, Extra, Buried, WellFormed, Disturbed, LeftBy, Lost, Killed;
    forall p | p in dirty
      ensures Disturbed(o, t, gone + {c}, st, now, d', p)
    {
      StillDisturbed(o, t, v, gone, st, now, d, c, d', p);
    }
    forall p | p in d'.tree && p !in dirty
      ensures d'.tree[p] == LeftBy(o, t, gone + {c}, st, now, p)
    {
      assert p in Pruned(t, gone, st) && p in t by {
        PrunedIsPart(t, gone, st);
      }
      LostMore(gone, st, c, p);
      SameLeft(o, t, gone, gone + {c}, st, now, p);
    }
  }

  lemma PrunedIsPart(t: DTree, gone: set<Path>, st: Stuck)
    ensures Pruned(t, gone, st).Keys <= t.Keys
  {
  }

  lemma LostMore(gone: set<Path>, st: Stuck, c: Path, x: Path)
    requires c != []
    ensures Lost(gone + {c}, st, x) <==> Lost(gone, st, x) || (x == Parent(c) && c !in st.whole)
  {
    assert x == Parent(c) && c !in st.whole ==> c in gone + {c};
  }

  lemma SameLeft(o: Faults, t: DTree, gone: set<Path>, gone': set<Path>, st: Stuck, now: int, p: Path)
    requires p in t && (Lost(gone, st, p) <==> Lost(gone', st, p))
    ensures LeftBy(o, t, gone', st, now, p) == LeftBy(o, t, gone, st, now, p)
  {
  }

  lemma StillDisturbed(o: Faults, t: DTree, v: View, gone: set<Path>, st: Stuck, now: int, d: Dst, c: Path, d': Dst, p: Path)
    requires Disturbed(o, t, gone, st, now, d, p) && Walked(t, v, p) && Extra(t, v, c) && c in d.tree && c != []
    requires WellFormed(d.tree) && IsDir(d.tree, Parent(c)) && d' == AfterUnlink(o, d, c, st, now)
    ensures Disturbed(o, t, gone + {c}, st, now, d', p)
  {
    AfterUnlinkExactly(o, d, c, st, now);
    LostMore(gone, st, c, p);
    if c <= p {
      ExtrasStandApart(t, v, c, p);
    }
    hide AfterUnlink, Lost, Walked, Extra, WellFormed;
  }

  lemma DroppedKeys(t: DTree, gone: set<Path>, st: Stuck, d: Dst, c: Path, d': Dst)
    requires d.tree.Keys == Pruned(t, gone, st).Keys && forall p :: p in d'.tree <==> p in d.tree && !Killed(c, p, st)
    ensures d'.tree.Keys == Pruned(t, gone + {c}, st).Keys
  {
    forall p | p in t
      ensures p in d'.tree <==> p in Pruned(t, gone + {c}, st)
    {
      assert p in d.tree <==> p in Pruned(t, gone, st);
      if p in d.tree && Killed(c, p, st) {
        assert c in gone + {c};
      }
      if p in d.tree && exists e :: e in gone + {c} && Killed(e, p, st) {
        var e :| e in gone + {c} && Killed(e, p, st);
        assert e == c;
      }
    }
  }

  method SweepOpen(ghost o: Faults, ghost t: DTree, v: View, ghost targets: map<Path, bool>, ghost st: Stuck, ghost now: int,
                   ls: seq<Level<Option<DirStat>>>, d: Dst)
    returns (ls': seq<Level<Option<DirStat>>>)
    requires WellFormed(t) && Sweeping(o, t, v, targets, st, now, ls, d) && ls != [] && Top(ls).pending.None?
    ensures Sweeping(o, t, v, targets, st, now, ls', d) && Closer(t, ls, ls')
  {
    var rel := Top(ls).path;
    StillStanding(o, t, v, Gone(t, targets, ls), Opened(ls), st, now, d, rel);
    ShorterBelow(t, ls);
    var names: seq<Name> := [];
    if rel !in v.shutOut {
      names := ListReversed(d.tree, rel);
      SameListing(o, t, v, targets, st, now, ls, d);
    }
    HoldListed(t, v, targets, ls, names);
    NothingLostYet(t, targets, ls, st);
    OneMoreListed(o, t, Gone(t, targets, ls), Opened(ls), st, now, d, rel);
    ls' := WithTop(ls, Level(rel, Some(names), Some(d.tree[rel].dir)));
  }

  lemma NothingLostYet(t: DTree, targets: map<Path, bool>, ls: seq<Level<Option<DirStat>>>, st: Stuck)
    requires Chain(t, ls) && ls != [] && Top(ls).pending.None? && targets.Keys <= t.Keys
    ensures !Lost(Gone(t, targets, ls), st, Top(ls).path)
  {
    forall e | e in targets && e != [] && Parent(e) == Top(ls).path
      ensures e in Ahead(t, ls)
    {
      assert Top(ls).path < e;
      assert e in AheadOf(t, Top(ls));
    }
  }

  lemma SameListing(o: Faults, t: DTree, v: View, targets: map<Path, bool>, st: Stuck, now: int,
                    ls: seq<Level<Option<DirStat>>>, d: Dst)
    requires WellFormed(t) && Sweeping(o, t, v, targets, st, now, ls, d) && ls != [] && Top(ls).pending.None?
    ensures forall n :: n in ChildNames(d.tree, Top(ls).path) <==> n in ChildNames(t, Top(ls).path)
  {
    var top := Top(ls);
    forall n
      ensures n in ChildNames(t, top.path) <==> n in ChildNames(d.tree, top.path)
    {
      ChildNamesExact(t, top.path, n);
      ChildNamesExact(d.tree, top.path, n);
      var p := top.path + [n];
      if p in t {
        assert p in AheadOf(t, top) && Parent(p) == top.path;
        StillStanding(o, t, v, Gone(t, targets, ls), Opened(ls), st, now, d, p);
      }
    }
  }

  method SweepNext(o: Faults, ghost t: DTree, v: View, targets: map<Path, bool>, st: Stuck, now: int, ls: seq<Level<Option<DirStat>>>, d: Dst, ctx: Ctx)
    returns (ls': seq<Level<Option<DirStat>>>, d': Dst)
    requires WellFormed(t) && Sweeping(o, t, v, targets, st, now, ls, d) && HasNext(ls)
    modifies ctx`skipped, ctx`failures
    ensures Sweeping(o, t, v, targets, st, now, ls', d') && Closer(t, ls, ls')
    ensures d'.inodes == d.inodes && d'.outside == d.outside && d'.next == d.next
    ensures old(ctx.skipped) <= ctx.skipped && (old(ctx.Counted()) ==> ctx.Counted())
  {
    hide Holding, Standing, Extra, Gone, Opened, AfterUnlink, Walked, Closer, Disturbed, LeftBy;
    var child, x := Next(Top(ls)), Top(ls).data;
    ls', d' := TakeNext(ls, x), d;
    NextIsStanding(o, t, v, targets, st, now, ls, d);
    if child in targets {
      HoldTaken(t, v, targets, ls);
      Dropped(o, t, v, Gone(t, targets, ls), Opened(ls), st, d, child, now);
      AfterUnlinkExactly(o, d, child, st, now);
      d' := UnlinkExtra(o, d, child, st, now, ctx);
    } else if child !in v.skipped && child !in v.unseen && IsDir(d.tree, child) && child !in v.shutOut {
      HoldEnter(t, v, targets, ls);
      ls' := ls' + [Level(child, None, None)];
    } else {
      HoldTaken(t, v, targets, ls);
      assert Gone(t, targets, ls) + {} == Gone(t, targets, ls);
    }
  }

  lemma NextIsStanding(o: Faults, t: DTree, v: View, targets: map<Path, bool>, st: Stuck, now: int,
                       ls: seq<Level<Option<DirStat>>>, d: Dst)
    requires WellFormed(t) && Sweeping(o, t, v, targets, st, now, ls, d) && HasNext(ls)
    ensures var c := Next(Top(ls));
      && WellFormed(d.tree) && IsDir(d.tree, Parent(c))
      && c != [] && c in d.tree && (IsDir(d.tree, c) <==> IsDir(t, c)) && Parent(c) == Top(ls).path && Parent(c) in Opened(ls)
      && forall p :: p in Opened(ls) ==> Walked(t, v, p)
  {
    var c := Next(Top(ls));
    Taken(t, ls, Top(ls).data);
    assert c in From(t, c) && c in Ahead(t, ls);
    NotOnStack(t, ls);
    PathsOfWithTop(ls, Top(ls));
    StillStanding(o, t, v, Gone(t, targets, ls), Opened(ls), st, now, d, c);
  }

  /** _remove_extras_at: exactly the targets go, and every directory keeps
      the mode and times it had, but for the time of one that lost an entry
      and cannot be given it back. */
  method RemoveExtras(o: Faults, d0: Dst, v: View, targets: map<Path, bool>, st: Stuck, now: int, ctx: Ctx) returns (d: Dst)
    requires WellFormed(d0.tree) && forall p :: p in targets <==> Extra(d0.tree, v, p)
    modifies ctx`skipped, ctx`failures
    ensures d == d0.(tree := Swept(o, d0.tree, targets.Keys, st, now))
    ensures old(ctx.skipped) <= ctx.skipped && (old(ctx.Counted()) ==> ctx.Counted())
  {
    d := d0;
    ghost var t := d0.tree;
    var ls: seq<Level<Option<DirStat>>> := [Level([], None, None)];
    SweepStart(o, t, v, targets, st, now, d);
    while ls != []
      invariant Sweeping(o, t, v, targets, st, now, ls, d)
      invariant d.inodes == d0.inodes && d.outside == d0.outside && d.next == d0.next
      invariant old(ctx.skipped) <= ctx.skipped && (old(ctx.Counted()) ==> ctx.Counted())
      decreases Ahead(t, ls), Steps(ls)
    {
      if Top(ls).pending.None? {
        ls := SweepOpen(o, t, v, targets, st, now, ls, d);
      } else if Top(ls).pending.value == [] {
        d := SweepLeave(o, t, v, targets, st, now, ls, d);
        ls := Below(ls);
      } else {
        ls, d := SweepNext(o, t, v, targets, st, now, ls, d, ctx);
      }
    }
    assert Gone(t, targets, ls) == targets.Keys;
    assert Opened(ls) == {};
    assert d.tree == Swept(o, t, targets.Keys, st, now);
  }

  method SweepLeave(o: Faults, ghost t: DTree, ghost v: View, ghost targets: map<Path, bool>, ghost st: Stuck, ghost now: int,
                    ls: seq<Level<Option<DirStat>>>, d: Dst)
    returns (d': Dst)
    requires Sweeping(o, t, v, targets, st, now, ls, d) && ls != [] && Top(ls).pending == Some([])
    ensures Sweeping(o, t, v, targets, st, now, Below(ls), d') && Closer(t, ls, Below(ls))
    ensures d'.inodes == d.inodes && d'.outside == d.outside && d'.next == d.next
  {
    var path := Top(ls).path;
    HoldPopped(t, v, targets, ls);
    assert Disturbed(o, t, Gone(t, targets, ls), st, now, d, path);
    PutRight(o, t, Gone(t, targets, ls), Opened(ls), st, now, d, path);
    d' := Stamped(d, path, Restamped(o, path, d.tree[path].dir, Top(ls).data.value));
  }
}
