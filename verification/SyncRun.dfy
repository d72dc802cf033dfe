/** A whole sync: count, mirror, prune, and the promises it makes about the
    destination it leaves. */
module SyncRun {
  import opened Names
  import opened Trees
  import opened Resolver
  import opened Walks
  import opened Attributes
  import opened Sync
  import opened Mirror
  import opened Prune

  /** What one run met and made. The two passes over the source look at it
      at different moments: s1 and s2 need not be the same tree. */
  datatype Run = Run(s1: STree, o1: Faults, s2: STree, o2: Faults, cfg: Config, pruning: bool,
                     unseen: set<Path>, shutOut: set<Path>, stuck: Stuck,
                     start: Dst, mirrored: Dst, pruned: Dst, final: Dst,
                     seen1: set<Path>, skip1: set<Path>, done: set<Path>, skipped: set<Path>, changed: set<Path>)
  {
    ghost function TheView(): View {
      View(seen1 + done, skipped, unseen, shutOut)
    }

    ghost predicate Is() {
      && WellFormed(s1) && WellFormed(s2) && ValidDst(start)
      && Collected(s1, o1, {}, seen1, skip1)
      && Mirrored(s2, o2, cfg, start, mirrored, done, skip1, skipped) && Calm(s2, o2, cfg, start, mirrored, changed)
      && pruned == (if pruning && [] !in o1.noList then mirrored.(tree := Swept(o2, mirrored.tree, Extras(), stuck, cfg.now)) else mirrored)
      && IsDir(pruned.tree, []) && final == Stamped(pruned, [], Restamped(o2, [], pruned.tree[[]].dir, s2[[]].dir))
    }

    ghost function Extras(): set<Path> {
      AllExtras(mirrored.tree, TheView())
    }

    /** A directory that lost an entry and could not be given its time back. */
    ghost predicate Redated(p: Path) {
      && IsDir(mirrored.tree, p) && IsDir(pruned.tree, p) && p in o2.noTimes && Lost(Extras(), stuck, p)
      && pruned.tree[p].dir == DirStat(mirrored.tree[p].dir.mode, cfg.now)
    }
  }

  /** _prune */
  method PruneAll(o: Faults, d: Dst, unseen: set<Path>, shutOut: set<Path>, stuck: Stuck, now: int, ctx: Ctx) returns (d': Dst)
    requires WellFormed(d.tree)
    modifies ctx`skipped, ctx`failures
    ensures var v := View(ctx.srcRels, old(ctx.skipped), unseen, shutOut);
      d' == if ctx.rootUnreadable then d else d.(tree := Swept(o, d.tree, AllExtras(d.tree, v), stuck, now))
    ensures old(ctx.skipped) <= ctx.skipped && (old(ctx.Counted()) ==> ctx.Counted())
  {
    if ctx.rootUnreadable {
      return d;
    }
    var v := View(ctx.srcRels, ctx.skipped, unseen, shutOut);
    var targets := CollectExtras(d.tree, v);
    d' := RemoveExtras(o, d, v, targets, stuck, now, ctx);
    assert targets.Keys == AllExtras(d.tree, v);
  }

  lemma RootIsSpared(t: DTree, v: View, st: Stuck)
    requires IsDir(t, [])
    ensures [] in Pruned(t, AllExtras(t, v), st)
  {
  }

  /** _sync_directory */
  method SyncDirectory(s1: STree, o1: Faults, s2: STree, o2: Faults, cfg: Config, pruning: bool,
                       unseen: set<Path>, shutOut: set<Path>, stuck: Stuck, start: Dst, ctx: Ctx)
    returns (d: Dst, changed: set<Path>, ghost r: Run)
    requires WellFormed(s1) && WellFormed(s2) && ValidDst(start)
    requires ctx.srcRels == {} && ctx.skipped == {} && ctx.failures == 0 && !ctx.rootUnreadable && ctx.excused == {}
    modifies ctx
    ensures r.Is() && r.s1 == s1 && r.o1 == o1 && r.s2 == s2 && r.o2 == o2 && r.cfg == cfg && r.pruning == pruning
    ensures r.unseen == unseen && r.shutOut == shutOut && r.stuck == stuck && r.start == start
    ensures r.final == d && r.changed == changed
    ensures ctx.failures == 0 ==> r.skipped <= Specials(s2) && [] !in o1.noList
  {
    CollectRels(s1, o1, ctx);
    ghost var seen1, skip1 := ctx.srcRels, ctx.skipped;
    ghost var done;
    d, changed, done := MirrorAt(s2, o2, cfg, start, ctx);
    ghost var mirrored, skipped := d, ctx.skipped;
    assert ctx.failures == 0 ==> ctx.skipped <= Specials(s2) && !ctx.rootUnreadable;
    if pruning {
      d := PruneAll(o2, d, unseen, shutOut, stuck, cfg.now, ctx);
    }
    ghost var pruned := d;
    RootIsSpared(mirrored.tree, View(seen1 + done, skipped, unseen, shutOut), stuck);
    d := Stamped(d, [], Restamped(o2, [], d.tree[[]].dir, s2[[]].dir));
    r := Run(s1, o1, s2, o2, cfg, pruning, unseen, shutOut, stuck, start, mirrored, pruned, d, seen1, skip1, done, skipped, changed);
  }

  // -------------------------------------------------------------------------
  // What the prune spares
  // -------------------------------------------------------------------------

  lemma SourcePathsArePrefixClosed(r: Run, p: Path, q: Path)
    requires r.Is() && p in r.TheView().rels && q != [] && q < p
    ensures q in r.TheView().rels
  {
    var e := Effective(r.o2, r.start);
    if p in r.seen1 {
      RecordedAncestors(r.s1, r.o1.noStat + r.o1.noOpen, r.o1.noList, p, q);
    } else {
      RecordedAncestors(r.s2, e.noStat + e.noOpen, e.noList, p, q);
    }
  }

  /** An entry the source has, at either moment, is never pruned. */
  lemma SourceEntriesAreSpared(r: Run, p: Path)
    requires r.Is() && p in r.TheView().rels && p in r.mirrored.tree
    ensures p in r.pruned.tree && (r.pruned.tree[p] == r.mirrored.tree[p] || r.Redated(p))
  {
    forall e | e in r.Extras() && Killed(e, p, r.stuck)
      ensures false
    {
      assert e <= p && e != [];
      if e != p {
        SourcePathsArePrefixClosed(r, p, e);
      }
    }
  }

  lemma SkippedIsKnown(r: Run, k: Path)
    requires r.Is() && k in r.skipped && k != []
    ensures k in r.TheView().rels
  {
    if k in r.skip1 {
      assert Skipped1(r.s1, r.o1, k);
    }
  }

  /** Nothing at or below a path that was skipped is pruned. */
  lemma SkippedSubtreesAreSpared(r: Run, k: Path, p: Path)
    requires r.Is() && k in r.skipped && k != [] && k <= p && p in r.mirrored.tree
    ensures p in r.pruned.tree && r.pruned.tree[p] == r.mirrored.tree[p]
  {
    SkippedIsKnown(r, k);
    forall e | e in r.Extras() && Killed(e, p, r.stuck)
      ensures false
    {
      assert e <= p && e != [];
      if |e| <= |k| {
        assert e <= k;
        if e != k {
          SourcePathsArePrefixClosed(r, k, e);
        }
      } else {
        NoExtraBeneath(r, k, e);
      }
    }
    forall e | e in r.Extras()
      ensures Parent(e) != p
    {
      NoExtraBeneath(r, k, e);
    }
  }

  lemma NoExtraBeneath(r: Run, k: Path, e: Path)
    requires r.Is() && k in r.skipped && k != [] && e in r.Extras()
    ensures e != [] && !(k <= Parent(e))
  {
    if k <= Parent(e) {
      WalkedAbove(r.mirrored.tree, r.TheView(), Parent(e), k);
      WalkedIsKnown(r.mirrored.tree, r.TheView(), k);
    }
  }

  /** A directory of the destination that the source has, as its first pass
      saw it, and that nothing keeps the prune from entering. */
  ghost predicate Entered(r: Run, d: Path) {
    Visited(r.start.tree, Unentered(r), r.shutOut, d)
  }

  ghost function Unentered(r: Run): set<Path> {
    (set p | p in r.start.tree && (!InSource(r, p) || Skipped1(r.s1, r.o1, p))) + r.unseen + r.shutOut
  }

  ghost predicate InSource(r: Run, p: Path) {
    Recorded(r.s1, r.o1.noStat + r.o1.noOpen, r.o1.noList, p)
  }

  /** An entry of the destination, as it was before the run, that stands in
      such a directory and that the first pass did not see in the source. */
  ghost predicate Unknown(r: Run, p: Path) {
    && p in r.start.tree && p != [] && Entered(r, Parent(p)) && Parent(p) !in r.shutOut
    && !InSource(r, p) && p !in r.unseen
  }

  /** A second pass that cannot list the root mirrors nothing. */
  lemma UnlistedRootMirrorsNothing(r: Run)
    requires r.Is() && [] in r.o2.noList
    ensures r.done == {} && r.mirrored == r.start
    ensures forall p :: p in r.skipped <==> p == [] || Skipped1(r.s1, r.o1, p)
  {
    var e := Effective(r.o2, r.start);
    forall p
      ensures !Recorded(r.s2, e.noStat + e.noOpen, e.noList, p)
    {
      if p != [] {
        NothingSeen(r.s2, e.noStat + e.noOpen, e.noList, Parent(p));
      }
    }
    assert r.done == {};
  }

  lemma {:induction false} NothingSeen(t: STree, shut: set<Path>, noList: set<Path>, d: Path)
    requires [] in noList
    ensures Visited(t, shut, noList, d) ==> d == []
    decreases |d|
  {
    if d != [] {
      NothingSeen(t, shut, noList, Parent(d));
    }
  }

  lemma {:induction false} EnteredIsWalked(r: Run, d: Path)
    requires r.Is() && [] in r.o2.noList
    ensures Entered(r, d) <==> Walked(r.start.tree, r.TheView(), d)
    decreases |d|
  {
    UnlistedRootMirrorsNothing(r);
    if d != [] {
      EnteredIsWalked(r, Parent(d));
    }
  }

  lemma UnknownIsExtra(r: Run)
    requires r.Is() && [] in r.o2.noList
    ensures forall p :: p in r.Extras() <==> Unknown(r, p)
  {
    UnlistedRootMirrorsNothing(r);
    forall p
      ensures p in r.Extras() <==> Unknown(r, p)
    {
      if p != [] {
        EnteredIsWalked(r, Parent(p));
        assert Skipped1(r.s1, r.o1, p) ==> InSource(r, p);
      }
    }
  }

  /** The source root could not be listed, by one pass or the other: nothing
      is pruned exactly when it was the first, or when the destination had
      nothing the first pass did not see, as far as the prune gets in it, or
      nothing of that kind can be removed. */
  lemma UnlistedRootPrunesNothingIff(r: Run)
    requires r.Is() && r.pruning && ([] in r.o1.noList || [] in r.o2.noList)
    ensures r.pruned == r.mirrored <==>
      [] in r.o1.noList || forall e, p :: Unknown(r, e) && p in r.start.tree ==> !Killed(e, p, r.stuck)
  {
    if [] !in r.o1.noList {
      UnlistedRootMirrorsNothing(r);
      UnknownIsExtra(r);
      SweptNothing(r.o2, r.mirrored.tree, r.Extras(), r.stuck, r.cfg.now);
      assert r.pruned == r.mirrored.(tree := Swept(r.o2, r.mirrored.tree, r.Extras(), r.stuck, r.cfg.now));
      hide Unknown, r.Is, Swept, Killed;
    }
  }

  /** A run in which only the second pass fails to list the source root, and
      the prune goes ahead: the destination's only entry is removed. */
  lemma LateListingFailureStillPrunes(cfg: Config) returns (r: Run)
    ensures r.Is() && [] in r.o2.noList && [] in r.skipped && r.s1 == r.s2
    ensures ["a"] in r.mirrored.tree && ["a"] !in r.pruned.tree
  {
    var s: STree := map[[] := Dir(DirStat(0x1C0, 0))];
    var o2 := FAULTLESS.(noList := {[]});
    var d := Dst(map[[] := Dir(DirStat(0x1C0, 0)), ["a"] := Link("b")], map[], 0, {});
    NothingToMirror(s, o2, cfg, d);
    var v := View({}, {[]}, {}, {});
    var extras := AllExtras(d.tree, v);
    assert Walked(d.tree, v, []) && Extra(d.tree, v, ["a"]);
    var pruned := d.(tree := Swept(o2, d.tree, extras, Stuck({}, {}), cfg.now));
    assert Killed(["a"], ["a"], Stuck({}, {}));
    r := Run(s, FAULTLESS, s, o2, cfg, true, {}, {}, Stuck({}, {}), d, d, pruned, Stamped(pruned, [], DirStat(0x1C0, 0)), {}, {}, {}, {[]}, {});
    assert r.TheView() == v;
  }

  lemma NothingToMirror(s: STree, o: Faults, cfg: Config, d: Dst)
    requires s == map[[] := Dir(DirStat(0x1C0, 0))] && o == FAULTLESS.(noList := {[]})
    requires d == Dst(map[[] := Dir(DirStat(0x1C0, 0)), ["a"] := Link("b")], map[], 0, {})
    ensures WellFormed(s) && ValidDst(d) && Collected(s, FAULTLESS, {}, {}, {})
    ensures Mirrored(s, o, cfg, d, d, {}, {}, {[]}) && Calm(s, o, cfg, d, d, {})
  {
    forall p | p in d.tree
      ensures Rooted(d.tree, p)
    {
    }
    var e := Effective(o, d);
    assert EnteredDirs(s, e) == {};
    CoreOfNothing(s, o, cfg, d);
  }

  lemma CoreOfNothing(s: STree, o: Faults, cfg: Config, d: Dst)
    requires ValidDst(d) && IsDir(s, []) && [] in o.noList
    ensures Core(s, o, cfg, d, d, {}, {}, {}, {[]})
  {
  }

  // -------------------------------------------------------------------------
  // Convergence
  // -------------------------------------------------------------------------

  /** The prune and the final stamp leave what the mirror wrote. */
  lemma MirroredSurvives(r: Run, p: Path)
    requires r.Is() && p in r.TheView().rels && p != []
    ensures AgreeAt(r.mirrored, r.final, p) || r.Redated(p)
    ensures SameEntry(r.mirrored.tree, r.final.tree, p) && r.final.inodes == r.mirrored.inodes
    ensures p in r.s2 ==> (Placed(r.s2[p], r.final, p, r.cfg) <==> Placed(r.s2[p], r.mirrored, p, r.cfg))
  {
    LeftAsMirrored(r, p);
    if p in r.s2 {
      SamePlaced(r.s2[p], r.mirrored, r.final, p, r.cfg);
    }
    hide r.Is, Placed, SameEntry;
  }

  lemma LeftAsMirrored(r: Run, p: Path)
    requires r.Is() && p in r.TheView().rels && p != []
    ensures AgreeAt(r.mirrored, r.final, p) || r.Redated(p)
    ensures SameEntry(r.mirrored.tree, r.final.tree, p) && r.final.inodes == r.mirrored.inodes
  {
    if p in r.mirrored.tree {
      SourceEntriesAreSpared(r, p);
    }
  }

  lemma SamePlaced(n: SNode, d: Dst, d': Dst, p: Path, cfg: Config)
    requires SameEntry(d.tree, d'.tree, p) && d'.inodes == d.inodes
    ensures Placed(n, d', p, cfg) <==> Placed(n, d, p, cfg)
  {
  }

  /** Nothing but special files was skipped: the second pass saw everything. */
  ghost predicate Clean(r: Run) {
    r.Is() && r.skipped <= Specials(r.s2)
  }

  lemma {:induction false} CleanRunSeesAll(r: Run, p: Path)
    requires Clean(r) && p in r.s2
    ensures p != [] ==> p in r.done
    ensures var e := Effective(r.o2, r.start);
      r.s2[p].Dir? ==> Visited(r.s2, e.noStat + e.noOpen, e.noList, p) && p !in e.noList
    decreases |p|
  {
    var e := Effective(r.o2, r.start);
    if p != [] {
      assert Rooted(r.s2, p);
      CleanRunSeesAll(r, Parent(p));
      assert Outcome(r.s2, r.o2, r.cfg, r.start, r.mirrored, p, r.skipped);
      if r.s2[p].Dir? {
        assert p !in r.skipped;
        assert p !in e.noOpen by {
          assert p in e.noOpen ==> Skipped1(r.s2, e, p);
        }
        assert p in e.noList ==> Skipped1(r.s2, e, p);
      }
    }
  }

  /** The same node at p, with the same content if it is a file. */
  ghost predicate SettledAt(r: Run, p: Path)
    requires p in r.s2
  {
    Settled(r.s2[p], r.final, p, r.cfg)
  }

  /** The mode and times a directory of the source is left with: what cannot
      be set is as it was found, or as it was made, and its time is that of
      the run once an entry of it was made, replaced or removed. */
  ghost function DirLeft(r: Run, p: Path): DirStat
    requires IsDir(r.s2, p)
  {
    DirStat(if p in r.o2.noChmod then ModeBefore(r.o2, r.start, p) else r.s2[p].dir.mode,
            if p in r.o2.noTimes then TimeBefore(r.cfg, r.start, r.final, p) else r.s2[p].dir.mtime)
  }

  /** Mode and times of the entry are the source's all the same: what was
      not set was right already, and nothing that was set wrong was left. */
  ghost predicate AttributesTake(r: Run, p: Path)
    requires p in r.s2
  {
    var n, o := r.s2[p], r.o2;
    if n.Dir? then
      && (p in o.noChmod ==> ModeBefore(o, r.start, p) == n.dir.mode)
      && (p in o.noTimes ==> TimeBefore(r.cfg, r.start, r.final, p) == n.dir.mtime)
    else if n.File? then
      if MadeAnew(r, p) then
        && (p in o.noChmod ==> o.noChmod[p] == n.file.mode)
        && (p in o.noTimes ==> WholeSeconds(r.cfg.now) == WholeSeconds(n.file.mtime))
      else
        IsFile(r.start.tree, p) && r.start.tree[p].file in r.start.inodes &&
        var g := r.start.inodes[r.start.tree[p].file];
        Stale(n.file, g) ==>
          && p !in o.noPeek && (g.mode != n.file.mode ==> p !in o.noChmod)
          && (WholeSeconds(g.mtime) != WholeSeconds(n.file.mtime) ==> p !in o.noTimes)
    else true
  }

  ghost predicate MadeAnew(r: Run, p: Path) {
    !(IsFile(r.start.tree, p) && p in r.final.tree && r.final.tree[p] == r.start.tree[p])
  }

  /** An exit status of 0 means that every entry of the source is at the
      destination, with its kind, target, size and checksum. It has the
      source's mode and times too exactly when those that nobody could set
      were right already, because a chmod or utime that fails is not noted. */
  lemma CleanRunConverges(r: Run, p: Path)
    requires Clean(r) && p in r.s2 && !r.s2[p].Special?
    ensures Placed(r.s2[p], r.final, p, r.cfg)
    ensures SettledAt(r, p) <==> AttributesTake(r, p)
  {
    if r.s2[p].Dir? {
      DirConverges(r, p);
    } else {
      EntryConverges(r, p);
      assert ValidDst(r.start);
    }
    hide r.Is, Clean, ValidDst, OnlyName, NeedsUpdate;
  }

  lemma EntryConverges(r: Run, p: Path)
    requires Clean(r) && p in r.s2 && !r.s2[p].Special? && !r.s2[p].Dir?
    ensures AgreeAt(r.mirrored, r.final, p) && Done(r.s2[p], r.o2, r.cfg, r.start, r.final, p)
  {
    assert p != [];
    CleanRunSeesAll(r, p);
    MirroredSurvives(r, p);
    assert Outcome(r.s2, r.o2, r.cfg, r.start, r.mirrored, p, r.skipped);
    assert AgreeAt(r.mirrored, r.final, p);
  }

  lemma DirConverges(r: Run, p: Path)
    requires Clean(r) && IsDir(r.s2, p)
    ensures IsDir(r.final.tree, p) && r.final.tree[p].dir == DirLeft(r, p)
  {
    CleanRunSeesAll(r, p);
    if p != [] {
      MirroredSurvives(r, p);
      assert Outcome(r.s2, r.o2, r.cfg, r.start, r.mirrored, p, r.skipped);
      assert p in EnteredDirs(r.s2, Effective(r.o2, r.start));
    }
    assert IsDir(r.mirrored.tree, p);
    assert Unfailed(r.s2, r.skipped, p);
    assert DirSoFar(r.s2, r.o2, r.cfg, r.start, r.mirrored, p, p != [], true);
    PruneRedates(r, p);
  }

  /** What the prune does to the time of a directory of the source. */
  lemma PruneRedates(r: Run, p: Path)
    requires Clean(r) && IsDir(r.s2, p) && IsDir(r.mirrored.tree, p) && (p in r.TheView().rels || p == [])
    ensures IsDir(r.pruned.tree, p) && r.pruned.tree[p].dir.mode == r.mirrored.tree[p].dir.mode
    ensures p !in r.o2.noTimes ==> r.pruned.tree[p].dir.mtime == r.mirrored.tree[p].dir.mtime
    ensures p in r.o2.noTimes && r.mirrored.tree[p].dir.mtime == TimeBefore(r.cfg, r.start, r.mirrored, p) ==>
      r.pruned.tree[p].dir.mtime == TimeBefore(r.cfg, r.start, r.final, p)
  {
    if r.pruned != r.mirrored && Lost(r.Extras(), r.stuck, p) {
      var e :| e in r.Extras() && e != [] && Parent(e) == p && e !in r.stuck.whole;
      ExtraIsOld(r, e);
      assert Killed(e, e, r.stuck);
      assert e !in r.final.tree;
      assert !SameEntry(r.start.tree, r.final.tree, e);
    } else {
      forall c | c != [] && Parent(c) == p
        ensures SameEntry(r.mirrored.tree, r.final.tree, c)
      {
        NothingElseGoes(r, p, c);
      }
      SameIntact(r.start.tree, r.mirrored.tree, r.final.tree, p);
    }
    if p != [] {
      SourceEntriesAreSpared(r, p);
    }
  }

  lemma SameIntact<D, F>(t0: Tree<D, F>, t: Tree<D, F>, t': Tree<D, F>, p: Path)
    requires forall c :: c != [] && Parent(c) == p ==> SameEntry(t, t', c)
    ensures Intact(t0, t, p) <==> Intact(t0, t', p)
  {
    forall c | c != [] && Parent(c) == p
      ensures SameEntry(t0, t, c) <==> SameEntry(t0, t', c)
    {
      assert SameEntry(t, t', c);
    }
  }

  /** An entry that is pruned was there before the run. */
  lemma ExtraIsOld(r: Run, e: Path)
    requires r.Is() && e in r.Extras() && e != [] && IsDir(r.s2, Parent(e))
    ensures e in r.start.tree
  {
    ChildNotSwallowed(r.s2, e);
    assert e !in r.done;
    assert Kept(r.start, r.mirrored, e);
  }

  lemma NothingElseGoes(r: Run, p: Path, c: Path)
    requires r.Is() && (p in r.TheView().rels || p == []) && c != [] && Parent(c) == p
    requires r.pruned == r.mirrored || !Lost(r.Extras(), r.stuck, p)
    ensures SameEntry(r.mirrored.tree, r.final.tree, c)
  {
    if c in r.mirrored.tree && r.pruned != r.mirrored {
      forall e | e in r.Extras()
        ensures !Killed(e, c, r.stuck)
      {
        assert e <= c ==> e == c || e <= p;
        if e <= p && e != [] && e != p {
          SourcePathsArePrefixClosed(r, p, e);
        }
      }
    }
  }

  /** Where no mode or time is refused, the one exception is a file that
      needs no rewrite and cannot be opened to be put right. */
  lemma OnlyUnopenedFilesDrift(r: Run, p: Path)
    requires Clean(r) && p in r.s2 && !r.s2[p].Special? && p !in r.o2.noChmod && p !in r.o2.noTimes
    ensures SettledAt(r, p) <==> !(r.s2[p].File? && p in r.o2.noPeek && IsFile(r.start.tree, p)
                                   && !NeedsUpdate(r.s2[p].file, r.o2, r.start, p, r.cfg)
                                   && Stale(r.s2[p].file, r.start.inodes[r.start.tree[p].file]))
  {
    CleanRunConverges(r, p);
    if r.s2[p].File? {
      FileConverges(r, p);
    }
  }

  /** Which files are made anew: those that differ; and those that only have
      the wrong mode or time, if their inode has another name. */
  lemma FileConverges(r: Run, p: Path)
    requires Clean(r) && IsFile(r.s2, p)
    ensures IsFile(r.final.tree, p) && FileLeft(r.s2[p].file, r.o2, r.cfg, r.start, r.final, p)
    ensures var f := r.s2[p].file;
      && (NeedsUpdate(f, r.o2, r.start, p, r.cfg) ==> MadeAnew(r, p))
      && (!NeedsUpdate(f, r.o2, r.start, p, r.cfg) && !Amiss(f, r.o2, r.start, p) ==> !MadeAnew(r, p))
      && (!NeedsUpdate(f, r.o2, r.start, p, r.cfg) && r.start.tree[p].file in r.start.outside ==>
            (MadeAnew(r, p) <==> Amiss(f, r.o2, r.start, p)))
      && (!NeedsUpdate(f, r.o2, r.start, p, r.cfg) && OnlyName(r.start.tree, r.start.outside, p) ==> !MadeAnew(r, p))
  {
    EntryConverges(r, p);
  }

  /** What a file holds after a run with exit status 0. One the destination
      lacked, or had with another size, has the source's bytes; so has one
      with another whole second, or with --checksum one with another
      checksum or that could not be read to take one. Any other holds what it
      held, or else the source's bytes; and it holds what it held if that is
      its only name. */
  lemma ContentConverges(r: Run, p: Path)
    requires Clean(r) && IsFile(r.s2, p)
    ensures IsFile(r.final.tree, p) && r.final.tree[p].file in r.final.inodes
    ensures !IsFile(r.start.tree, p) ==> r.final.inodes[r.final.tree[p].file].data == r.s2[p].file.data
    ensures IsFile(r.start.tree, p) ==> r.start.tree[p].file in r.start.inodes
    ensures IsFile(r.start.tree, p) ==>
      var f, g, data := r.s2[p].file, r.start.inodes[r.start.tree[p].file], r.final.inodes[r.final.tree[p].file].data;
      if |g.data| != |f.data|
         || (!r.cfg.checksum && WholeSeconds(g.mtime) != WholeSeconds(f.mtime))
         || (r.cfg.checksum && (r.cfg.crc(g.data) != r.cfg.crc(f.data) || p in r.o2.noRead || p in r.o2.noPeek))
      then data == f.data
      else data == (if MadeAnew(r, p) then f.data else g.data) && (OnlyName(r.start.tree, r.start.outside, p) ==> data == g.data)
  {
    FileConverges(r, p);
    assert ValidDst(r.start);
    hide r.Is;
  }

  /** Where nothing is refused, a file of a run with exit status 0 has the
      source's mode and second; a directory its mode and time; a link its
      target. */
  lemma AttributesConverge(r: Run, p: Path)
    requires Clean(r) && p in r.s2 && !r.s2[p].Special?
    requires p !in r.o2.noChmod && p !in r.o2.noTimes && p !in r.o2.noPeek
    ensures p in r.final.tree
    ensures r.s2[p].Dir? ==> r.final.tree[p].Dir? && r.final.tree[p].dir == r.s2[p].dir
    ensures r.s2[p].Link? ==> r.final.tree[p].Link? && r.final.tree[p].target == r.s2[p].target
    ensures r.s2[p].File? ==> r.final.tree[p].File? && r.final.tree[p].file in r.final.inodes
    ensures r.s2[p].File? ==>
      var f, g := r.s2[p].file, r.final.inodes[r.final.tree[p].file];
      g.mode == f.mode && WholeSeconds(g.mtime) == WholeSeconds(f.mtime)
  {
    CleanRunConverges(r, p);
    OnlyUnopenedFilesDrift(r, p);
  }

  /** A file that is not looked into: same size and second, but the mode
      differs and stays so, and the run still reports success. */
  lemma UnreadableFileKeepsItsMode(r: Run, p: Path)
    requires Clean(r) && !r.cfg.checksum && IsFile(r.s2, p) && p in r.o2.noPeek
    requires IsFile(r.start.tree, p)
    requires var f, g := r.s2[p].file, r.start.inodes[r.start.tree[p].file];
      !Differs(f, g, r.cfg) && f.mode != g.mode
    ensures !SettledAt(r, p)
  {
    assert Rooted(r.s2, p);
    CleanRunConverges(r, p);
    FileConverges(r, p);
  }

  /** Modes and times that are refused leave the exit status at 0. */
  lemma RefusalsAreNotNoted(r: Run)
    requires r.Is() && r.s1 == r.s2 && r.o1 == FAULTLESS
    requires r.o2 == FAULTLESS.(noChmod := r.o2.noChmod, noTimes := r.o2.noTimes)
    requires forall p :: IsFile(r.s2, p) ==> !IsDir(r.start.tree, p)
    ensures Clean(r)
  {
    forall p | p in r.skipped
      ensures p in Specials(r.s2)
    {
      assert p in r.skip1 ==> Skipped1(r.s1, r.o1, p);
      assert p !in r.skip1 ==> Reason(r.s2[p], r.o2, r.start, p);
    }
  }

  /** So a file made anew may keep a mode the source never gave it. */
  lemma RefusedModeIsKept(r: Run, p: Path)
    requires Clean(r) && IsFile(r.s2, p) && p in r.o2.noChmod && r.o2.noChmod[p] != r.s2[p].file.mode
    requires !IsFile(r.start.tree, p)
    ensures IsFile(r.final.tree, p) && r.final.inodes[r.final.tree[p].file].mode == r.o2.noChmod[p]
    ensures !SettledAt(r, p)
  {
    CleanRunConverges(r, p);
    FileConverges(r, p);
  }

  /** One file, synced to an empty directory where no mode can be set. */
  method SyncLosesTheMode(f: FileStat, m: Mode, cfg: Config) returns (d: Dst, ghost r: Run)
    requires m != f.mode
    ensures r.Is() && r.final == d && r.o2 == FAULTLESS.(noChmod := map[["a"] := m])
    ensures r.s2 == map[[] := Dir(DirStat(0x1C0, 0)), ["a"] := File(f)] && Clean(r)
    ensures IsFile(d.tree, ["a"]) && d.tree[["a"]].file in d.inodes && d.inodes[d.tree[["a"]].file].mode == m
  {
    var s: STree := map[[] := Dir(DirStat(0x1C0, 0)), ["a"] := File(f)];
    var start := Dst(map[[] := Dir(DirStat(0x1C0, 0))], map[], 0, {});
    assert forall p :: p in s ==> Rooted(s, p);
    assert forall p :: p in start.tree ==> Rooted(start.tree, p);
    var ctx := new Ctx();
    var changed;
    d, changed, r := SyncDirectory(s, FAULTLESS, s, FAULTLESS.(noChmod := map[["a"] := m]), cfg, false,
                                   {}, {}, Stuck({}, {}), start, ctx);
    RefusalsAreNotNoted(r);
    RefusedModeIsKept(r, ["a"]);
  }

  /** Special files, and directories a file would have had to replace, are
      left as they were, with everything beneath them. */
  lemma UntouchableIsLeftAlone(r: Run, k: Path, q: Path)
    requires r.Is() && k in r.done && Untouchable(r.s2[k], r.start, k) && k <= q
    ensures Kept(r.start, r.final, q)
  {
    assert Outcome(r.s2, r.o2, r.cfg, r.start, r.mirrored, k, r.skipped);
    assert Kept(r.start, r.mirrored, q) by {
      if k != q {
        BelowUntouchable(r, k, q);
      }
    }
    if q in r.mirrored.tree {
      SkippedSubtreesAreSpared(r, k, q);
    }
    assert AgreeAt(r.mirrored, r.pruned, q);
  }

  lemma BelowUntouchable(r: Run, k: Path, q: Path)
    requires r.Is() && k in r.done && Untouchable(r.s2[k], r.start, k) && k < q
    ensures Kept(r.start, r.mirrored, q)
  {
    var e := Effective(r.o2, r.start);
    NothingBeyondShut(r.s2, e.noStat + e.noOpen, e.noList, k, q);
    NoLinkAbove(r.s2, k, q);
  }

  lemma NoLinkAbove(s: STree, k: Path, q: Path)
    requires WellFormed(s) && k in s && !s[k].Dir? && !s[k].Link? && k < q
    ensures !Swallowed(s, q)
  {
    forall i | 0 < i < |q|
      ensures !IsLink(s, q[..i])
    {
      if i < |k| {
        assert q[..i] == k[..i];
        AncestorsAreDirs(s, k[..i], k);
      } else {
        assert q[..i][..|k|] == k;
        assert i == |k| ==> q[..i] == k;
        if i > |k| && q[..i] in s {
          AncestorsAreDirs(s, k, q[..i]);
        }
      }
    }
  }

  // -------------------------------------------------------------------------
  // What else is at the destination
  // -------------------------------------------------------------------------

  lemma {:induction false} WalkedOrSkipped(t: DTree, v: View, d: Path) returns (k: Path)
    requires WellFormed(t) && IsDir(t, d) && v.unseen == {} && v.shutOut == {}
    requires d != [] ==> d in v.rels
    requires forall q :: q != [] && q < d ==> q in v.rels
    ensures Walked(t, v, d) || (k != [] && k <= d && k in v.skipped)
    decreases |d|
  {
    k := [];
    if d != [] {
      assert Rooted(t, d) && Parent(d) < d;
      k := WalkedOrSkipped(t, v, Parent(d));
      if d in v.skipped {
        k := d;
      }
    }
  }

  /** An undisturbed run with --delete. */
  ghost predicate Undisturbed(r: Run) {
    && r.Is() && r.pruning && r.s1 == r.s2 && r.o1 == FAULTLESS && r.o2 == FAULTLESS
    && r.unseen == {} && r.shutOut == {} && r.stuck == Stuck({}, {})
  }

  lemma UndisturbedSeesAll(r: Run, p: Path)
    requires Undisturbed(r)
    ensures p in r.s2 && p != [] ==> p in r.done && Outcome(r.s2, r.o2, r.cfg, r.start, r.mirrored, p, r.skipped)
    ensures p in r.TheView().rels <==> p in r.s2 && p != []
    ensures p in r.skipped <==> p in r.s2 && p != [] && Untouchable(r.s2[p], r.start, p)
  {
    var e := Effective(r.o2, r.start);
    assert e == FAULTLESS;
    assert e.noStat + e.noOpen == {};
    EverythingIsVisited(r.s2, p);
    if p in r.s2 && p != [] {
      assert p in r.done;
      assert Outcome(r.s2, r.o2, r.cfg, r.start, r.mirrored, p, r.skipped);
    }
    assert !Skipped1(r.s1, r.o1, p);
  }

  /** Whatever the destination holds that the source does not lies below a
      special file of the source, or below a directory a file would have
      had to replace. */
  lemma {:induction false} OnlyTheSourceRemains(r: Run, q: Path) returns (k: Path)
    requires Undisturbed(r) && q in r.final.tree && q != [] && q !in r.s2
    ensures k < q && k in r.s2 && k != [] && Untouchable(r.s2[k], r.start, k)
    decreases |q|
  {
    var t := r.mirrored.tree;
    assert q in t && Rooted(t, q);
    if Parent(q) != [] && Parent(q) !in r.s2 {
      assert Parent(q) in r.final.tree by {
        ParentSurvives(r, q);
      }
      k := OnlyTheSourceRemains(r, Parent(q));
    } else {
      forall a | a != [] && a <= Parent(q)
        ensures a in r.TheView().rels
      {
        assert a < Parent(q) || a == Parent(q);
        if a < Parent(q) {
          AncestorsAreDirs(r.s2, a, Parent(q));
        }
        UndisturbedSeesAll(r, a);
      }
      k := WalkedOrSkipped(t, r.TheView(), Parent(q));
      UndisturbedSeesAll(r, q);
      UndisturbedSeesAll(r, k);
      if Walked(t, r.TheView(), Parent(q)) {
        if q in r.skipped {
          k := q;
        } else {
          assert Extra(t, r.TheView(), q);
          assert Killed(q, q, r.stuck);
        }
      }
    }
  }

  lemma ParentSurvives(r: Run, q: Path)
    requires Undisturbed(r) && q in r.final.tree && q != [] && Parent(q) != []
    ensures Parent(q) in r.final.tree
  {
    assert q in r.mirrored.tree && Rooted(r.mirrored.tree, q);
    forall e | e in r.Extras()
      ensures !Killed(e, Parent(q), r.stuck)
    {
      assert Killed(e, Parent(q), r.stuck) ==> Killed(e, q, r.stuck);
    }
  }

  // -------------------------------------------------------------------------
  // Idempotence
  // -------------------------------------------------------------------------

  /** After an undisturbed run that replaced no directory by a file, a second
      one over the same source rewrites no file, fixes no metadata, makes no
      link, finds nothing to remove and leaves the destination as it is. */
  lemma SecondRunChangesNothing(r1: Run, r2: Run)
    requires Undisturbed(r1) && Undisturbed(r2) && Clean(r1)
    requires r2.s2 == r1.s2 && r2.cfg.checksum == r1.cfg.checksum && r2.cfg.crc == r1.cfg.crc && r2.start == r1.final
    ensures r2.changed == {} && r2.Extras() == {} && r2.final == r1.final
  {
    SecondMirrorIsCalm(r1, r2);
    SecondRunFindsNoExtras(r1, r2);
    NothingPruned(r2);
    RootIsStamped(r1);
    RootIsStamped(r2);
    hide Undisturbed, Clean;
    assert r2.final.tree == r1.final.tree;
  }

  lemma NothingPruned(r: Run)
    requires Undisturbed(r) && r.Extras() == {}
    ensures r.pruned == r.mirrored
  {
    SweptNothing(r.o2, r.mirrored.tree, {}, r.stuck, r.cfg.now);
  }

  lemma RootIsStamped(r: Run)
    requires Undisturbed(r)
    ensures r.final == Stamped(r.pruned, [], r.s2[[]].dir) && IsDir(r.s2, [])
  {
  }

  lemma FirstRunSettles(r: Run, p: Path)
    requires Undisturbed(r) && Clean(r) && p in r.s2 && p != []
    ensures Settled(r.s2[p], r.final, p, r.cfg)
  {
    if !r.s2[p].Special? {
      CleanRunConverges(r, p);
      hide r.Is, Clean, Settled;
      if IsFile(r.s2, p) {
        FileConverges(r, p);
      }
    }
  }

  lemma SecondMirrorIsCalm(r1: Run, r2: Run)
    requires Undisturbed(r1) && Undisturbed(r2) && Clean(r1)
    requires r2.s2 == r1.s2 && r2.cfg.checksum == r1.cfg.checksum && r2.cfg.crc == r1.cfg.crc && r2.start == r1.final
    ensures r2.mirrored == r1.final && r2.changed == {}
  {
    hide Settled, Clean;
    forall p | p in r2.s2 && p != []
      ensures Settled(r2.s2[p], r2.start, p, r2.cfg)
    {
      FirstRunSettles(r1, p);
      SameSettled(r1.s2[p], r1.final, p, r1.cfg, r2.cfg);
    }
    hide r1.Is;
    assert AllSettled(r2.s2, r2.start, r2.cfg);
    assert Calm(r2.s2, r2.o2, r2.cfg, r2.start, r2.mirrored, r2.changed);
  }

  lemma SameSettled(n: SNode, d: Dst, p: Path, cfg: Config, cfg': Config)
    requires Settled(n, d, p, cfg) && cfg.checksum == cfg'.checksum && cfg.crc == cfg'.crc
    ensures Settled(n, d, p, cfg')
  {
  }

  lemma SecondRunFindsNoExtras(r1: Run, r2: Run)
    requires Undisturbed(r1) && Undisturbed(r2) && Clean(r1) && r2.s2 == r1.s2 && r2.mirrored == r1.final
    ensures r2.Extras() == {}
  {
    forall q | q in r2.Extras()
      ensures false
    {
      UndisturbedSeesAll(r2, q);
      var k := OnlyTheSourceRemains(r1, q);
      SpecialStaysSkipped(r1, r2, k);
      assert k <= Parent(q);
      WalkedAbove(r2.mirrored.tree, r2.TheView(), Parent(q), k);
    }
  }

  lemma SpecialStaysSkipped(r1: Run, r2: Run, k: Path)
    requires Undisturbed(r1) && Undisturbed(r2) && Clean(r1) && r2.s2 == r1.s2
    requires k in r1.s2 && k != [] && Untouchable(r1.s2[k], r1.start, k)
    ensures k in r2.skipped
  {
    UndisturbedSeesAll(r1, k);
    UndisturbedSeesAll(r2, k);
  }

  /** An inode with a name outside the destination is never written, and
      neither is one with a name the source has nothing at. */
  lemma SharedInodesAreUntouched(r: Run, q: Path, i: nat)
    requires r.Is() && i in r.start.inodes
    requires i in r.start.outside
      || (q != [] && q !in r.done && !Swallowed(r.s2, q) && q in r.start.tree && r.start.tree[q] == File(i))
    ensures i in r.final.inodes && r.final.inodes[i] == r.start.inodes[i]
  {
    if i !in r.start.outside {
      assert Kept(r.start, r.mirrored, q);
    }
    assert SameInode(r.start, r.mirrored, i);
  }
}
