/** dirfd.rmtree_at: removing a tree some of whose entries will not go. */
module Removal {
  import opened Names
  import opened Trees
  import opened Resolver
  import opened Walks

  /** The calls that fail, and keep failing when retried with force. */
  datatype Obstacles = Obstacles(noStat: set<Path>, noOpen: set<Path>, noList: set<Path>, noUnlink: set<Path>)

  const NONE := Obstacles({}, {}, {}, {})

  /** A directory whose contents the walk never gets to see. */
  ghost predicate Sealed<D, F>(t: Tree<D, F>, o: Obstacles, p: Path) {
    p in t && (p in o.noStat || (t[p].Dir? && (p in o.noOpen || p in o.noList)))
  }

  /** An entry that would not go even with nothing left beneath it. */
  ghost predicate Stuck<D, F>(t: Tree<D, F>, o: Obstacles, p: Path) {
    p in t && (Sealed(t, o, p) || p in o.noUnlink)
  }

  /** What must remain: the stuck entries, all there is above them, and all
      there is beneath a sealed directory. */
  ghost predicate Stays<D, F>(t: Tree<D, F>, root: Path, o: Obstacles, p: Path) {
    && p in t && root <= p
    && ((exists q :: p <= q && Stuck(t, o, q)) || (exists q :: root <= q <= p && Sealed(t, o, q)))
  }

  ghost function Remaining<D, F>(t: Tree<D, F>, root: Path, o: Obstacles): Tree<D, F> {
    map p | p in t && (root <= p ==> Stays(t, root, o, p)) :: t[p]
  }

  /** With nothing in the way, the whole tree goes. */
  lemma NothingInTheWay<D, F>(t: Tree<D, F>, root: Path)
    ensures Remaining(t, root, NONE) == Without(t, root)
  {
  }

  lemma WhatStaysHoldsItsParent<D, F>(t: Tree<D, F>, root: Path, o: Obstacles, p: Path, q: Path)
    requires root <= p <= q && p in t && Stays(t, root, o, q)
    ensures Stays(t, root, o, p)
  {
    if x :| q <= x && Stuck(t, o, x) {
      assert p <= x;
    } else {
      var x :| root <= x <= q && Sealed(t, o, x);
      if p <= x {
        assert Stuck(t, o, x);
      } else {
        assert x <= p;
      }
    }
  }

  /** A level the walk has opened and listed, when nothing beneath it stays. */
  lemma StaysOnlyByItself<D, F>(t: Tree<D, F>, root: Path, o: Obstacles, p: Path)
    requires p in t && root <= p
    requires forall q :: root <= q <= p ==> !Sealed(t, o, q)
    requires forall q :: q in t && p < q ==> !Stays(t, root, o, q)
    ensures Stays(t, root, o, p) <==> p in o.noUnlink
  {
    if Stays(t, root, o, p) && p !in o.noUnlink {
      var q :| p <= q && Stuck(t, o, q);
      assert p != q;
      assert Stays(t, root, o, q);
    }
    if p in o.noUnlink {
      assert Stuck(t, o, p);
    }
  }

  // -------------------------------------------------------------------------
  // The walk
  // -------------------------------------------------------------------------

  ghost function Open(ls: seq<Level<bool>>): set<Path> {
    if ls == [] then {} else Open(Below(ls)) + {Top(ls).path}
  }

  /** The levels are the directories from the root down to the top one. */
  lemma {:induction false} OpenIsThePath<D, F>(t: Tree<D, F>, root: Path, ls: seq<Level<bool>>, p: Path)
    requires Chain(t, ls) && ls != [] && ls[0].path == root
    ensures p in Open(ls) <==> root <= p <= Top(ls).path
  {
    if |ls| > 1 {
      OpenIsThePath(t, root, Below(ls), p);
      var up, path := Top(Below(ls)).path, Top(ls).path;
      OpenIsThePath(t, root, Below(ls), up);
      if p <= path && p != path {
        assert p <= up;
      }
    } else {
      assert Below(ls) == [];
      assert Open(ls) == {root};
      assert root <= p <= root ==> p == root;
    }
  }

  // In what follows, keep is the set of paths that stay.

  ghost function Keep<D, F>(t: Tree<D, F>, root: Path, o: Obstacles): set<Path> {
    set p | p in t && Stays(t, root, o, p)
  }

  /** What the walk has yet to reach, has open, or will have to leave. */
  ghost function Still<D, F>(t: Tree<D, F>, keep: set<Path>, ls: seq<Level<bool>>): set<Path> {
    Ahead(t, ls) + Open(ls) + keep
  }

  /** What the tree looks like by then. */
  ghost function Midway<D, F>(t: Tree<D, F>, root: Path, still: set<Path>): Tree<D, F> {
    map p | p in t && (root <= p ==> p in still) :: t[p]
  }

  /** The removals, in order: each entry once, and no directory before
      something beneath it. */
  ghost predicate ChildrenFirst(log: seq<Path>) {
    forall i, j :: 0 <= i < j < |log| ==> !(log[i] <= log[j])
  }

  ghost predicate LogRight<D, F>(t: Tree<D, F>, root: Path, still: set<Path>, log: seq<Path>) {
    ChildrenFirst(log) && forall p :: p in log <==> p in t && root <= p && p !in still
  }

  /** Logging one more removal, of an entry whose ancestors are all still there. */
  lemma LogGrows<D, F>(t: Tree<D, F>, root: Path, still: set<Path>, log: seq<Path>, x: Path)
    requires LogRight(t, root, still, log)
    requires x in t && root <= x && x in still
    requires forall q :: root <= q && q < x ==> q in still
    ensures LogRight(t, root, still - {x}, log + [x])
  {
    forall i | 0 <= i < |log|
      ensures !(log[i] <= x)
    {
      var y := log[i];
      assert y in log;
      assert y <= x ==> y == x || y < x;
    }
  }

  /** A level's flag is true as long as everything beneath it that the walk
      is done with has gone. */
  ghost predicate FlagRight<D, F>(t: Tree<D, F>, keep: set<Path>, l: Level<bool>, next: Option<Path>) {
    && (l.data ==> forall p :: p in keep && l.path < p ==> p in AheadOf(t, l) || (next.Some? && next.value <= p))
    && (!l.data ==> l.path in keep)
  }

  ghost predicate FlagsRight<D, F>(t: Tree<D, F>, keep: set<Path>, ls: seq<Level<bool>>, next: Option<Path>) {
    ls != [] ==>
      && FlagRight(t, keep, Top(ls), next)
      && FlagsRight(t, keep, Below(ls), Some(Top(ls).path))
  }

  /** Every level was opened, and every level but a failed top one listed. */
  ghost predicate Clear(o: Obstacles, ls: seq<Level<bool>>) {
    ls != [] ==>
      && Top(ls).path !in o.noStat + o.noOpen
      && (Top(ls).path in o.noList ==> Top(ls).pending.None? || (Top(ls).pending.value == [] && !Top(ls).data))
      && ClearBelow(o, Below(ls))
  }

  ghost predicate ClearBelow(o: Obstacles, ls: seq<Level<bool>>) {
    ls != [] ==> Top(ls).path !in o.noStat + o.noOpen + o.noList && ClearBelow(o, Below(ls))
  }

  lemma {:induction false} NothingSealedAbove<D, F>(t: Tree<D, F>, root: Path, o: Obstacles, ls: seq<Level<bool>>)
    requires Chain(t, ls) && ls != [] && ls[0].path == root && ClearBelow(o, ls)
    ensures forall q :: root <= q <= Top(ls).path ==> !Sealed(t, o, q)
  {
    if |ls| > 1 {
      NothingSealedAbove(t, root, o, Below(ls));
      assert Parent(Top(ls).path) == Top(Below(ls)).path;
    }
    forall q | root <= q <= Top(ls).path
      ensures !Sealed(t, o, q)
    {
      assert q == Top(ls).path || q <= Parent(Top(ls).path);
    }
  }

  ghost predicate Inv<D, F>(t: Tree<D, F>, root: Path, o: Obstacles, keep: set<Path>, ls: seq<Level<bool>>) {
    && Chain(t, ls) && (ls != [] ==> ls[0].path == root)
    && Clear(o, ls) && FlagsRight(t, keep, ls, None)
  }

  lemma StepListed<D, F>(t: Tree<D, F>, root: Path, o: Obstacles, keep: set<Path>, ls: seq<Level<bool>>, names: seq<Name>)
    requires WellFormed(t) && Inv(t, root, o, keep, ls)
    requires ls != [] && Top(ls).pending.None? && Top(ls).path !in o.noList && keep <= t.Keys
    requires NoDuplicates(names) && forall n :: n in names <==> n in ChildNames(t, Top(ls).path)
    ensures var ls' := WithTop(ls, Level(Top(ls).path, Some(names), Top(ls).data));
      Inv(t, root, o, keep, ls') && Still(t, keep, ls') == Still(t, keep, ls)
  {
    var ls' := WithTop(ls, Level(Top(ls).path, Some(names), Top(ls).data));
    Listed(t, ls, names, Top(ls).data);
    assert Below(ls') == Below(ls);
    forall p | p in AheadOf(t, Top(ls))
      ensures p in AheadOf(t, Top(ls'))
    {
      NothingAheadUnderTop(t, ls, p);
    }
  }

  lemma StepUnlisted<D, F>(t: Tree<D, F>, root: Path, o: Obstacles, keep: set<Path>, ls: seq<Level<bool>>)
    requires WellFormed(t) && Inv(t, root, o, keep, ls)
    requires ls != [] && Top(ls).pending.None?
    requires forall p :: p in t && Top(ls).path <= p ==> p in keep
    ensures var ls' := WithTop(ls, Level(Top(ls).path, Some([]), false));
      Inv(t, root, o, keep, ls') && Still(t, keep, ls') == Still(t, keep, ls)
  {
    var ls' := WithTop(ls, Level(Top(ls).path, Some([]), false));
    PassedOver(t, ls, false);
    assert Below(ls') == Below(ls);
  }

  /** A child that cannot be looked at, entered or unlinked: its level will
      not go either. */
  lemma StepStuck<D, F>(t: Tree<D, F>, root: Path, o: Obstacles, keep: set<Path>, ls: seq<Level<bool>>)
    requires WellFormed(t) && Inv(t, root, o, keep, ls)
    requires HasNext(ls)
    requires Top(ls).path in keep && forall p :: p in t && Next(Top(ls)) <= p ==> p in keep
    ensures var ls' := TakeNext(ls, false);
      Inv(t, root, o, keep, ls') && Still(t, keep, ls') == Still(t, keep, ls)
  {
    Taken(t, ls, false);
    assert Below(TakeNext(ls, false)) == Below(ls);
  }

  /** A non-directory that was unlinked. */
  lemma StepUnlinked<D, F>(t: Tree<D, F>, root: Path, o: Obstacles, keep: set<Path>, ls: seq<Level<bool>>)
    requires WellFormed(t) && Inv(t, root, o, keep, ls) && keep <= t.Keys
    requires HasNext(ls)
    requires Next(Top(ls)) !in keep && !IsDir(t, Next(Top(ls)))
    ensures var ls' := TakeNext(ls, Top(ls).data);
      var c := Next(Top(ls));
      && Inv(t, root, o, keep, ls')
      && c in Still(t, keep, ls) && Still(t, keep, ls') == Still(t, keep, ls) - {c}
  {
    var c := Next(Top(ls));
    Taken(t, ls, Top(ls).data);
    assert Below(TakeNext(ls, Top(ls).data)) == Below(ls);
    forall p | p in t && c <= p
      ensures p == c
    {
      if p != c {
        AncestorsAreDirs(t, c, p);
      }
    }
    OpenIsThePath(t, root, ls, c);
  }

  /** A directory that was opened. */
  lemma StepEntered<D, F>(t: Tree<D, F>, root: Path, o: Obstacles, keep: set<Path>, ls: seq<Level<bool>>)
    requires WellFormed(t) && Inv(t, root, o, keep, ls) && keep <= t.Keys
    requires HasNext(ls)
    requires IsDir(t, Next(Top(ls))) && Next(Top(ls)) !in o.noStat + o.noOpen
    ensures var ls' := TakeNext(ls, Top(ls).data) + [Level(Next(Top(ls)), None, true)];
      Inv(t, root, o, keep, ls') && Still(t, keep, ls') == Still(t, keep, ls)
  {
    var c, mid := Next(Top(ls)), TakeNext(ls, Top(ls).data);
    var ls' := mid + [Level(c, None, true)];
    Taken(t, ls, Top(ls).data);
    Entered(t, ls, Top(ls).data, true);
    assert Below(mid) == Below(ls) && Below(ls') == mid;
    assert Open(mid) == Open(ls);
  }

  /** Leaving a level: the one under it learns whether this one went. */
  lemma StepLeft<D, F>(t: Tree<D, F>, root: Path, o: Obstacles, keep: set<Path>, ls: seq<Level<bool>>)
    requires WellFormed(t) && Inv(t, root, o, keep, ls) && keep <= t.Keys
    requires ls != [] && Top(ls).pending == Some([])
    requires if Top(ls).path in keep then |ls| > 1 ==> Top(Below(ls)).path in keep
             else forall p :: p in keep ==> !(Top(ls).path <= p)
    ensures var path := Top(ls).path;
      var up := Below(ls);
      var ls' := if up == [] || path !in keep then up else WithTop(up, Top(up).(data := false));
      && Inv(t, root, o, keep, ls')
      && Still(t, keep, ls') == Still(t, keep, ls) - (if path in keep then {} else {path})
  {
    var path, up := Top(ls).path, Below(ls);
    Popped(t, ls);
    forall p
      ensures p in Open(ls) <==> root <= p <= path
    {
      OpenIsThePath(t, root, ls, p);
    }
    NothingAheadUnderTop(t, ls, path);
    if up != [] {
      OpenIsThePath(t, root, up, path);
      assert FlagsRight(t, keep, up, Some(path));
      if path in keep {
        Relabelled(t, up, false);
        var ls' := WithTop(up, Top(up).(data := false));
        assert Below(ls') == Below(up) && Top(ls').path == Top(up).path;
      }
    }
  }

  lemma SealedKeepsAll<D, F>(t: Tree<D, F>, root: Path, o: Obstacles, c: Path)
    requires root <= c && Sealed(t, o, c)
    ensures Stuck(t, o, c)
    ensures forall p :: p in t && c <= p ==> p in Keep(t, root, o)
  {
  }

  lemma StuckKeepsAncestors<D, F>(t: Tree<D, F>, root: Path, o: Obstacles, c: Path, p: Path)
    requires Stuck(t, o, c) && p in t && root <= p <= c
    ensures p in Keep(t, root, o)
  {
  }

  /** What the loop keeps, beside the shape of its levels: the tree, the
      removals so far, the failures so far and the verdict. */
  ghost predicate Good<D, F>(t: Tree<D, F>, root: Path, o: Obstacles, ls: seq<Level<bool>>,
                             cur: Tree<D, F>, removed: seq<Path>, errs: seq<Path>, ok: bool) {
    var keep := Keep(t, root, o);
    && Inv(t, root, o, keep, ls)
    && cur == Midway(t, root, Still(t, keep, ls))
    && LogRight(t, root, Still(t, keep, ls), removed)
    && (forall p :: p in errs ==> Stuck(t, o, p))
    && (errs != [] ==> root in keep)
    && (errs == [] ==> ok && forall i :: 0 <= i < |ls| ==> ls[i].data)
    && (ls == [] ==> (ok <==> root !in keep))
  }

  /** Nothing beneath a level has gone before it is listed. */
  lemma NothingTouchedYet<D, F>(t: Tree<D, F>, root: Path, keep: set<Path>, ls: seq<Level<bool>>)
    requires ls != [] && Top(ls).pending.None?
    ensures ChildNames(Midway(t, root, Still(t, keep, ls)), Top(ls).path) == ChildNames(t, Top(ls).path)
  {
    var path, cur := Top(ls).path, Midway(t, root, Still(t, keep, ls));
    forall n
      ensures n in ChildNames(cur, path) <==> n in ChildNames(t, path)
    {
      ChildNamesExact(cur, path, n);
      ChildNamesExact(t, path, n);
      assert path + [n] in t ==> path + [n] in AheadOf(t, Top(ls));
    }
  }

  /** When a level is left, its flag says whether anything beneath it stays;
      then only a refusal to remove the directory itself can keep it. */
  lemma LeavingLemma<D, F>(t: Tree<D, F>, root: Path, o: Obstacles, ls: seq<Level<bool>>)
    requires WellFormed(t) && Inv(t, root, o, Keep(t, root, o), ls) && ls != [] && Top(ls).pending == Some([])
    ensures var keep, path := Keep(t, root, o), Top(ls).path;
      && root <= path
      && (path in keep <==> !Top(ls).data || path in o.noUnlink)
      && (path in keep ==> root in keep && (|ls| > 1 ==> Top(Below(ls)).path in keep))
      && (path !in keep ==> forall p :: p in keep ==> !(path <= p))
  {
    var keep, path := Keep(t, root, o), Top(ls).path;
    OpenIsThePath(t, root, ls, path);
    OpenIsThePath(t, root, ls, root);
    if Top(ls).data {
      NothingSealedAbove(t, root, o, ls);
      forall q | q in t && path < q
        ensures !Stays(t, root, o, q)
      {
        assert q !in keep;
      }
      StaysOnlyByItself(t, root, o, path);
    }
    if path in keep {
      if root != path {
        AncestorsAreDirs(t, root, path);
      }
      WhatStaysHoldsItsParent(t, root, o, root, path);
      if |ls| > 1 {
        OpenIsThePath(t, root, Below(ls), Top(Below(ls)).path);
        assert Top(Below(ls)).path in t;
        WhatStaysHoldsItsParent(t, root, o, Top(Below(ls)).path, path);
      }
    } else {
      forall p | p in keep
        ensures !(path <= p)
      {
        if path <= p {
          WhatStaysHoldsItsParent(t, root, o, path, p);
        }
      }
    }
  }

  lemma GoodListed<D, F>(t: Tree<D, F>, root: Path, o: Obstacles, ls: seq<Level<bool>>,
                         cur: Tree<D, F>, removed: seq<Path>, errs: seq<Path>, ok: bool, names: seq<Name>)
    requires WellFormed(t) && Good(t, root, o, ls, cur, removed, errs, ok)
    requires ls != [] && Top(ls).pending.None? && Top(ls).path !in o.noList
    requires NoDuplicates(names) && forall n :: n in names <==> n in ChildNames(cur, Top(ls).path)
    ensures var ls' := WithTop(ls, Level(Top(ls).path, Some(names), Top(ls).data));
      Good(t, root, o, ls', cur, removed, errs, ok) && Closer(t, ls, ls')
  {
    var keep := Keep(t, root, o);
    NothingTouchedYet(t, root, keep, ls);
    StepListed(t, root, o, keep, ls, names);
    Listed(t, ls, names, Top(ls).data);
  }

  lemma GoodUnlisted<D, F>(t: Tree<D, F>, root: Path, o: Obstacles, ls: seq<Level<bool>>,
                           cur: Tree<D, F>, removed: seq<Path>, errs: seq<Path>, ok: bool)
    requires WellFormed(t) && Good(t, root, o, ls, cur, removed, errs, ok)
    requires ls != [] && Top(ls).pending.None? && Top(ls).path in o.noList
    ensures var ls' := WithTop(ls, Level(Top(ls).path, Some([]), false));
      Good(t, root, o, ls', cur, removed, errs + [Top(ls).path], ok) && Closer(t, ls, ls')
  {
    var path := Top(ls).path;
    OpenIsThePath(t, root, ls, path);
    SealedKeepsAll(t, root, o, path);
    RootIsThere(t, root, ls);
    StuckKeepsAncestors(t, root, o, path, root);
    StepUnlisted(t, root, o, Keep(t, root, o), ls);
    PassedOver(t, ls, false);
  }

  lemma {:induction false} RootIsThere<D, F>(t: Tree<D, F>, root: Path, ls: seq<Level<bool>>)
    requires Chain(t, ls) && ls != [] && ls[0].path == root
    ensures IsDir(t, root)
  {
    if |ls| > 1 {
      RootIsThere(t, root, Below(ls));
    }
  }

  /** One entry removed, whose ancestors are all still there. */
  lemma ViewShrinks<D, F>(t: Tree<D, F>, root: Path, still: set<Path>, cur: Tree<D, F>, removed: seq<Path>, x: Path)
    requires cur == Midway(t, root, still) && LogRight(t, root, still, removed)
    requires x in t && root <= x && x in still
    requires forall q :: root <= q && q < x ==> q in still
    ensures cur - {x} == Midway(t, root, still - {x}) && LogRight(t, root, still - {x}, removed + [x])
  {
    LogGrows(t, root, still, removed, x);
  }

  lemma AncestorsAreOpen<D, F>(t: Tree<D, F>, root: Path, ls: seq<Level<bool>>)
    requires Chain(t, ls) && ls != [] && ls[0].path == root
    ensures forall q :: root <= q && q <= Top(ls).path ==> q in Open(ls)
    ensures root <= Top(ls).path
  {
    forall q
      ensures root <= q && q <= Top(ls).path ==> q in Open(ls)
    {
      OpenIsThePath(t, root, ls, q);
    }
    OpenIsThePath(t, root, ls, Top(ls).path);
  }

  /** Leaving a level whose directory could be removed. */
  lemma GoodRemoved<D, F>(t: Tree<D, F>, root: Path, o: Obstacles, ls: seq<Level<bool>>,
                          cur: Tree<D, F>, removed: seq<Path>, errs: seq<Path>, ok: bool)
    requires WellFormed(t) && Good(t, root, o, ls, cur, removed, errs, ok)
    requires ls != [] && Top(ls).pending == Some([])
    requires Top(ls).data && Top(ls).path !in o.noUnlink
    ensures Good(t, root, o, Below(ls), cur - {Top(ls).path}, removed + [Top(ls).path], errs, ok)
    ensures forall p :: p in cur ==> !(Top(ls).path < p)
  {
    var keep, path := Keep(t, root, o), Top(ls).path;
    LeavingLemma(t, root, o, ls);
    StepLeft(t, root, o, keep, ls);
    AncestorsAreOpen(t, root, ls);
    ViewShrinks(t, root, Still(t, keep, ls), cur, removed, path);
    NothingBeneath(t, root, o, ls);
  }

  lemma NothingBeneath<D, F>(t: Tree<D, F>, root: Path, o: Obstacles, ls: seq<Level<bool>>)
    requires Inv(t, root, o, Keep(t, root, o), ls) && ls != [] && Top(ls).pending == Some([])
    requires forall p :: p in Keep(t, root, o) ==> !(Top(ls).path <= p)
    ensures forall p :: p in Midway(t, root, Still(t, Keep(t, root, o), ls)) ==> !(Top(ls).path < p)
  {
    var path := Top(ls).path;
    OpenIsThePath(t, root, ls, path);
    forall p | p in Still(t, Keep(t, root, o), ls)
      ensures !(path < p)
    {
      if path < p {
        NothingAheadUnderTop(t, ls, p);
        OpenIsThePath(t, root, ls, p);
      }
    }
  }

  /** Leaving a level that stays. */
  lemma GoodLeft<D, F>(t: Tree<D, F>, root: Path, o: Obstacles, ls: seq<Level<bool>>,
                       cur: Tree<D, F>, removed: seq<Path>, errs: seq<Path>, ok: bool)
    requires WellFormed(t) && Good(t, root, o, ls, cur, removed, errs, ok)
    requires ls != [] && Top(ls).pending == Some([])
    requires !Top(ls).data || Top(ls).path in o.noUnlink
    ensures var up := Below(ls);
      Good(t, root, o, if up == [] then up else WithTop(up, Top(up).(data := false)), cur, removed,
           if Top(ls).data then errs + [Top(ls).path] else errs, false)
  {
    LeavingLemma(t, root, o, ls);
    StepLeft(t, root, o, Keep(t, root, o), ls);
    LeftIsGood(t, root, o, ls, cur, removed, errs, ok);
  }

  lemma LeftIsGood<D, F>(t: Tree<D, F>, root: Path, o: Obstacles, ls: seq<Level<bool>>,
                         cur: Tree<D, F>, removed: seq<Path>, errs: seq<Path>, ok: bool)
    requires Good(t, root, o, ls, cur, removed, errs, ok) && ls != []
    requires var keep, path, up := Keep(t, root, o), Top(ls).path, Below(ls);
      var ls' := if up == [] then up else WithTop(up, Top(up).(data := false));
      && path in keep && root in keep && (!Top(ls).data || path in o.noUnlink)
      && (path in o.noUnlink ==> Stuck(t, o, path))
      && Inv(t, root, o, keep, ls') && Still(t, keep, ls') == Still(t, keep, ls)
    ensures var up := Below(ls);
      Good(t, root, o, if up == [] then up else WithTop(up, Top(up).(data := false)), cur, removed,
           if Top(ls).data then errs + [Top(ls).path] else errs, false)
  {
    hide Inv, Still, Keep, Midway, LogRight, Stuck;
  }

  lemma GoodStuck<D, F>(t: Tree<D, F>, root: Path, o: Obstacles, ls: seq<Level<bool>>,
                        cur: Tree<D, F>, removed: seq<Path>, errs: seq<Path>, ok: bool)
    requires WellFormed(t) && Good(t, root, o, ls, cur, removed, errs, ok)
    requires HasNext(ls)
    requires Stuck(t, o, Next(Top(ls))) && (IsDir(t, Next(Top(ls))) ==> Sealed(t, o, Next(Top(ls))))
    ensures var ls' := TakeNext(ls, false);
      Good(t, root, o, ls', cur, removed, errs + [Next(Top(ls))], ok) && Closer(t, ls, ls')
  {
    var c, path := Next(Top(ls)), Top(ls).path;
    Taken(t, ls, false);
    OpenIsThePath(t, root, ls, path);
    RootIsThere(t, root, ls);
    StuckKeepsAncestors(t, root, o, c, path);
    StuckKeepsAncestors(t, root, o, c, root);
    forall p | p in t && c <= p
      ensures p in Keep(t, root, o)
    {
      if IsDir(t, c) {
        SealedKeepsAll(t, root, o, c);
      } else if c < p {
        AncestorsAreDirs(t, c, p);
      } else {
        assert p == c;
      }
    }
    StepStuck(t, root, o, Keep(t, root, o), ls);
  }

  lemma GoodUnlinked<D, F>(t: Tree<D, F>, root: Path, o: Obstacles, ls: seq<Level<bool>>,
                           cur: Tree<D, F>, removed: seq<Path>, errs: seq<Path>, ok: bool)
    requires WellFormed(t) && Good(t, root, o, ls, cur, removed, errs, ok)
    requires HasNext(ls)
    requires !IsDir(t, Next(Top(ls))) && Next(Top(ls)) in t && !Stuck(t, o, Next(Top(ls)))
    ensures Good(t, root, o, TakeNext(ls, Top(ls).data), cur - {Next(Top(ls))}, removed + [Next(Top(ls))], errs, ok)
  {
    var c, keep := Next(Top(ls)), Keep(t, root, o);
    LeafGoes(t, root, o, ls, c);
    StepUnlinked(t, root, o, keep, ls);
    AncestorsAreOpen(t, root, ls);
    ViewShrinks(t, root, Still(t, keep, ls), cur, removed, c);
  }

  /** A non-directory whose ancestors were all opened stays only if stuck. */
  lemma LeafGoes<D, F>(t: Tree<D, F>, root: Path, o: Obstacles, ls: seq<Level<bool>>, c: Path)
    requires WellFormed(t) && Inv(t, root, o, Keep(t, root, o), ls) && ls != []
    requires Top(ls).pending.Some? && Top(ls).pending.value != []
    requires c in t && c != [] && Parent(c) == Top(ls).path && !IsDir(t, c) && !Stuck(t, o, c)
    ensures c !in Keep(t, root, o)
  {
    NothingSealedAbove(t, root, o, ls);
    forall q | c <= q
      ensures !Stuck(t, o, q)
    {
      if c < q && q in t {
        AncestorsAreDirs(t, c, q);
      }
      assert c < q || c == q;
    }
    forall q | root <= q <= c
      ensures !Sealed(t, o, q)
    {
      assert q <= Parent(c) || q == c;
    }
  }

  lemma GoodEntered<D, F>(t: Tree<D, F>, root: Path, o: Obstacles, ls: seq<Level<bool>>,
                          cur: Tree<D, F>, removed: seq<Path>, errs: seq<Path>, ok: bool)
    requires WellFormed(t) && Good(t, root, o, ls, cur, removed, errs, ok)
    requires HasNext(ls)
    requires IsDir(t, Next(Top(ls))) && Next(Top(ls)) !in o.noStat + o.noOpen
    ensures Good(t, root, o, TakeNext(ls, Top(ls).data) + [Level(Next(Top(ls)), None, true)], cur, removed, errs, ok)
  {
    StepEntered(t, root, o, Keep(t, root, o), ls);
    hide Inv, Still, Keep, Midway, LogRight, Stuck;
  }

  /** A pending child is still in the tree, as it was. */
  lemma NextIsThere<D, F>(t: Tree<D, F>, root: Path, o: Obstacles, ls: seq<Level<bool>>,
                          cur: Tree<D, F>, removed: seq<Path>, errs: seq<Path>, ok: bool)
    requires WellFormed(t) && Good(t, root, o, ls, cur, removed, errs, ok)
    requires HasNext(ls)
    ensures var c := Next(Top(ls)); c in t && c in cur && cur[c] == t[c]
  {
    Taken(t, ls, false);
  }

  lemma Finished<D, F>(t: Tree<D, F>, root: Path, o: Obstacles,
                       cur: Tree<D, F>, removed: seq<Path>, errs: seq<Path>, ok: bool)
    requires WellFormed(t) && IsDir(t, root) && Good(t, root, o, [], cur, removed, errs, ok)
    ensures cur == Remaining(t, root, o)
    ensures ok <==> forall p :: p in cur ==> !(root <= p)
    ensures forall p :: p in removed <==> p in t && p !in cur
    ensures ok <==> errs == []
  {
    var keep := Keep(t, root, o);
    assert root in keep ==> root in cur && root <= root;
    if root !in keep {
      forall p | p in t && root <= p
        ensures p !in keep
      {
        if p in keep {
          WhatStaysHoldsItsParent(t, root, o, root, p);
        }
      }
    }
  }

  lemma EveryStepIsCloser<D, F>(t: Tree<D, F>, ls: seq<Level<bool>>)
    requires Chain(t, ls) && ls != []
    ensures Top(ls).pending == Some([]) ==>
      var up := Below(ls);
      Closer(t, ls, up) && (up != [] ==> Closer(t, ls, WithTop(up, Top(up).(data := false))))
    ensures HasNext(ls) ==> Closer(t, ls, TakeNext(ls, Top(ls).data))
    ensures HasNext(ls) && IsDir(t, Next(Top(ls))) ==>
      Closer(t, ls, TakeNext(ls, Top(ls).data) + [Level(Next(Top(ls)), None, true)])
  {
    if HasNext(ls) {
      Taken(t, ls, Top(ls).data);
      if IsDir(t, Next(Top(ls))) {
        Entered(t, ls, Top(ls).data, true);
      }
    } else if Top(ls).pending.Some? {
      Popped(t, ls);
      if Below(ls) != [] {
        Relabelled(t, Below(ls), false);
      }
    }
  }

  lemma GoodIsCloser<D, F>(t: Tree<D, F>, root: Path, o: Obstacles, ls: seq<Level<bool>>,
                           cur: Tree<D, F>, removed: seq<Path>, errs: seq<Path>, ok: bool)
    requires Good(t, root, o, ls, cur, removed, errs, ok) && ls != []
    ensures Top(ls).pending == Some([]) ==>
      var up := Below(ls);
      Closer(t, ls, up) && (up != [] ==> Closer(t, ls, WithTop(up, Top(up).(data := false))))
    ensures HasNext(ls) ==> Closer(t, ls, TakeNext(ls, Top(ls).data))
    ensures HasNext(ls) && IsDir(t, Next(Top(ls))) ==>
      Closer(t, ls, TakeNext(ls, Top(ls).data) + [Level(Next(Top(ls)), None, true)])
  {
    EveryStepIsCloser(t, ls);
  }

  /** Where the levels are: each in the one under it, and all of them still
      in the tree, with nothing changed but removals. */
  lemma {:induction false} LevelsAreDirs<D, F>(t: Tree<D, F>, ls: seq<Level<bool>>)
    requires Chain(t, ls)
    ensures forall i :: 0 <= i < |ls| ==> IsDir(t, ls[i].path) && ls[i].path in Open(ls)
    ensures forall i :: 0 < i < |ls| ==> ls[i].path != [] && Parent(ls[i].path) == ls[i - 1].path
  {
    if ls != [] {
      LevelsAreDirs(t, Below(ls));
    }
  }

  lemma GoodLevels<D, F>(t: Tree<D, F>, root: Path, o: Obstacles, ls: seq<Level<bool>>,
                         cur: Tree<D, F>, removed: seq<Path>, errs: seq<Path>, ok: bool)
    requires Good(t, root, o, ls, cur, removed, errs, ok)
    ensures forall i :: 0 <= i < |ls| ==> IsDir(t, ls[i].path) && IsDir(cur, ls[i].path)
    ensures forall i :: 0 < i < |ls| ==> ls[i].path != [] && Parent(ls[i].path) == ls[i - 1].path
    ensures ls != [] ==> ls[0].path == root
    ensures forall p :: p in cur ==> p in t && cur[p] == t[p]
    ensures forall p :: p in t && !(root <= p) ==> p in cur
  {
    LevelsAreDirs(t, ls);
  }

  lemma GoodAtStart<D, F>(t: Tree<D, F>, root: Path, o: Obstacles)
    requires WellFormed(t) && IsDir(t, root) && root !in o.noStat + o.noOpen
    ensures Good(t, root, o, [Level(root, None, true)], t, [], [], true)
  {
    Begin(t, root, o);
  }

  /** The descent itself, once the root has been opened. */
  method EmptyAndRemove<D, F>(t: Tree<D, F>, root: Path, o: Obstacles)
    returns (cur: Tree<D, F>, ok: bool, removed: seq<Path>, errs: seq<Path>)
    requires WellFormed(t) && IsDir(t, root) && root !in o.noStat + o.noOpen
    ensures Good(t, root, o, [], cur, removed, errs, ok)
  {
    hide Good, Chain, WellFormed, Ahead;
    cur, ok, removed, errs := t, true, [], [];
    var ls := [Level(root, None, true)];
    GoodAtStart(t, root, o);
    while ls != []
      invariant Good(t, root, o, ls, cur, removed, errs, ok)
      decreases Ahead(t, ls), Steps(ls)
    {
      var frame := Top(ls);
      GoodIsCloser(t, root, o, ls, cur, removed, errs, ok);
      if frame.pending.None? {
        if frame.path in o.noList {
          GoodUnlisted(t, root, o, ls, cur, removed, errs, ok);
          errs := errs + [frame.path];
          ls := WithTop(ls, Level(frame.path, Some([]), false));
        } else {
          var names := ListReversed(cur, frame.path);
          GoodListed(t, root, o, ls, cur, removed, errs, ok, names);
          ls := WithTop(ls, Level(frame.path, Some(names), frame.data));
        }
      } else if frame.pending.value == [] {
        var emptied := frame.data && frame.path !in o.noUnlink;
        if emptied {
          GoodRemoved(t, root, o, ls, cur, removed, errs, ok);
          cur, removed := cur - {frame.path}, removed + [frame.path];
        } else {
          GoodLeft(t, root, o, ls, cur, removed, errs, ok);
          if frame.data {
            errs := errs + [frame.path];
          }
        }
        ls := Below(ls);
        if !emptied {
          ok := false;
          if ls != [] {
            ls := WithTop(ls, Top(ls).(data := false));
          }
        }
      } else {
        NextIsThere(t, root, o, ls, cur, removed, errs, ok);
        var child := Next(frame);
        var isDir := cur[child].Dir?;
        if child in o.noStat || child in (if isDir then o.noOpen else o.noUnlink) {
          GoodStuck(t, root, o, ls, cur, removed, errs, ok);
          errs := errs + [child];
          ls := TakeNext(ls, false);
        } else if !isDir {
          GoodUnlinked(t, root, o, ls, cur, removed, errs, ok);
          cur, removed := cur - {child}, removed + [child];
          ls := TakeNext(ls, frame.data);
        } else {
          GoodEntered(t, root, o, ls, cur, removed, errs, ok);
          ls := TakeNext(ls, frame.data) + [Level(child, None, true)];
        }
      }
    }
  }

  /** What is left is exactly what has to stay, the verdict says whether that
      is nothing, and every removal was reported once, children first. */
  method RmtreeAt<D, F>(t: Tree<D, F>, root: Path, o: Obstacles)
    returns (cur: Tree<D, F>, ok: bool, removed: seq<Path>, errs: seq<Path>)
    requires WellFormed(t)
    ensures cur == Remaining(t, root, o)
    ensures ok <==> forall p :: p in cur ==> !(root <= p)
    ensures ChildrenFirst(removed)
    ensures forall p :: p in removed <==> p in t && p !in cur
    ensures forall p :: p in errs ==> Stuck(t, o, p)
    ensures ok <==> errs == []
  {
    cur, ok, removed, errs := t, true, [], [];
    if root !in t {
      AbsentRoot(t, root, o);
    } else if root in o.noStat || root in (if t[root].Dir? then o.noOpen else o.noUnlink) {
      RootIsStuck(t, root, o);
      ok, errs := false, [root];
    } else if !t[root].Dir? {
      RootIsAlone(t, root, o);
      cur, removed := cur - {root}, [root];
    } else {
      cur, ok, removed, errs := EmptyAndRemove(t, root, o);
      Finished(t, root, o, cur, removed, errs, ok);
    }
  }

  lemma AbsentRoot<D, F>(t: Tree<D, F>, root: Path, o: Obstacles)
    requires WellFormed(t) && root !in t
    ensures Remaining(t, root, o) == t && forall p :: p in t ==> !(root <= p)
  {
    forall p | p in t
      ensures !(root <= p)
    {
      if root < p {
        AncestorsAreDirs(t, root, p);
      }
      assert root <= p ==> root < p || root == p;
    }
  }

  lemma RootIsStuck<D, F>(t: Tree<D, F>, root: Path, o: Obstacles)
    requires WellFormed(t) && Stuck(t, o, root)
    requires !IsDir(t, root) || Sealed(t, o, root)
    ensures Remaining(t, root, o) == t
  {
    forall p | p in t && root <= p
      ensures Stays(t, root, o, p)
    {
      if Sealed(t, o, root) {
        assert root <= root <= p;
      } else if root < p {
        AncestorsAreDirs(t, root, p);
      }
    }
  }

  lemma RootIsAlone<D, F>(t: Tree<D, F>, root: Path, o: Obstacles)
    requires WellFormed(t) && root in t && !IsDir(t, root) && !Stuck(t, o, root)
    ensures Remaining(t, root, o) == t - {root}
    ensures forall p :: p in t && root <= p ==> p == root
  {
    forall p | p in t && root <= p
      ensures p == root
    {
      if |root| != |p| {
        AncestorsAreDirs(t, root, p);
      }
    }
    forall q | root <= q
      ensures !Stuck(t, o, q)
    {
    }
  }

  lemma Begin<D, F>(t: Tree<D, F>, root: Path, o: Obstacles)
    requires WellFormed(t) && IsDir(t, root) && root !in o.noStat + o.noOpen
    ensures var ls := [Level(root, None, true)];
      var still := Still(t, Keep(t, root, o), ls);
      && Inv(t, root, o, Keep(t, root, o), ls)
      && Midway(t, root, still) == t && LogRight(t, root, still, [])
  {
    var ls := [Level(root, None, true)];
    Start(t, root, true);
    assert Below(ls) == [];
    forall p | p in t && root <= p
      ensures p == root || root < p
    {
      assert |p| == |root| ==> p == root;
    }
  }
}
