/** copy --move across devices: copy the tree, and only then remove the
    source. Nothing of the source is ever lost on the way. */
module Copying {
  import opened Attributes
  import opened Names
  import opened Trees
  import opened Resolver
  import opened Walks
  import opened Sync
  import Mirror
  import Removal

  /** Paths of the source at which a call fails: lstat, opening or listing a
      directory, reading a file or a link; and, on the destination, making
      the entry (perhaps after writing part of a file) or entering it. Where
      the mode cannot be set the entry keeps the one it was made with, and
      where times cannot, that of the copy; neither is counted. */
  datatype Trouble = Trouble(noStat: set<Path>, noOpen: set<Path>, noList: set<Path>, noRead: set<Path>,
                             noMake: set<Path>, partial: map<Path, FileStat>, noEnter: set<Path>,
                             noChmod: map<Path, Mode>, noTimes: set<Path>)

  const UNTROUBLED := Trouble({}, {}, {}, {}, {}, map[], {}, map[], {})

  function ModeLeft(o: Trouble, p: Path, mode: Mode): Mode {
    if p in o.noChmod then o.noChmod[p] else mode
  }

  /** What arrives at the destination when an entry is carried across. */
  function Arriving(o: Trouble, n: SNode, p: Path, now: int): SNode {
    match n
    case Dir(st) => Dir(DirStat(ModeLeft(o, p, st.mode), if p in o.noTimes then now else st.mtime))
    case File(f) => File(FileStat(f.data, ModeLeft(o, p, f.mode), if p in o.noTimes then now else f.mtime))
    case _ => n
  }

  /** A whole tree as it can arrive. */
  ghost function Arrived(o: Trouble, s: STree, now: int): STree {
    map p | p in s :: Arriving(o, s[p], p, now)
  }

  /** Kind, content and target are the same. */
  predicate SameContent(n: SNode, m: SNode) {
    match n
    case Dir(_) => m.Dir?
    case File(f) => m.File? && m.file.data == f.data
    case _ => m == n
  }

  /** The mode and the time are right even where they cannot be set. */
  predicate AttributesTake(o: Trouble, n: SNode, p: Path, now: int) {
    match n
    case Dir(st) => (p in o.noChmod ==> o.noChmod[p] == st.mode) && (p in o.noTimes ==> now == st.mtime)
    case File(f) => (p in o.noChmod ==> o.noChmod[p] == f.mode) && (p in o.noTimes ==> now == f.mtime)
    case _ => true
  }

  /** Nothing is lost but modes and times, and those exactly where a refused
      call would have had something to set right. */
  lemma ArrivingExactly(o: Trouble, n: SNode, p: Path, now: int)
    ensures SameContent(n, Arriving(o, n, p, now))
    ensures Arriving(o, n, p, now) == n <==> AttributesTake(o, n, p, now)
  {
  }

  /** The walk sees the same tree in either. */
  lemma ArrivedIsAlike(o: Trouble, s: STree, now: int)
    ensures WellFormed(s) ==> WellFormed(Arrived(o, s, now))
    ensures forall d :: ChildNames(Arrived(o, s, now), d) == ChildNames(s, d)
    ensures forall p :: p in s ==> BadEntry(Arrived(o, s, now), o, p) == BadEntry(s, o, p)
    ensures forall p :: BadListing(Arrived(o, s, now), o, p) == BadListing(s, o, p)
  {
    var t := Arrived(o, s, now);
    if WellFormed(s) {
      forall p | p in t
        ensures Rooted(t, p)
      {
        assert Rooted(s, p);
      }
    }
    forall d, n
      ensures n in ChildNames(t, d) <==> n in ChildNames(s, d)
    {
      ChildNamesExact(t, d, n);
      ChildNamesExact(s, d, n);
    }
    forall d
      ensures ChildNames(t, d) == ChildNames(s, d)
    {
    }
  }

  /** The entry itself is not carried across. */
  predicate BadEntry(s: STree, o: Trouble, p: Path)
    requires p in s
  {
    || p in o.noStat || p in o.noMake || s[p].Special?
    || (if s[p].Dir? then p in o.noOpen || p in o.noEnter else p in o.noRead)
  }

  predicate BadListing(s: STree, o: Trouble, p: Path) {
    IsDir(s, p) && p in o.noList
  }

  /** The destination of a source path. */
  function To(sp: Path, dp: Path, p: Path): Path
    requires sp <= p
  {
    dp + p[|sp|..]
  }

  lemma ToIsInjective(sp: Path, dp: Path, p: Path, q: Path)
    requires sp <= p && sp <= q
    ensures To(sp, dp, p) == To(sp, dp, q) <==> p == q
    ensures To(sp, dp, p) <= To(sp, dp, q) <==> p <= q
    ensures p != sp ==> To(sp, dp, p) != [] && Parent(To(sp, dp, p)) == To(sp, dp, Parent(p)) && Leaf(To(sp, dp, p)) == Leaf(p)
  {
    assert To(sp, dp, p)[|dp|..] == p[|sp|..] && To(sp, dp, q)[|dp|..] == q[|sp|..];
    assert p == sp + p[|sp|..] && q == sp + q[|sp|..];
    if To(sp, dp, p) <= To(sp, dp, q) {
      assert To(sp, dp, q)[..|To(sp, dp, p)|] == To(sp, dp, p);
      assert q[..|p|] == p;
    }
  }

  // -------------------------------------------------------------------------
  // One entry
  // -------------------------------------------------------------------------

  /** Making an entry moves its directory's mtime. */
  function Made(d: STree, t: Path, n: SNode, now: int): STree
    requires t != [] && IsDir(d, Parent(t))
  {
    d[Parent(t) := Dir(DirStat(d[Parent(t)].dir.mode, now))][t := n]
  }

  /** mkdir, before the mode is set */
  function NewDir(o: Trouble, c: Path, now: int): DirStat {
    DirStat(ModeLeft(o, c, 0x1C0), now)
  }

  datatype Outcome = WasCopied | WasSkipped | HasFailed | WasEntered

  /** copy_symlink_at, copy_file_at, or mkdir and the two opens. */
  method CopyEntry(s: STree, o: Trouble, d: STree, c: Path, t: Path, now: int) returns (d': STree, r: Outcome)
    requires c in s && t != [] && IsDir(d, Parent(t)) && t !in d
    ensures BadEntry(s, o, c) <==> r.WasSkipped? || r.HasFailed?
    ensures r.WasSkipped? <==> s[c].Special? && c !in o.noStat
    ensures r.WasCopied? ==> !s[c].Dir? && d' == Made(d, t, Arriving(o, s[c], c, now), now)
    ensures r.WasEntered? ==> s[c].Dir? && d' == Made(d, t, Dir(NewDir(o, c, now)), now)
    ensures d' == d || exists n :: d' == Made(d, t, n, now)
  {
    d' := d;
    if c in o.noStat {
      return d, HasFailed;
    }
    match s[c] {
      case Special => r := WasSkipped;
      case Link(target) =>
        if c in o.noRead || c in o.noMake {
          r := HasFailed;
        } else {
          d', r := Made(d, t, Link(target), now), WasCopied;
        }
      case Dir(_) =>
        if c in o.noMake {
          r := HasFailed;
        } else {
          d' := Made(d, t, Dir(NewDir(o, c, now)), now);
          r := if c in o.noOpen || c in o.noEnter then HasFailed else WasEntered;
        }
      case File(f) =>
        if c in o.noRead {
          r := HasFailed;
        } else if c in o.noMake {
          if c in o.partial {
            d' := Made(d, t, File(o.partial[c]), now);
          }
          r := HasFailed;
        } else {
          d', r := Made(d, t, Arriving(o, s[c], c, now), now), WasCopied;
        }
    }
  }

  // -------------------------------------------------------------------------
  // The tree
  // -------------------------------------------------------------------------

  /** What the walk has behind it. */
  ghost function Past(s: STree, sp: Path, ls: seq<Level<()>>): set<Path> {
    From(s, sp) - Ahead(s, ls)
  }

  /** Everything at the destination comes from what is behind. */
  ghost predicate Fresh(sp: Path, dp: Path, past: set<Path>, d: STree) {
    forall q :: q in d && dp <= q ==> sp + q[|dp|..] in past
  }

  /** Outside the destination nothing has changed, but for the time of the
      directory that holds it. */
  ghost predicate RestKept(d0: STree, d: STree, dp: Path) {
    && (forall q :: !(dp <= q) && q != Parent(dp) ==> (q in d <==> q in d0) && (q in d ==> d[q] == d0[q]))
    && (dp != [] ==> SameButTime(d0, d, Parent(dp)))
  }

  ghost predicate SameButTime(d0: STree, d: STree, q: Path) {
    (q in d <==> q in d0) && (q in d0 ==> if IsDir(d0, q) then IsDir(d, q) && d[q].dir.mode == d0[q].dir.mode else d[q] == d0[q])
  }

  lemma RestKeptMade(d0: STree, d: STree, dp: Path, t: Path, n: SNode, now: int)
    requires RestKept(d0, d, dp) && dp <= t && t != [] && (t == dp || dp < t) && IsDir(d, Parent(t))
    ensures RestKept(d0, Made(d, t, n, now), dp)
  {
    assert t != dp ==> dp <= Parent(t);
    assert dp != [] ==> !(dp <= Parent(dp));
  }

  lemma RestKeptStamp(d0: STree, d: STree, dp: Path, t: Path, n: SNode)
    requires RestKept(d0, d, dp) && dp <= t
    ensures RestKept(d0, d[t := n], dp)
  {
    assert dp != [] ==> !(dp <= Parent(dp));
  }

  lemma RestKeptOnwards(d0: STree, d1: STree, d: STree, dp: Path)
    requires RestKept(d0, d1, dp) && RestKept(d1, d, dp)
    ensures RestKept(d0, d, dp)
  {
  }

  lemma AllKeptOnwards(d0: STree, d1: STree, trace: seq<STree>, dp: Path)
    requires RestKept(d0, d1, dp) && AllKept(d1, trace, dp)
    ensures AllKept(d0, trace, dp)
  {
    forall i | 0 <= i < |trace|
      ensures RestKept(d0, trace[i], dp)
    {
      RestKeptOnwards(d0, d1, trace[i], dp);
    }
  }

  /** Whatever the moment, only what lies at dp or below has changed. */
  ghost predicate AllKept(d0: STree, trace: seq<STree>, dp: Path) {
    forall i :: 0 <= i < |trace| ==> RestKept(d0, trace[i], dp)
  }

  /** The entries that are across, directories still being filled apart. */
  ghost predicate Across(s: STree, sp: Path, dp: Path, past: set<Path>, stack: set<Path>, d: STree) {
    forall p :: p in past && p !in stack ==> p in s && sp <= p && To(sp, dp, p) in d && d[To(sp, dp, p)] == s[p]
  }

  ghost predicate Carried(s: STree, sp: Path, dp: Path, d0: STree, d: STree, past: set<Path>, stack: set<Path>, clean: bool) {
    && WellFormed(d) && Fresh(sp, dp, past, d) && RestKept(d0, d, dp)
    && (forall p :: p in stack ==> sp <= p && p in past && IsDir(s, p) && IsDir(d, To(sp, dp, p)))
    && (clean ==> Across(s, sp, dp, past, stack, d))
  }

  lemma MadeIsWellFormed(d: STree, t: Path, n: SNode, now: int)
    requires WellFormed(d) && t != [] && IsDir(d, Parent(t)) && t !in d && ValidName(Leaf(t))
    ensures WellFormed(Made(d, t, n, now))
  {
    var u := d[Parent(t) := Dir(DirStat(d[Parent(t)].dir.mode, now))];
    forall p | p in u
      ensures Rooted(u, p)
    {
      assert Rooted(d, p);
    }
    AddedIsWellFormed(u, t, n);
  }

  lemma NotYetThere(s: STree, sp: Path, dp: Path, d0: STree, d: STree, past: set<Path>, stack: set<Path>, clean: bool, c: Path)
    requires Carried(s, sp, dp, d0, d, past, stack, clean) && WellFormed(s)
    requires c in s && sp < c && c !in past && Parent(c) in stack
    ensures var t := To(sp, dp, c);
      t !in d && t != [] && IsDir(d, Parent(t)) && ValidName(Leaf(t)) && dp < t && Parent(t) == To(sp, dp, Parent(c))
  {
    ToIsInjective(sp, dp, c, c);
    assert Rooted(s, c);
    assert sp + To(sp, dp, c)[|dp|..] == c;
  }

  lemma FreshMade(sp: Path, dp: Path, past: set<Path>, d: STree, c: Path, n: SNode, now: int, past': set<Path>)
    requires Fresh(sp, dp, past, d) && sp <= c && past + {c} <= past'
    requires To(sp, dp, c) != [] && IsDir(d, Parent(To(sp, dp, c)))
    ensures Fresh(sp, dp, past', Made(d, To(sp, dp, c), n, now))
  {
    assert sp + To(sp, dp, c)[|dp|..] == c;
  }

  lemma StackMade(s: STree, sp: Path, dp: Path, past: set<Path>, stack: set<Path>, d: STree, c: Path, n: SNode, now: int)
    requires sp <= c && To(sp, dp, c) != [] && IsDir(d, Parent(To(sp, dp, c))) && To(sp, dp, c) !in d
    requires forall p :: p in stack ==> sp <= p && p in past && IsDir(s, p) && IsDir(d, To(sp, dp, p))
    ensures forall p :: p in stack ==> IsDir(Made(d, To(sp, dp, c), n, now), To(sp, dp, p))
  {
  }

  lemma AcrossMade(s: STree, sp: Path, dp: Path, past: set<Path>, stack: set<Path>, d: STree, c: Path, n: SNode, now: int)
    requires Across(s, sp, dp, past, stack, d) && c in s && sp < c && Parent(c) in stack && sp <= Parent(c)
    requires To(sp, dp, c) != [] && IsDir(d, Parent(To(sp, dp, c))) && To(sp, dp, c) !in d
    ensures var d' := Made(d, To(sp, dp, c), n, now);
      && (n == s[c] ==> Across(s, sp, dp, past + {c}, stack, d'))
      && Across(s, sp, dp, past + {c}, stack + {c}, d')
  {
    forall p | p in past && p !in stack
      ensures To(sp, dp, p) != Parent(To(sp, dp, c))
    {
      ToIsInjective(sp, dp, c, c);
      ToIsInjective(sp, dp, p, Parent(c));
    }
  }

  /** An entry was made, wholly or in part, or was left out. */
  lemma CarriedStep(s: STree, sp: Path, dp: Path, d0: STree, d: STree, past: set<Path>, stack: set<Path>, clean: bool,
                    c: Path, n: SNode, now: int, past': set<Path>, clean': bool)
    requires Carried(s, sp, dp, d0, d, past, stack, clean) && WellFormed(s)
    requires c in s && sp < c && c !in past && Parent(c) in stack
    requires past + {c} <= past' && (clean' ==> clean && past' == past + {c})
    ensures Placeable(s, sp, dp, d, c)
    ensures var d' := Made(d, To(sp, dp, c), n, now);
      && (n == s[c] || !clean' ==> Carried(s, sp, dp, d0, d', past', stack, clean'))
      && (n.Dir? && s[c].Dir? ==> Carried(s, sp, dp, d0, d', past', stack + {c}, clean'))
  {
    var t := To(sp, dp, c);
    NotYetThere(s, sp, dp, d0, d, past, stack, clean, c);
    MadeIsWellFormed(d, t, n, now);
    RestKeptMade(d0, d, dp, t, n, now);
    FreshMade(sp, dp, past, d, c, n, now, past');
    StackMade(s, sp, dp, past, stack, d, c, n, now);
    if clean {
      AcrossMade(s, sp, dp, past, stack, d, c, n, now);
    }
    assert Made(d, t, n, now)[t] == n;
    hide RestKept, Fresh, Across, WellFormed, Made;
  }

  ghost predicate Placeable(s: STree, sp: Path, dp: Path, d: STree, c: Path) {
    sp <= c && To(sp, dp, c) != [] && IsDir(d, Parent(To(sp, dp, c)))
  }

  lemma CarriedPast(s: STree, sp: Path, dp: Path, d0: STree, d: STree, past: set<Path>, stack: set<Path>, clean: bool, past': set<Path>)
    requires Carried(s, sp, dp, d0, d, past, stack, clean) && past <= past'
    ensures Carried(s, sp, dp, d0, d, past', stack, false)
  {
  }

  lemma AcrossStamp(s: STree, sp: Path, dp: Path, past: set<Path>, stack: set<Path>, d: STree, c: Path)
    requires Across(s, sp, dp, past, stack, d) && c in s && sp <= c
    ensures Across(s, sp, dp, past, stack - {c}, d[To(sp, dp, c) := s[c]])
  {
    forall p | p in past && sp <= p
      ensures To(sp, dp, p) == To(sp, dp, c) <==> p == c
    {
      ToIsInjective(sp, dp, p, c);
    }
  }

  lemma StampIsWellFormed(d: STree, t: Path, n: SNode)
    requires WellFormed(d) && IsDir(d, t) && n.Dir?
    ensures WellFormed(d[t := n])
  {
    forall p | p in d
      ensures Rooted(d[t := n], p)
    {
      assert Rooted(d, p);
    }
  }

  /** copy_metadata, on the way back up. */
  lemma CarriedStamp(s: STree, sp: Path, dp: Path, d0: STree, d: STree, past: set<Path>, stack: set<Path>, clean: bool, c: Path)
    requires Carried(s, sp, dp, d0, d, past, stack, clean) && c in stack
    ensures Carried(s, sp, dp, d0, d[To(sp, dp, c) := s[c]], past, stack - {c}, clean)
  {
    var t := To(sp, dp, c);
    StampIsWellFormed(d, t, s[c]);
    RestKeptStamp(d0, d, dp, t, s[c]);
    if clean {
      AcrossStamp(s, sp, dp, past, stack, d, c);
    }
    hide RestKept, Across, WellFormed;
  }

  // -------------------------------------------------------------------------
  // The walk
  // -------------------------------------------------------------------------

  /** The directories being filled are as they were made, and as old as what
      is being put into them. */
  ghost predicate Filling(o: Trouble, sp: Path, dp: Path, d: STree, stack: set<Path>, now: int) {
    forall p :: p in stack && sp <= p && IsDir(d, To(sp, dp, p)) ==>
      var st := d[To(sp, dp, p)].dir;
      (p in o.noChmod ==> st.mode == o.noChmod[p]) && st.mtime == now
  }

  lemma FillingMade(o: Trouble, sp: Path, dp: Path, d: STree, stack: set<Path>, c: Path, n: SNode, now: int)
    requires Filling(o, sp, dp, d, stack, now) && sp <= c && To(sp, dp, c) != [] && IsDir(d, Parent(To(sp, dp, c)))
    requires c !in stack
    ensures Filling(o, sp, dp, Made(d, To(sp, dp, c), n, now), stack, now)
    ensures n == Dir(NewDir(o, c, now)) ==> Filling(o, sp, dp, Made(d, To(sp, dp, c), n, now), stack + {c}, now)
  {
    forall p | p in stack && sp <= p
      ensures To(sp, dp, p) != To(sp, dp, c)
    {
      ToIsInjective(sp, dp, p, c);
    }
  }

  lemma FillingStamp(o: Trouble, sp: Path, dp: Path, d: STree, stack: set<Path>, c: Path, n: SNode, now: int)
    requires Filling(o, sp, dp, d, stack, now) && sp <= c
    ensures Filling(o, sp, dp, d[To(sp, dp, c) := n], stack - {c}, now)
  {
    forall p | p in stack && sp <= p && p != c
      ensures To(sp, dp, p) != To(sp, dp, c)
    {
      ToIsInjective(sp, dp, p, c);
    }
  }

  /** copy_metadata on a directory that has been filled. */
  function Stamp(o: Trouble, c: Path, was: DirStat, to: DirStat): DirStat {
    DirStat(if c in o.noChmod then was.mode else to.mode, if c in o.noTimes then was.mtime else to.mtime)
  }

  lemma StampIsArriving(o: Trouble, s: STree, sp: Path, dp: Path, d: STree, stack: set<Path>, c: Path, now: int)
    requires Filling(o, sp, dp, d, stack, now) && c in stack && sp <= c && IsDir(s, c) && IsDir(d, To(sp, dp, c))
    ensures Dir(Stamp(o, c, d[To(sp, dp, c)].dir, s[c].dir)) == Arriving(o, s[c], c, now) == Arrived(o, s, now)[c]
  {
  }

  ghost predicate Troubled(s: STree, o: Trouble, sp: Path, p: Path) {
    p in s && sp <= p && ((p != sp && BadEntry(s, o, p)) || BadListing(s, o, p))
  }

  /** clean: no failure and no skip was counted; otherwise bad is one. */
  ghost predicate Accounted(s: STree, o: Trouble, sp: Path, past: set<Path>, unlisted: set<Path>, clean: bool, bad: Path) {
    if clean then forall p :: p in past ==> p in s && (p != sp ==> !BadEntry(s, o, p)) && (p !in unlisted ==> !BadListing(s, o, p))
    else Troubled(s, o, sp, bad)
  }

  ghost function Unlisted(ls: seq<Level<()>>): set<Path> {
    if ls != [] && Top(ls).pending.None? then {Top(ls).path} else {}
  }

  ghost predicate Underway(s: STree, o: Trouble, sp: Path, dp: Path, d0: STree, d: STree, ls: seq<Level<()>>, clean: bool, bad: Path) {
    && Chain(s, ls) && (ls != [] ==> ls[0].path == sp)
    && Carried(s, sp, dp, d0, d, Past(s, sp, ls), Mirror.Paths(ls) + {sp}, clean)
    && Accounted(s, o, sp, Past(s, sp, ls), Unlisted(ls), clean, bad)
  }

  lemma CopyStart(s: STree, o: Trouble, sp: Path, dp: Path, d0: STree)
    requires WellFormed(s) && WellFormed(d0) && IsDir(s, sp) && IsDir(d0, dp) && forall q :: dp < q ==> q !in d0
    ensures Underway(s, o, sp, dp, d0, d0, [Level(sp, None, ())], true, [])
  {
    var ls: seq<Level<()>> := [Level(sp, None, ())];
    Start(s, sp, ());
    forall p | p in From(s, sp)
      ensures p == sp || sp < p
    {
      assert sp <= p;
    }
    assert sp in From(s, sp);
    assert Past(s, sp, ls) == {sp};
    assert Mirror.Paths(ls) + {sp} == {sp};
    forall q | q in d0 && dp <= q
      ensures q == dp
    {
      assert q == dp || dp < q;
    }
    assert sp + dp[|dp|..] == sp && To(sp, dp, sp) == dp;
  }

  lemma CopyListed(s: STree, o: Trouble, sp: Path, dp: Path, d0: STree, d: STree, ls: seq<Level<()>>, clean: bool, bad: Path, names: seq<Name>)
    requires WellFormed(s) && Underway(s, o, sp, dp, d0, d, ls, clean, bad) && ls != [] && Top(ls).pending.None?
    requires Top(ls).path !in o.noList && NoDuplicates(names) && forall n :: n in names <==> n in ChildNames(s, Top(ls).path)
    ensures var ls' := WithTop(ls, Level(Top(ls).path, Some(names), ()));
      Underway(s, o, sp, dp, d0, d, ls', clean, bad) && Closer(s, ls, ls')
  {
    Listed(s, ls, names, ());
    Mirror.PathsOfWithTop(ls, Level(Top(ls).path, Some(names), ()));
  }

  lemma CopyUnlisted(s: STree, o: Trouble, sp: Path, dp: Path, d0: STree, d: STree, ls: seq<Level<()>>, clean: bool, bad: Path)
    requires WellFormed(s) && Underway(s, o, sp, dp, d0, d, ls, clean, bad) && ls != [] && Top(ls).pending.None?
    requires Top(ls).path in o.noList
    ensures var ls' := WithTop(ls, Level(Top(ls).path, Some([]), ()));
      Underway(s, o, sp, dp, d0, d, ls', false, Top(ls).path) && Closer(s, ls, ls')
  {
    var ls' := WithTop(ls, Level(Top(ls).path, Some([]), ()));
    PassedOver(s, ls, ());
    Mirror.PathsOfWithTop(ls, Level(Top(ls).path, Some([]), ()));
    CarriedPast(s, sp, dp, d0, d, Past(s, sp, ls), Mirror.Paths(ls) + {sp}, clean, Past(s, sp, ls'));
  }

  lemma CopyLeft(s: STree, o: Trouble, sp: Path, dp: Path, d0: STree, d: STree, ls: seq<Level<()>>, clean: bool, bad: Path)
    requires WellFormed(s) && Underway(s, o, sp, dp, d0, d, ls, clean, bad) && ls != [] && Top(ls).pending == Some([])
    ensures Closer(s, ls, Below(ls)) && sp <= Top(ls).path && IsDir(s, Top(ls).path)
    ensures Underway(s, o, sp, dp, d0, if |ls| > 1 then d[To(sp, dp, Top(ls).path) := s[Top(ls).path]] else d, Below(ls), clean, bad)
  {
    Popped(s, ls);
    LeftStack(s, ls, sp);
    if |ls| > 1 {
      CarriedStamp(s, sp, dp, d0, d, Past(s, sp, ls), Mirror.Paths(ls) + {sp}, clean, Top(ls).path);
    }
  }

  lemma LeftStack(s: STree, ls: seq<Level<()>>, sp: Path)
    requires Chain(s, ls) && ls != [] && ls[0].path == sp && Top(ls).pending.Some?
    ensures var c, stack := Top(ls).path, Mirror.Paths(ls) + {sp};
      && c in stack && Unlisted(Below(ls)) == {} && Unlisted(ls) == {}
      && (if |ls| > 1 then c != sp && stack - {c} == Mirror.Paths(Below(ls)) + {sp} else c == sp && stack == Mirror.Paths(Below(ls)) + {sp})
  {
    var below, c := Below(ls), Top(ls).path;
    Mirror.PathsOfWithTop(ls, Top(ls));
    Mirror.ShorterBelow(s, ls);
    assert below != [] ==> Top(below) == ls[|ls| - 2] && Top(below).pending.Some?;
    assert |ls| > 1 ==> ls[0] in below && ls[0] == below[0];
  }

  /** The name a level yields lies where the walk has not been. */
  lemma NextAhead(s: STree, o: Trouble, sp: Path, dp: Path, d0: STree, d: STree, ls: seq<Level<()>>, clean: bool, bad: Path)
    requires WellFormed(s) && Underway(s, o, sp, dp, d0, d, ls, clean, bad) && HasNext(ls)
    ensures var c := Next(Top(ls));
      && c in s && sp < c && c !in Past(s, sp, ls) && Parent(c) in Mirror.Paths(ls) + {sp}
      && Unlisted(ls) == {} && To(sp, dp, c) !in d && To(sp, dp, c) != [] && IsDir(d, Parent(To(sp, dp, c)))
  {
    var c := Next(Top(ls));
    Taken(s, ls, ());
    Mirror.PathsOfWithTop(ls, Top(ls));
    assert c in From(s, c) && Parent(c) == Top(ls).path;
    NotYetThere(s, sp, dp, d0, d, Past(s, sp, ls), Mirror.Paths(ls) + {sp}, clean, c);
  }

  lemma CopyTaken(s: STree, o: Trouble, sp: Path, dp: Path, d0: STree, d: STree, ls: seq<Level<()>>, clean: bool, bad: Path,
                  d': STree, now: int)
    requires WellFormed(s) && Underway(s, o, sp, dp, d0, d, ls, clean, bad) && HasNext(ls)
    requires sp <= Next(Top(ls)) && To(sp, dp, Next(Top(ls))) != [] && IsDir(d, Parent(To(sp, dp, Next(Top(ls)))))
    requires var c := Next(Top(ls));
      if BadEntry(s, o, c) then d' == d || exists n :: d' == Made(d, To(sp, dp, c), n, now)
      else !s[c].Dir? && d' == Made(d, To(sp, dp, c), s[c], now)
    ensures var c := Next(Top(ls));
      Underway(s, o, sp, dp, d0, d', TakeNext(ls, ()), clean && !BadEntry(s, o, c), if clean then c else bad) && Closer(s, ls, TakeNext(ls, ()))
  {
    hide Carried, WellFormed, Closer, Made, Chain;
    var c, ls' := Next(Top(ls)), TakeNext(ls, ());
    NextAhead(s, o, sp, dp, d0, d, ls, clean, bad);
    Taken(s, ls, ());
    Mirror.PathsOfWithTop(ls, Top(ls'));
    var past, past', stack := Past(s, sp, ls), Past(s, sp, ls'), Mirror.Paths(ls) + {sp};
    assert past' == past + From(s, c) by {
      forall p | p in From(s, c)
        ensures sp <= p
      {
        assert c <= p;
      }
    }
    assert c in From(s, c);
    if BadEntry(s, o, c) {
      if d' == d {
        CarriedPast(s, sp, dp, d0, d, past, stack, clean, past');
      } else {
        var n :| d' == Made(d, To(sp, dp, c), n, now);
        CarriedStep(s, sp, dp, d0, d, past, stack, clean, c, n, now, past', false);
      }
    } else {
      OnlyItself(s, c);
      CarriedStep(s, sp, dp, d0, d, past, stack, clean, c, s[c], now, past', clean);
    }
  }

  lemma CopyEntered(s: STree, o: Trouble, sp: Path, dp: Path, d0: STree, d: STree, ls: seq<Level<()>>, clean: bool, bad: Path,
                    d': STree, st: DirStat, now: int)
    requires WellFormed(s) && Underway(s, o, sp, dp, d0, d, ls, clean, bad) && HasNext(ls)
    requires sp <= Next(Top(ls)) && To(sp, dp, Next(Top(ls))) != [] && IsDir(d, Parent(To(sp, dp, Next(Top(ls)))))
    requires IsDir(s, Next(Top(ls))) && !BadEntry(s, o, Next(Top(ls))) && d' == Made(d, To(sp, dp, Next(Top(ls))), Dir(st), now)
    ensures var ls' := TakeNext(ls, ()) + [Level(Next(Top(ls)), None, ())];
      Underway(s, o, sp, dp, d0, d', ls', clean, bad) && Closer(s, ls, ls')
  {
    var c, mid := Next(Top(ls)), TakeNext(ls, ());
    var ls' := mid + [Level(c, None, ())];
    NextAhead(s, o, sp, dp, d0, d, ls, clean, bad);
    EnteredStack(s, ls, sp);
    var past, stack := Past(s, sp, ls), Mirror.Paths(ls) + {sp};
    CarriedStep(s, sp, dp, d0, d, past, stack, clean, c, Dir(st), now, past + {c}, clean);
  }

  lemma EnteredStack(s: STree, ls: seq<Level<()>>, sp: Path)
    requires Chain(s, ls) && HasNext(ls) && IsDir(s, Next(Top(ls))) && sp <= Next(Top(ls)) && ls[0].path == sp
    ensures var c := Next(Top(ls));
      var ls' := TakeNext(ls, ()) + [Level(c, None, ())];
      && Chain(s, ls') && Closer(s, ls, ls') && ls'[0].path == sp && Unlisted(ls') == {c}
      && Past(s, sp, ls') == Past(s, sp, ls) + {c} && Mirror.Paths(ls') + {sp} == Mirror.Paths(ls) + {sp} + {c}
  {
    var c, mid := Next(Top(ls)), TakeNext(ls, ());
    Entered(s, ls, (), ());
    Mirror.PathsOfWithTop(ls, Top(mid));
    Mirror.PathsOfPushed(mid, Level(c, None, ()));
  }

  // -------------------------------------------------------------------------
  // What is counted
  // -------------------------------------------------------------------------

  /** The directories the copy enters: no call fails on one or on any above,
      and those above can be listed. */
  ghost predicate Enters(s: STree, o: Trouble, sp: Path, d: Path) {
    && IsDir(s, d) && sp <= d
    && (forall k :: |sp| < k <= |d| ==> d[..k] !in o.noStat + o.noOpen + o.noMake + o.noEnter)
    && (forall k :: |sp| <= k < |d| ==> d[..k] !in o.noList)
  }

  /** The entries it comes across there. */
  ghost predicate Met(s: STree, o: Trouble, sp: Path, p: Path) {
    p in s && sp < p && Enters(s, o, sp, Parent(p)) && Parent(p) !in o.noList
  }

  /** A call fails on the entry itself. */
  predicate CallFails(s: STree, o: Trouble, p: Path)
    requires p in s
  {
    || p in o.noStat
    || (s[p].Dir? && p in o.noMake + o.noOpen + o.noEnter)
    || (!s[p].Dir? && !s[p].Special? && p in o.noMake + o.noRead)
  }

  /** Special files the copy gets to see. */
  ghost function SpecialsMet(s: STree, o: Trouble, sp: Path): set<Path> {
    set p | p in s && Met(s, o, sp, p) && s[p].Special? && p !in o.noStat
  }

  /** Entries met that a call fails on. */
  ghost function EntriesFailed(s: STree, o: Trouble, sp: Path): set<Path> {
    set p | p in s && Met(s, o, sp, p) && CallFails(s, o, p)
  }

  /** Directories entered that cannot be listed. */
  ghost function ListingsFailed(s: STree, o: Trouble, sp: Path): set<Path> {
    set p | p in s && Enters(s, o, sp, p) && p in o.noList
  }

  /** What the counters stand at, part of the way: past are the entries the
      copy has behind it, unlisted the directory it is about to list. */
  ghost predicate Counts(s: STree, o: Trouble, sp: Path, past: set<Path>, unlisted: set<Path>, failures: nat, skipped: nat) {
    && skipped == |SpecialsMet(s, o, sp) * past|
    && failures == |EntriesFailed(s, o, sp) * past| + |ListingsFailed(s, o, sp) * past - unlisted|
  }

  ghost predicate AllEntered(s: STree, o: Trouble, sp: Path, ls: seq<Level<()>>) {
    forall i :: 0 <= i < |ls| ==> EnteredLevel(s, o, sp, ls[i])
  }

  ghost predicate EnteredLevel(s: STree, o: Trouble, sp: Path, l: Level<()>) {
    Enters(s, o, sp, l.path) && (l.pending.Some? && l.pending.value != [] ==> l.path !in o.noList)
  }

  ghost predicate Tally(s: STree, o: Trouble, sp: Path, ls: seq<Level<()>>, failures: nat, skipped: nat) {
    Counts(s, o, sp, Past(s, sp, ls), Unlisted(ls), failures, skipped) && AllEntered(s, o, sp, ls)
  }

  lemma EntersDeeper(s: STree, o: Trouble, sp: Path, c: Path)
    requires Met(s, o, sp, c)
    ensures Enters(s, o, sp, c) <==> IsDir(s, c) && !CallFails(s, o, c)
  {
    forall k | 0 <= k < |c|
      ensures c[..k] == Parent(c)[..k]
    {
    }
    assert c[..|c|] == c;
  }

  /** Nothing is met beneath an entry that is not entered and listed. */
  lemma NotBeyond(s: STree, o: Trouble, sp: Path, c: Path)
    requires sp <= c
    requires (sp != c && c in o.noStat + o.noOpen + o.noMake + o.noEnter) || c in o.noList || (WellFormed(s) && !IsDir(s, c))
    ensures forall p :: c < p ==> !Enters(s, o, sp, p) && !Met(s, o, sp, p)
  {
    forall p | c < p
      ensures !Enters(s, o, sp, p) && !Met(s, o, sp, p)
    {
      assert p[..|c|] == c && Parent(p)[..|c|] == c;
      if WellFormed(s) && !IsDir(s, c) && p in s {
        AncestorsAreDirs(s, c, p);
      }
    }
  }

  lemma Uncounted(s: STree, o: Trouble, sp: Path, c: Path)
    requires forall p :: c < p ==> !Enters(s, o, sp, p) && !Met(s, o, sp, p)
    ensures forall p :: c < p ==> p !in SpecialsMet(s, o, sp) && p !in EntriesFailed(s, o, sp) && p !in ListingsFailed(s, o, sp)
  {
  }

  lemma CountedOnce(a: set<Path>, past: set<Path>, past': set<Path>, c: Path)
    requires c !in past && c in past' && past <= past' && forall p :: p in past' && p !in past && p in a ==> p == c
    ensures |a * past'| == |a * past| + if c in a then 1 else 0
  {
    if c in a {
      assert a * past' == a * past + {c};
    } else {
      assert a * past' == a * past;
    }
  }

  lemma TallyStart(s: STree, o: Trouble, sp: Path)
    requires IsDir(s, sp)
    ensures Tally(s, o, sp, [Level(sp, None, ())], 0, 0)
  {
    var ls: seq<Level<()>> := [Level(sp, None, ())];
    Start(s, sp, ());
    forall p | p in From(s, sp)
      ensures p == sp || sp < p
    {
      assert sp <= p;
    }
    assert Past(s, sp, ls) == {sp};
    assert SpecialsMet(s, o, sp) * {sp} == {} && EntriesFailed(s, o, sp) * {sp} == {};
    assert ListingsFailed(s, o, sp) * {sp} - {sp} == {};
  }

  lemma LevelChanged(s: STree, o: Trouble, sp: Path, ls: seq<Level<()>>, l: Level<()>)
    requires AllEntered(s, o, sp, ls) && ls != [] && EnteredLevel(s, o, sp, l)
    ensures AllEntered(s, o, sp, WithTop(ls, l)) && EnteredLevel(s, o, sp, Top(ls))
  {
  }

  lemma TallyListed(s: STree, o: Trouble, sp: Path, ls: seq<Level<()>>, failures: nat, skipped: nat, names: seq<Name>)
    requires WellFormed(s) && Tally(s, o, sp, ls, failures, skipped) && Chain(s, ls) && ls != [] && Top(ls).pending.None?
    requires Top(ls).path !in o.noList && NoDuplicates(names) && forall n :: n in names <==> n in ChildNames(s, Top(ls).path)
    ensures Tally(s, o, sp, WithTop(ls, Level(Top(ls).path, Some(names), ())), failures, skipped)
  {
    var top, l := Top(ls), Level(Top(ls).path, Some(names), ());
    Listed(s, ls, names, ());
    assert EnteredLevel(s, o, sp, top);
    LevelChanged(s, o, sp, ls, l);
    ListingCounted(s, o, sp, Past(s, sp, ls), Past(s, sp, ls), top.path, failures, skipped);
    hide Counts, AllEntered, Chain, EnteredLevel;
  }

  /** The directory at d has been listed, or not; if not, nothing beneath it
      is met. */
  lemma ListingCounted(s: STree, o: Trouble, sp: Path, past: set<Path>, past': set<Path>, d: Path, failures: nat, skipped: nat)
    requires Counts(s, o, sp, past, {d}, failures, skipped) && past <= past' && d in s && Enters(s, o, sp, d)
    requires if d in o.noList then d in past && forall p :: p in past' && p !in past ==> d < p else past' == past
    ensures Counts(s, o, sp, past', {}, failures + if d in o.noList then 1 else 0, skipped)
  {
    if d in o.noList {
      NotBeyond(s, o, sp, d);
      Uncounted(s, o, sp, d);
    }
    var a, b, l := SpecialsMet(s, o, sp), EntriesFailed(s, o, sp), ListingsFailed(s, o, sp);
    assert d in l <==> d in o.noList;
    hide SpecialsMet, EntriesFailed, ListingsFailed, Enters, Met, WellFormed;
    ListedOnce(a, b, l, past, past', d);
    assert l * past' - {} == l * past';
  }

  lemma ListedOnce(a: set<Path>, b: set<Path>, l: set<Path>, past: set<Path>, past': set<Path>, d: Path)
    requires past <= past' && (d in l ==> d in past) && forall p :: p in past' && p !in past ==> p !in a && p !in b && p !in l
    ensures a * past' == a * past && b * past' == b * past && |l * past'| == |l * past - {d}| + if d in l then 1 else 0
  {
    assert l * past' == l * past;
    if d in l {
      assert l * past == l * past - {d} + {d};
    } else {
      assert l * past == l * past - {d};
    }
  }

  lemma TallyUnlisted(s: STree, o: Trouble, sp: Path, ls: seq<Level<()>>, failures: nat, skipped: nat)
    requires WellFormed(s) && Tally(s, o, sp, ls, failures, skipped) && Chain(s, ls) && ls != [] && Top(ls).pending.None?
    requires Top(ls).path in o.noList
    ensures Tally(s, o, sp, WithTop(ls, Level(Top(ls).path, Some([]), ())), failures + 1, skipped)
  {
    var top, l := Top(ls), Level(Top(ls).path, Some([]), ());
    PassedOver(s, ls, ());
    assert EnteredLevel(s, o, sp, top);
    LevelChanged(s, o, sp, ls, l);
    NothingAheadUnderTop(s, ls, top.path);
    var past, past' := Past(s, sp, ls), Past(s, sp, WithTop(ls, l));
    assert top.path !in AheadOf(s, top) && top.path in past;
    assert forall p :: p in past' && p !in past ==> top.path < p;
    ListingCounted(s, o, sp, past, past', top.path, failures, skipped);
    hide Counts, AllEntered, Chain, EnteredLevel;
  }

  lemma TallyLeft(s: STree, o: Trouble, sp: Path, ls: seq<Level<()>>, failures: nat, skipped: nat)
    requires Tally(s, o, sp, ls, failures, skipped) && Chain(s, ls) && ls != [] && Top(ls).pending == Some([])
    ensures Tally(s, o, sp, Below(ls), failures, skipped)
  {
    hide Counts, EnteredLevel;
    Popped(s, ls);
    assert Below(ls) != [] ==> Top(Below(ls)) == ls[|ls| - 2] && Top(Below(ls)).pending.Some?;
  }

  lemma PastTaken(s: STree, sp: Path, ls: seq<Level<()>>)
    requires Chain(s, ls) && HasNext(ls) && sp <= Next(Top(ls))
    ensures Past(s, sp, TakeNext(ls, ())) == Past(s, sp, ls) + From(s, Next(Top(ls))) && Next(Top(ls)) !in Past(s, sp, ls)
  {
    var c := Next(Top(ls));
    Taken(s, ls, ());
    forall p | p in From(s, c)
      ensures sp <= p
    {
      assert c <= p;
    }
    assert c in From(s, c);
  }

  /** The next entry is one the copy meets. */
  lemma NextIsMet(s: STree, o: Trouble, sp: Path, ls: seq<Level<()>>)
    requires AllEntered(s, o, sp, ls) && Chain(s, ls) && HasNext(ls)
    ensures Met(s, o, sp, Next(Top(ls))) && AllEntered(s, o, sp, TakeNext(ls, ()))
  {
    Taken(s, ls, ());
    assert EnteredLevel(s, o, sp, ls[|ls| - 1]);
    LevelChanged(s, o, sp, ls, Top(TakeNext(ls, ())));
  }

  /** An entry that is not entered: it counts once, and nothing beneath it. */
  lemma EntryCounted(s: STree, o: Trouble, sp: Path, past: set<Path>, c: Path, failures: nat, skipped: nat)
    requires WellFormed(s) && Counts(s, o, sp, past, {}, failures, skipped) && Met(s, o, sp, c) && c !in past
    requires IsDir(s, c) ==> CallFails(s, o, c)
    ensures Counts(s, o, sp, past + From(s, c), {}, failures + if CallFails(s, o, c) then 1 else 0,
                   skipped + if s[c].Special? && c !in o.noStat then 1 else 0)
  {
    EntersDeeper(s, o, sp, c);
    NotBeyond(s, o, sp, c);
    Uncounted(s, o, sp, c);
    var a, b, l, past' := SpecialsMet(s, o, sp), EntriesFailed(s, o, sp), ListingsFailed(s, o, sp), past + From(s, c);
    assert (c in a <==> s[c].Special? && c !in o.noStat) && (c in b <==> CallFails(s, o, c)) && c !in l;
    forall p | p in From(s, c)
      ensures p == c || c < p
    {
      assert c <= p;
    }
    assert c in From(s, c);
    hide SpecialsMet, EntriesFailed, ListingsFailed, Enters, Met, CallFails, WellFormed, From, Counts;
    CountsOnce(s, o, sp, past, past', c, failures, skipped);
  }

  lemma CountsOnce(s: STree, o: Trouble, sp: Path, past: set<Path>, past': set<Path>, c: Path, failures: nat, skipped: nat)
    requires Counts(s, o, sp, past, {}, failures, skipped) && c !in past && c in past' && past <= past'
    requires forall p :: p in past' && p !in past && p != c ==>
      p !in SpecialsMet(s, o, sp) && p !in EntriesFailed(s, o, sp) && p !in ListingsFailed(s, o, sp)
    requires c !in ListingsFailed(s, o, sp)
    ensures Counts(s, o, sp, past', {}, failures + if c in EntriesFailed(s, o, sp) then 1 else 0,
                   skipped + if c in SpecialsMet(s, o, sp) then 1 else 0)
  {
    var l := ListingsFailed(s, o, sp);
    hide SpecialsMet, EntriesFailed, ListingsFailed;
    CountedOnce(SpecialsMet(s, o, sp), past, past', c);
    CountedOnce(EntriesFailed(s, o, sp), past, past', c);
    CountedOnce(l, past, past', c);
    assert l * past - {} == l * past && l * past' - {} == l * past';
  }

  lemma TallyTaken(s: STree, o: Trouble, sp: Path, ls: seq<Level<()>>, failures: nat, skipped: nat)
    requires WellFormed(s) && Tally(s, o, sp, ls, failures, skipped) && Chain(s, ls) && HasNext(ls)
    requires Next(Top(ls)) in s && (IsDir(s, Next(Top(ls))) ==> CallFails(s, o, Next(Top(ls))))
    ensures var c := Next(Top(ls));
      Tally(s, o, sp, TakeNext(ls, ()), failures + if CallFails(s, o, c) then 1 else 0,
            skipped + if s[c].Special? && c !in o.noStat then 1 else 0)
  {
    NextIsMet(s, o, sp, ls);
    PastTaken(s, sp, ls);
    hide Counts, Chain, AllEntered, WellFormed, CallFails;
    EntryCounted(s, o, sp, Past(s, sp, ls), Next(Top(ls)), failures, skipped);
  }

  /** An entry that is entered counts for nothing, until it is listed. */
  lemma EntryEntered(s: STree, o: Trouble, sp: Path, past: set<Path>, c: Path, failures: nat, skipped: nat)
    requires Counts(s, o, sp, past, {}, failures, skipped) && IsDir(s, c) && !CallFails(s, o, c) && c !in past
    ensures Counts(s, o, sp, past + {c}, {c}, failures, skipped)
  {
    var a, b, l := SpecialsMet(s, o, sp), EntriesFailed(s, o, sp), ListingsFailed(s, o, sp);
    assert c !in a && c !in b;
    hide SpecialsMet, EntriesFailed, ListingsFailed, CallFails;
    NothingAdded(a, past, c);
    NothingAdded(b, past, c);
    OnlyAddedUnlisted(l, past, c);
  }

  lemma NothingAdded(a: set<Path>, past: set<Path>, c: Path)
    requires c !in a
    ensures a * (past + {c}) == a * past
  {
  }

  lemma OnlyAddedUnlisted(l: set<Path>, past: set<Path>, c: Path)
    requires c !in past
    ensures l * (past + {c}) - {c} == l * past - {}
  {
  }

  lemma TallyEntered(s: STree, o: Trouble, sp: Path, ls: seq<Level<()>>, failures: nat, skipped: nat)
    requires Tally(s, o, sp, ls, failures, skipped) && Chain(s, ls) && HasNext(ls) && sp <= Next(Top(ls)) && ls[0].path == sp
    requires IsDir(s, Next(Top(ls))) && !CallFails(s, o, Next(Top(ls)))
    ensures Tally(s, o, sp, TakeNext(ls, ()) + [Level(Next(Top(ls)), None, ())], failures, skipped)
  {
    var c := Next(Top(ls));
    NextIsMet(s, o, sp, ls);
    EntersDeeper(s, o, sp, c);
    EnteredStack(s, ls, sp);
    PastTaken(s, sp, ls);
    EntryEntered(s, o, sp, Past(s, sp, ls), c, failures, skipped);
    LevelAdded(s, o, sp, TakeNext(ls, ()), Level(c, None, ()));
    hide Counts, Chain, Enters, Met, Past, AllEntered, CallFails;
  }

  lemma LevelAdded(s: STree, o: Trouble, sp: Path, ls: seq<Level<()>>, l: Level<()>)
    requires AllEntered(s, o, sp, ls) && EnteredLevel(s, o, sp, l)
    ensures AllEntered(s, o, sp, ls + [l])
  {
  }

  lemma TallyAtEnd(s: STree, o: Trouble, sp: Path, failures: nat, skipped: nat)
    requires Tally(s, o, sp, [], failures, skipped)
    ensures skipped == |SpecialsMet(s, o, sp)| && failures == |EntriesFailed(s, o, sp)| + |ListingsFailed(s, o, sp)|
  {
    var past := Past(s, sp, []);
    hide Enters, Met, CallFails;
    forall p | p in SpecialsMet(s, o, sp) + EntriesFailed(s, o, sp) + ListingsFailed(s, o, sp)
      ensures p in past
    {
      assert Met(s, o, sp, p) || Enters(s, o, sp, p);
      MetIsBeneath(s, o, sp, p);
    }
    assert SpecialsMet(s, o, sp) * past == SpecialsMet(s, o, sp) && EntriesFailed(s, o, sp) * past == EntriesFailed(s, o, sp);
    assert ListingsFailed(s, o, sp) * past - {} == ListingsFailed(s, o, sp);
  }

  lemma MetIsBeneath(s: STree, o: Trouble, sp: Path, p: Path)
    ensures Met(s, o, sp, p) || Enters(s, o, sp, p) ==> p in s && sp <= p
  {
  }

  /** The counters do not depend on modes and times. */
  lemma AlikeCounts(o: Trouble, s: STree, now: int, sp: Path)
    ensures var t := Arrived(o, s, now);
      SpecialsMet(t, o, sp) == SpecialsMet(s, o, sp) && EntriesFailed(t, o, sp) == EntriesFailed(s, o, sp)
      && ListingsFailed(t, o, sp) == ListingsFailed(s, o, sp)
  {
    var t := Arrived(o, s, now);
    forall p | p in s
      ensures (t[p].Dir? <==> s[p].Dir?) && (t[p].Special? <==> s[p].Special?)
    {
    }
    forall p
      ensures Enters(t, o, sp, p) <==> Enters(s, o, sp, p)
    {
    }
    hide Enters;
  }

  /** What the loop keeps: the copy so far is one of what can arrive. */
  ghost predicate Copied(s: STree, o: Trouble, sp: Path, dp: Path, d0: STree, d: STree, ls: seq<Level<()>>, clean: bool, bad: Path, now: int) {
    && WellFormed(s) && Underway(Arrived(o, s, now), o, sp, dp, d0, d, ls, clean, bad)
    && Filling(o, sp, dp, d, Mirror.Paths(ls) + {sp}, now)
  }

  lemma CopiedIsKept(s: STree, o: Trouble, sp: Path, dp: Path, d0: STree, d: STree, ls: seq<Level<()>>, clean: bool, bad: Path, now: int)
    requires Copied(s, o, sp, dp, d0, d, ls, clean, bad, now)
    ensures RestKept(d0, d, dp)
  {
  }

  /** Every moment of the copy, up to the present one. */
  ghost predicate Traced(d0: STree, trace: seq<STree>, dp: Path, d: STree) {
    AllKept(d0, trace, dp) && trace != [] && trace[|trace| - 1] == d
  }

  lemma StartTraced(d0: STree, dp: Path)
    ensures Traced(d0, [d0], dp, d0)
  {
  }

  lemma OneMoreTraced(d0: STree, trace: seq<STree>, dp: Path, was: STree, d: STree)
    requires Traced(d0, trace, dp, was) && RestKept(d0, d, dp)
    ensures Traced(d0, trace + [d], dp, d)
  {
  }

  lemma CopiedAtStart(s: STree, o: Trouble, sp: Path, dp: Path, d0: STree, now: int)
    requires WellFormed(s) && WellFormed(d0) && IsDir(s, sp) && forall q :: dp < q ==> q !in d0
    requires IsDir(d0, dp) && d0[dp].dir == NewDir(o, sp, now)
    ensures Copied(s, o, sp, dp, d0, d0, [Level(sp, None, ())], true, [], now)
  {
    var ls: seq<Level<()>> := [Level(sp, None, ())];
    ArrivedIsAlike(o, s, now);
    CopyStart(Arrived(o, s, now), o, sp, dp, d0);
    assert Mirror.Paths(ls) + {sp} == {sp};
    assert To(sp, dp, sp) == dp;
    hide Underway, WellFormed;
  }

  /** One round of the loop, every way it can go. */
  method CopyStep(s: STree, o: Trouble, sp: Path, dp: Path, ghost d0: STree, d: STree, ls: seq<Level<()>>,
                  failures: nat, skipped: nat, ghost bad: Path, now: int)
    returns (d': STree, ls': seq<Level<()>>, failures': nat, skipped': nat, ghost bad': Path)
    requires Copied(s, o, sp, dp, d0, d, ls, failures + skipped == 0, bad, now) && ls != []
    requires Tally(Arrived(o, s, now), o, sp, ls, failures, skipped)
    ensures Copied(s, o, sp, dp, d0, d', ls', failures' + skipped' == 0, bad', now) && Closer(Arrived(o, s, now), ls, ls')
    ensures Tally(Arrived(o, s, now), o, sp, ls', failures', skipped')
  {
    hide Copied, Closer, Tally, Arrived, CallFails, Lists;
    d', ls', failures', skipped', bad' := d, ls, failures, skipped, bad;
    var top := Top(ls);
    if top.pending.None? {
      var failed: bool;
      ls', failed, bad' := CopyList(s, o, sp, dp, d0, d, ls, failures + skipped == 0, bad, now);
      failures' := failures + if failed then 1 else 0;
      ListedIsTallied(s, o, sp, dp, d0, d, ls, failures, skipped, bad, now, ls');
    } else if top.pending.value == [] {
      d' := CopyLeave(s, o, sp, dp, d0, d, ls, failures + skipped == 0, bad, now);
      ls' := Below(ls);
      LeftIsTallied(s, o, sp, dp, d0, d, ls, failures, skipped, bad, now);
    } else {
      NextIsTallied(s, o, sp, dp, d0, d, ls, failures, skipped, bad, now);
      var r: Outcome;
      d', ls', r, bad' := CopyNext(s, o, sp, dp, d0, d, ls, failures + skipped == 0, bad, now);
      failures' := failures + if r.HasFailed? then 1 else 0;
      skipped' := skipped + if r.WasSkipped? then 1 else 0;
    }
  }

  lemma ListedIsTallied(s: STree, o: Trouble, sp: Path, dp: Path, d0: STree, d: STree, ls: seq<Level<()>>,
                        failures: nat, skipped: nat, bad: Path, now: int, ls': seq<Level<()>>)
    requires Copied(s, o, sp, dp, d0, d, ls, failures + skipped == 0, bad, now) && ls != [] && Top(ls).pending.None?
    requires Tally(Arrived(o, s, now), o, sp, ls, failures, skipped)
    requires if Top(ls).path in o.noList then ls' == WithTop(ls, Level(Top(ls).path, Some([]), ()))
             else exists names :: Lists(s, Top(ls).path, names) && ls' == WithTop(ls, Level(Top(ls).path, Some(names), ()))
    ensures Tally(Arrived(o, s, now), o, sp, ls', failures + if Top(ls).path in o.noList then 1 else 0, skipped)
  {
    hide Tally, Filling, Carried, Accounted, Arrived;
    ArrivedIsAlike(o, s, now);
    if Top(ls).path in o.noList {
      TallyUnlisted(Arrived(o, s, now), o, sp, ls, failures, skipped);
    } else {
      var names :| Lists(s, Top(ls).path, names) && ls' == WithTop(ls, Level(Top(ls).path, Some(names), ()));
      TallyListed(Arrived(o, s, now), o, sp, ls, failures, skipped, names);
    }
  }

  lemma LeftIsTallied(s: STree, o: Trouble, sp: Path, dp: Path, d0: STree, d: STree, ls: seq<Level<()>>,
                      failures: nat, skipped: nat, bad: Path, now: int)
    requires Copied(s, o, sp, dp, d0, d, ls, failures + skipped == 0, bad, now) && ls != [] && Top(ls).pending == Some([])
    requires Tally(Arrived(o, s, now), o, sp, ls, failures, skipped)
    ensures Tally(Arrived(o, s, now), o, sp, Below(ls), failures, skipped)
  {
    hide Tally, Filling, Carried, Accounted, Arrived;
    TallyLeft(Arrived(o, s, now), o, sp, ls, failures, skipped);
  }

  lemma NextIsTallied(s: STree, o: Trouble, sp: Path, dp: Path, d0: STree, d: STree, ls: seq<Level<()>>,
                      failures: nat, skipped: nat, bad: Path, now: int)
    requires Copied(s, o, sp, dp, d0, d, ls, failures + skipped == 0, bad, now) && HasNext(ls)
    requires Tally(Arrived(o, s, now), o, sp, ls, failures, skipped)
    ensures Next(Top(ls)) in s
    ensures var t, c := Arrived(o, s, now), Next(Top(ls));
      if IsDir(s, c) && !CallFails(s, o, c) then Tally(t, o, sp, TakeNext(ls, ()) + [Level(c, None, ())], failures, skipped)
      else Tally(t, o, sp, TakeNext(ls, ()), failures + if CallFails(s, o, c) then 1 else 0,
                 skipped + if s[c].Special? && c !in o.noStat then 1 else 0)
  {
    var t, c := Arrived(o, s, now), Next(Top(ls));
    CopiedNext(s, o, sp, dp, d0, d, ls, failures + skipped == 0, bad, now);
    ArrivedIsAlike(o, s, now);
    FailsAlike(o, s, now, c);
    hide Tally, Filling, Carried, Accounted, Arrived, CallFails, Closer;
    if IsDir(s, c) && !CallFails(s, o, c) {
      TallyEntered(t, o, sp, ls, failures, skipped);
    } else {
      TallyTaken(t, o, sp, ls, failures, skipped);
    }
  }

  lemma FailsAlike(o: Trouble, s: STree, now: int, c: Path)
    requires c in s
    ensures var t := Arrived(o, s, now);
      c in t && (CallFails(t, o, c) <==> CallFails(s, o, c)) && (IsDir(t, c) <==> IsDir(s, c)) && (t[c].Special? <==> s[c].Special?)
  {
  }

  ghost predicate Lists(s: STree, d: Path, names: seq<Name>) {
    NoDuplicates(names) && forall n :: n in names <==> n in ChildNames(s, d)
  }

  /** copy_tree_at without merge, errors and skips counted. */
  method CopyTreeAt(s: STree, o: Trouble, sp: Path, dp: Path, d0: STree, now: int)
    returns (d: STree, failures: nat, skipped: nat, ghost bad: Path, ghost trace: seq<STree>)
    requires WellFormed(s) && WellFormed(d0) && IsDir(s, sp) && forall q :: dp < q ==> q !in d0
    requires IsDir(d0, dp) && d0[dp].dir == NewDir(o, sp, now)
    ensures Copied(s, o, sp, dp, d0, d, [], failures + skipped == 0, bad, now)
    ensures skipped == |SpecialsMet(s, o, sp)| && failures == |EntriesFailed(s, o, sp)| + |ListingsFailed(s, o, sp)|
    ensures Traced(d0, trace, dp, d)
  {
    d, failures, skipped, bad, trace := d0, 0, 0, [], [d0];
    var ls: seq<Level<()>> := [Level(sp, None, ())];
    CopiedAtStart(s, o, sp, dp, d0, now);
    StartTraced(d0, dp);
    TallyStart(Arrived(o, s, now), o, sp);
    AlikeCounts(o, s, now, sp);
    hide Copied, Arrived, RestKept, Traced, WellFormed, Ahead, Chain, Tally, SpecialsMet, EntriesFailed, ListingsFailed;
    while ls != []
      invariant Copied(s, o, sp, dp, d0, d, ls, failures + skipped == 0, bad, now)
      invariant Tally(Arrived(o, s, now), o, sp, ls, failures, skipped)
      invariant Traced(d0, trace, dp, d)
      decreases Ahead(Arrived(o, s, now), ls), Steps(ls)
    {
      ghost var was := d;
      d, ls, failures, skipped, bad := CopyStep(s, o, sp, dp, d0, d, ls, failures, skipped, bad, now);
      CopiedIsKept(s, o, sp, dp, d0, d, ls, failures + skipped == 0, bad, now);
      OneMoreTraced(d0, trace, dp, was, d);
      trace := trace + [d];
    }
    TallyAtEnd(Arrived(o, s, now), o, sp, failures, skipped);
  }

  method CopyList(s: STree, o: Trouble, ghost sp: Path, ghost dp: Path, ghost d0: STree, ghost d: STree, ls: seq<Level<()>>,
                  ghost clean: bool, ghost bad: Path, ghost now: int)
    returns (ls': seq<Level<()>>, failed: bool, ghost bad': Path)
    requires Copied(s, o, sp, dp, d0, d, ls, clean, bad, now) && ls != [] && Top(ls).pending.None?
    ensures Copied(s, o, sp, dp, d0, d, ls', clean && !failed, bad', now) && Closer(Arrived(o, s, now), ls, ls')
    ensures failed <==> Top(ls).path in o.noList
    ensures failed ==> ls' == WithTop(ls, Level(Top(ls).path, Some([]), ()))
    ensures !failed ==> exists names :: Lists(s, Top(ls).path, names) && ls' == WithTop(ls, Level(Top(ls).path, Some(names), ()))
  {
    ghost var t := Arrived(o, s, now);
    ArrivedIsAlike(o, s, now);
    hide Underway, Filling, Closer, WellFormed, Arrived;
    var rel := Top(ls).path;
    var names: seq<Name> := [];
    failed, bad' := rel in o.noList, bad;
    if failed {
      CopyUnlisted(t, o, sp, dp, d0, d, ls, clean, bad);
      bad' := rel;
    } else {
      names := ListReversed(s, rel);
      CopyListed(t, o, sp, dp, d0, d, ls, clean, bad, names);
    }
    ls' := WithTop(ls, Level(rel, Some(names), ()));
    Mirror.PathsOfWithTop(ls, Top(ls'));
  }

  method CopyLeave(s: STree, o: Trouble, sp: Path, dp: Path, ghost d0: STree, d: STree, ls: seq<Level<()>>,
                   ghost clean: bool, ghost bad: Path, ghost now: int)
    returns (d': STree)
    requires Copied(s, o, sp, dp, d0, d, ls, clean, bad, now) && ls != [] && Top(ls).pending == Some([])
    ensures Copied(s, o, sp, dp, d0, d', Below(ls), clean, bad, now) && Closer(Arrived(o, s, now), ls, Below(ls))
  {
    ghost var t := Arrived(o, s, now);
    ArrivedIsAlike(o, s, now);
    CopyLeft(t, o, sp, dp, d0, d, ls, clean, bad);
    TopIsFilled(t, o, sp, dp, d0, d, ls, clean, bad);
    hide Underway, Filling, Closer, WellFormed;
    var c := Top(ls).path;
    d' := d;
    if |ls| > 1 {
      StampIsArriving(o, s, sp, dp, d, Mirror.Paths(ls) + {sp}, c, now);
      FillingStamp(o, sp, dp, d, Mirror.Paths(ls) + {sp}, c, t[c], now);
      d' := d[To(sp, dp, c) := Dir(Stamp(o, c, d[To(sp, dp, c)].dir, s[c].dir))];
    }
  }

  lemma TopIsFilled(s: STree, o: Trouble, sp: Path, dp: Path, d0: STree, d: STree, ls: seq<Level<()>>, clean: bool, bad: Path)
    requires WellFormed(s) && Underway(s, o, sp, dp, d0, d, ls, clean, bad) && ls != [] && Top(ls).pending == Some([])
    ensures var c, stack := Top(ls).path, Mirror.Paths(ls) + {sp};
      && c in stack && IsDir(s, c) && sp <= c && IsDir(d, To(sp, dp, c))
      && Mirror.Paths(Below(ls)) + {sp} == if |ls| > 1 then stack - {c} else stack
  {
    LeftStack(s, ls, sp);
  }

  method CopyNext(s: STree, o: Trouble, sp: Path, dp: Path, ghost d0: STree, d: STree, ls: seq<Level<()>>, ghost clean: bool, ghost bad: Path, now: int)
    returns (d': STree, ls': seq<Level<()>>, r: Outcome, ghost bad': Path)
    requires Copied(s, o, sp, dp, d0, d, ls, clean, bad, now) && HasNext(ls)
    ensures Copied(s, o, sp, dp, d0, d', ls', clean && !r.HasFailed? && !r.WasSkipped?, bad', now) && Closer(Arrived(o, s, now), ls, ls')
    ensures var c := Next(Top(ls));
      && c in s && (r.WasSkipped? <==> s[c].Special? && c !in o.noStat) && (r.HasFailed? <==> CallFails(s, o, c))
      && ls' == if IsDir(s, c) && !CallFails(s, o, c) then TakeNext(ls, ()) + [Level(c, None, ())] else TakeNext(ls, ())
  {
    ghost var t, stack := Arrived(o, s, now), Mirror.Paths(ls) + {sp};
    CopiedNext(s, o, sp, dp, d0, d, ls, clean, bad, now);
    hide Copied, Underway, Filling, Closer, WellFormed, Made, BadListing, ChildNames, Chain, Arrived;
    var child := Next(Top(ls));
    d', r := CopyEntry(s, o, d, child, To(sp, dp, child), now);
    ls', bad' := TakeNext(ls, ()), bad;
    if r.WasEntered? {
      ls' := ls' + [Level(child, None, ())];
      CopiedEntered(s, o, sp, dp, d0, d, ls, clean, bad, d', now);
    } else {
      CopiedTaken(s, o, sp, dp, d0, d, ls, clean, bad, d', now);
      bad' := if clean then child else bad;
    }
  }

  lemma CopiedNext(s: STree, o: Trouble, sp: Path, dp: Path, d0: STree, d: STree, ls: seq<Level<()>>, clean: bool, bad: Path, now: int)
    requires Copied(s, o, sp, dp, d0, d, ls, clean, bad, now) && HasNext(ls)
    ensures var c := Next(Top(ls));
      && c in s && sp < c && c !in Mirror.Paths(ls) + {sp}
      && To(sp, dp, c) !in d && To(sp, dp, c) != [] && IsDir(d, Parent(To(sp, dp, c)))
  {
    var t := Arrived(o, s, now);
    ArrivedIsAlike(o, s, now);
    NextAhead(t, o, sp, dp, d0, d, ls, clean, bad);
    NextIsNew(t, ls, Next(Top(ls)));
  }

  lemma CopiedTaken(s: STree, o: Trouble, sp: Path, dp: Path, d0: STree, d: STree, ls: seq<Level<()>>, clean: bool, bad: Path,
                    d': STree, now: int)
    requires Copied(s, o, sp, dp, d0, d, ls, clean, bad, now) && HasNext(ls)
    requires var c := Next(Top(ls));
      && c in s && sp <= c && To(sp, dp, c) != [] && IsDir(d, Parent(To(sp, dp, c)))
      && if BadEntry(s, o, c) then d' == d || exists n :: d' == Made(d, To(sp, dp, c), n, now)
         else !s[c].Dir? && d' == Made(d, To(sp, dp, c), Arriving(o, s[c], c, now), now)
    ensures var c, ls' := Next(Top(ls)), TakeNext(ls, ());
      && Copied(s, o, sp, dp, d0, d', ls', clean && !BadEntry(s, o, c), if clean then c else bad, now)
      && Closer(Arrived(o, s, now), ls, ls')
  {
    var t, c, ls', stack := Arrived(o, s, now), Next(Top(ls)), TakeNext(ls, ()), Mirror.Paths(ls) + {sp};
    ArrivedIsAlike(o, s, now);
    CopiedNext(s, o, sp, dp, d0, d, ls, clean, bad, now);
    Mirror.PathsOfWithTop(ls, Top(ls'));
    hide Underway, Filling, Closer, WellFormed, Made;
    if d' != d {
      var n :| d' == Made(d, To(sp, dp, c), n, now);
      FillingMade(o, sp, dp, d, stack, c, n, now);
    }
    CopyTaken(t, o, sp, dp, d0, d, ls, clean, bad, d', now);
  }

  lemma CopiedEntered(s: STree, o: Trouble, sp: Path, dp: Path, d0: STree, d: STree, ls: seq<Level<()>>, clean: bool, bad: Path,
                      d': STree, now: int)
    requires Copied(s, o, sp, dp, d0, d, ls, clean, bad, now) && HasNext(ls)
    requires var c := Next(Top(ls));
      && IsDir(s, c) && sp <= c && To(sp, dp, c) != [] && IsDir(d, Parent(To(sp, dp, c))) && !BadEntry(s, o, c)
      && d' == Made(d, To(sp, dp, c), Dir(NewDir(o, c, now)), now)
    ensures var c := Next(Top(ls));
      var ls' := TakeNext(ls, ()) + [Level(c, None, ())];
      Copied(s, o, sp, dp, d0, d', ls', clean, bad, now) && Closer(Arrived(o, s, now), ls, ls')
  {
    var t, c, mid, stack := Arrived(o, s, now), Next(Top(ls)), TakeNext(ls, ()), Mirror.Paths(ls) + {sp};
    ArrivedIsAlike(o, s, now);
    CopiedNext(s, o, sp, dp, d0, d, ls, clean, bad, now);
    Mirror.PathsOfWithTop(ls, Top(mid));
    Mirror.PathsOfPushed(mid, Level(c, None, ()));
    assert Mirror.Paths(mid + [Level(c, None, ())]) + {sp} == stack + {c};
    hide Underway, Filling, Closer, WellFormed, Made;
    FillingMade(o, sp, dp, d, stack, c, Dir(NewDir(o, c, now)), now);
    CopyEntered(t, o, sp, dp, d0, d, ls, clean, bad, d', NewDir(o, c, now), now);
  }

  lemma NextIsNew(s: STree, ls: seq<Level<()>>, c: Path)
    requires Chain(s, ls) && HasNext(ls) && c == Next(Top(ls))
    ensures c !in Mirror.Paths(ls)
  {
    Mirror.ShorterBelow(s, ls);
    forall i | 0 <= i < |ls|
      ensures ls[i].path != c
    {
      assert i < |ls| - 1 || ls[i] == Top(ls);
    }
  }

  /** Everything under sp is at dp, but for the modes and times that could
      not be set, and nothing else is. */
  ghost predicate CompleteCopy(s: STree, o: Trouble, now: int, sp: Path, dp: Path, d: STree) {
    && (forall p :: p in s && sp <= p ==> To(sp, dp, p) in d && d[To(sp, dp, p)] == Arriving(o, s[p], p, now))
    && (forall q :: q in d && dp <= q ==> sp + q[|dp|..] in s)
  }

  /** Everything is there exactly as it was. */
  ghost predicate ExactCopy(s: STree, sp: Path, dp: Path, d: STree) {
    && (forall p :: p in s && sp <= p ==> To(sp, dp, p) in d && d[To(sp, dp, p)] == s[p])
    && (forall q :: q in d && dp <= q ==> sp + q[|dp|..] in s)
  }

  ghost predicate AllTake(s: STree, o: Trouble, sp: Path, now: int) {
    forall p :: p in s && sp <= p ==> AttributesTake(o, s[p], p, now)
  }

  /** A complete copy has every entry with its kind, content and target; and
      its mode and times exactly if those that were refused were right. */
  lemma CompleteIsExact(s: STree, o: Trouble, now: int, sp: Path, dp: Path, d: STree)
    requires CompleteCopy(s, o, now, sp, dp, d)
    ensures forall p :: p in s && sp <= p ==> To(sp, dp, p) in d && SameContent(s[p], d[To(sp, dp, p)])
    ensures ExactCopy(s, sp, dp, d) <==> AllTake(s, o, sp, now)
  {
    forall p | p in s && sp <= p
      ensures To(sp, dp, p) in d && SameContent(s[p], d[To(sp, dp, p)])
      ensures d[To(sp, dp, p)] == s[p] <==> AttributesTake(o, s[p], p, now)
    {
      ArrivingExactly(o, s[p], p, now);
    }
  }

  /** Everything is carried across exactly when nothing was counted, and
      nothing is counted exactly when nothing stood in the way. */
  lemma CopyIsComplete(s: STree, o: Trouble, sp: Path, dp: Path, d0: STree, d: STree, clean: bool, bad: Path, now: int)
    requires Copied(s, o, sp, dp, d0, d, [], clean, bad, now) && IsDir(s, sp)
    ensures IsDir(d, dp)
    ensures var d' := d[dp := Dir(Stamp(o, sp, d[dp].dir, s[sp].dir))];
      && (clean ==> CompleteCopy(s, o, now, sp, dp, d'))
      && (clean ==> (ExactCopy(s, sp, dp, d') <==> AllTake(s, o, sp, now)))
      && (clean <==> forall p :: !Troubled(s, o, sp, p))
      && WellFormed(d') && RestKept(d0, d', dp)
  {
    var t := Arrived(o, s, now);
    var none: seq<Level<()>> := [];
    ArrivedIsAlike(o, s, now);
    assert Mirror.Paths(none) + {sp} == {sp} && To(sp, dp, sp) == dp;
    StampIsArriving(o, s, sp, dp, d, {sp}, sp, now);
    ArrivedIsComplete(t, o, sp, dp, d0, d, clean, bad);
    if clean {
      CompleteIsExact(s, o, now, sp, dp, d[dp := Dir(Stamp(o, sp, d[dp].dir, s[sp].dir))]);
    }
    forall p
      ensures Troubled(t, o, sp, p) <==> Troubled(s, o, sp, p)
    {
    }
  }

  lemma ArrivedIsComplete(s: STree, o: Trouble, sp: Path, dp: Path, d0: STree, d: STree, clean: bool, bad: Path)
    requires Underway(s, o, sp, dp, d0, d, [], clean, bad) && IsDir(s, sp)
    ensures clean ==> ExactCopy(s, sp, dp, d[dp := s[sp]])
    ensures clean <==> forall p :: !Troubled(s, o, sp, p)
    ensures WellFormed(d[dp := s[sp]]) && RestKept(d0, d[dp := s[sp]], dp)
  {
    assert Past(s, sp, []) == From(s, sp);
    assert sp in From(s, sp) && To(sp, dp, sp) == dp;
    var none: seq<Level<()>> := [];
    assert Mirror.Paths(none) + {sp} == {sp};
    CarriedStamp(s, sp, dp, d0, d, From(s, sp), {sp}, clean, sp);
    hide RestKept;
    if clean {
      forall p | p in s && sp <= p
        ensures p in From(s, sp) && !Troubled(s, o, sp, p)
      {
      }
      assert Across(s, sp, dp, From(s, sp), {}, d[dp := s[sp]]);
    }
  }

  /** _copy_tree_pinned, merge off */
  method CopyTreePinned(s: STree, o: Trouble, sp: Path, dp: Path, d0: STree, now: int)
    returns (d: STree, raised: bool, failures: nat, skipped: nat, ghost trace: seq<STree>)
    requires WellFormed(s) && WellFormed(d0) && IsDir(s, sp) && dp != [] && ValidName(Leaf(dp)) && IsDir(d0, Parent(dp))
    ensures AllKept(d0, trace, dp)
    ensures raised <==> sp in o.noOpen + o.noMake + o.noEnter || dp in d0
    ensures raised ==> d == d0 || (dp !in d0 && d == Made(d0, dp, Dir(NewDir(o, sp, now)), now))
    ensures !raised ==> RestKept(d0, d, dp)
    ensures !raised ==> skipped == |SpecialsMet(s, o, sp)| && failures == |EntriesFailed(s, o, sp)| + |ListingsFailed(s, o, sp)|
    ensures !raised ==> (failures == 0 && skipped == 0 <==> forall p :: !Troubled(s, o, sp, p))
    ensures !raised && failures == 0 && skipped == 0 ==>
      CompleteCopy(s, o, now, sp, dp, d) && (ExactCopy(s, sp, dp, d) <==> AllTake(s, o, sp, now))
  {
    hide Copied, Underway, CompleteCopy, ExactCopy, AllTake, Troubled, SpecialsMet, EntriesFailed, ListingsFailed;
    d, raised, failures, skipped, trace := d0, true, 0, 0, [];
    if sp in o.noOpen || sp in o.noMake || dp in d0 {
      return;
    }
    d := Made(d0, dp, Dir(NewDir(o, sp, now)), now);
    trace := [d];
    ghost var d1 := d;
    MadeIsWellFormed(d0, dp, Dir(NewDir(o, sp, now)), now);
    RestKeptMade(d0, d0, dp, dp, Dir(NewDir(o, sp, now)), now);
    if sp in o.noEnter {
      return;
    }
    NothingBeneathMade(d0, dp, d);
    hide RestKept, Made, WellFormed;
    ghost var bad, more;
    raised := false;
    d, failures, skipped, bad, more := CopyTreeAt(s, o, sp, dp, d, now);
    CopyIsComplete(s, o, sp, dp, d1, d, failures + skipped == 0, bad, now);
    d := d[dp := Dir(Stamp(o, sp, d[dp].dir, s[sp].dir))];
    RestKeptOnwards(d0, d1, d, dp);
    AllKeptOnwards(d0, d1, more, dp);
    trace := trace + more + [d];
  }

  lemma NothingBeneathMade(d0: STree, dp: Path, d: STree)
    requires WellFormed(d0) && dp !in d0 && dp != [] && d.Keys == d0.Keys + {dp, Parent(dp)} && Parent(dp) in d0
    ensures forall q :: dp < q ==> q !in d
  {
    forall q | dp < q
      ensures q !in d
    {
      if q in d0 {
        AncestorsAreDirs(d0, dp, q);
      }
    }
  }

  // -------------------------------------------------------------------------
  // _move_pinned, across devices
  // -------------------------------------------------------------------------

  /** The two filesystems, at some moment. */
  datatype World = World(src: STree, dst: STree)

  datatype MoveResult = Moved | LeftInPlace(n: nat) | Raised

  /** Every file and link the source began with is still somewhere: where it
      was, as it was, or at the destination, but for a mode or a time that
      could not be set there. */
  ghost predicate Conserved(w0: World, o: Trouble, now: int, w: World, sp: Path, dp: Path) {
    forall p :: p in w0.src && sp <= p && !w0.src[p].Dir? && !w0.src[p].Special? ==>
      || (p in w.src && w.src[p] == w0.src[p])
      || (To(sp, dp, p) in w.dst && w.dst[To(sp, dp, p)] == Arriving(o, w0.src[p], p, now))
  }

  /** The source is touched only once all of it is at the destination. */
  ghost predicate SafeSoFar(w0: World, o: Trouble, now: int, w: World, sp: Path, dp: Path) {
    w.src == w0.src || CompleteCopy(w0.src, o, now, sp, dp, w.dst)
  }

  lemma SafeIsConserved(w0: World, o: Trouble, now: int, w: World, sp: Path, dp: Path)
    requires SafeSoFar(w0, o, now, w, sp, dp)
    ensures Conserved(w0, o, now, w, sp, dp)
  {
  }

  ghost predicate AllSafe(w0: World, o: Trouble, now: int, trace: seq<World>, sp: Path, dp: Path) {
    forall i :: 0 <= i < |trace| ==> SafeSoFar(w0, o, now, trace[i], sp, dp) && Conserved(w0, o, now, trace[i], sp, dp) && RestKept(w0.dst, trace[i].dst, dp)
  }

  lemma OneMoreSafe(w0: World, o: Trouble, now: int, trace: seq<World>, sp: Path, dp: Path, w: World)
    requires AllSafe(w0, o, now, trace, sp, dp) && SafeSoFar(w0, o, now, w, sp, dp) && RestKept(w0.dst, w.dst, dp)
    ensures AllSafe(w0, o, now, trace + [w], sp, dp)
  {
    SafeIsConserved(w0, o, now, w, sp, dp);
  }

  ghost function Worlds(src: STree, dsts: seq<STree>): seq<World> {
    seq(|dsts|, i requires 0 <= i < |dsts| => World(src, dsts[i]))
  }

  /** dirfd.rmtree_at(force=True), which raises at the first failure: stop
      says after how many removals that is. Every moment is in the trace. */
  method RemoveSource(w0: World, ghost o: Trouble, ghost now: int, w: World, sp: Path, dp: Path, stop: nat, ghost trace: seq<World>)
    returns (w': World, raised: bool, ghost trace': seq<World>)
    requires WellFormed(w.src) && w.src == w0.src && CompleteCopy(w0.src, o, now, sp, dp, w.dst) && RestKept(w0.dst, w.dst, dp)
    requires AllSafe(w0, o, now, trace, sp, dp)
    ensures AllSafe(w0, o, now, trace', sp, dp) && w'.dst == w.dst && trace <= trace'
    ensures if raised then forall p :: p in w'.src ==> p in w.src && w'.src[p] == w.src[p] else w'.src == Without(w.src, sp)
  {
    var _, _, log, _ := Removal.RmtreeAt(w.src, sp, Removal.NONE);
    Removal.NothingInTheWay(w.src, sp);
    w', trace', raised := w, trace, false;
    var k := 0;
    while k < |log| && k < stop
      invariant 0 <= k <= |log| && w' == World(w.src - Firsts(log, k), w.dst)
      invariant AllSafe(w0, o, now, trace', sp, dp) && trace <= trace'
    {
      OneMoreFirst(w.src, log, k);
      w' := World(w'.src - {log[k]}, w.dst);
      OneMoreSafe(w0, o, now, trace', sp, dp, w');
      trace' := trace' + [w'];
      k := k + 1;
    }
    if k < |log| {
      raised := true;
    } else {
      AllFirsts(log);
      assert w'.src == Without(w.src, sp);
    }
  }

  function Firsts(log: seq<Path>, k: nat): set<Path>
    requires k <= |log|
  {
    set i | 0 <= i < k :: log[i]
  }

  lemma OneMoreFirst(t: STree, log: seq<Path>, k: nat)
    requires k < |log|
    ensures t - Firsts(log, k) - {log[k]} == t - Firsts(log, k + 1)
  {
    assert Firsts(log, k + 1) == Firsts(log, k) + {log[k]};
  }

  lemma AllFirsts(log: seq<Path>)
    ensures forall p :: p in Firsts(log, |log|) <==> p in log
  {
    forall p | p in log
      ensures p in Firsts(log, |log|)
    {
      var i :| 0 <= i < |log| && log[i] == p;
    }
  }

  /** The fallback: whatever fails, and whenever it ends, nothing of the
      source is lost; and the source is only touched after a copy that
      counted no failure and skipped nothing. */
  method MoveAcross(w0: World, sp: Path, dp: Path, o: Trouble, stop: nat, noUnlink: bool, now: int)
    returns (w: World, r: MoveResult, ghost trace: seq<World>)
    requires WellFormed(w0.src) && WellFormed(w0.dst) && sp in w0.src && !w0.src[sp].Special?
    requires dp != [] && ValidName(Leaf(dp)) && IsDir(w0.dst, Parent(dp))
    ensures AllSafe(w0, o, now, trace, sp, dp) && Conserved(w0, o, now, w, sp, dp)
    ensures r.Moved? ==> w.src == Without(w0.src, sp) && CompleteCopy(w0.src, o, now, sp, dp, w.dst)
    ensures r.Moved? ==> (ExactCopy(w0.src, sp, dp, w.dst) <==> AllTake(w0.src, o, sp, now))
    ensures r.LeftInPlace? ==> w.src == w0.src && r.n > 0
    ensures r.LeftInPlace? ==> r.n == |SpecialsMet(w0.src, o, sp)| + |EntriesFailed(w0.src, o, sp)| + |ListingsFailed(w0.src, o, sp)|
    ensures !IsDir(w0.src, sp) ==> (r.Moved? <==> !IsDir(w0.dst, dp) && !BadEntry(w0.src, o, sp) && !noUnlink)
    ensures IsDir(w0.src, sp) ==> (r.LeftInPlace? <==>
      sp !in o.noOpen + o.noMake + o.noEnter && dp !in w0.dst && exists p :: Troubled(w0.src, o, sp, p))
  {
    trace := [];
    if w0.src[sp].Dir? {
      w, r, trace := MoveTree(w0, sp, dp, o, stop, now);
    } else {
      w, r, trace := MoveLeaf(w0, sp, dp, o, noUnlink, now);
    }
    if r.Moved? {
      CompleteIsExact(w0.src, o, now, sp, dp, w.dst);
    }
  }

  /** A file moved to a filesystem that refuses to set its mode: nothing is
      reported, the source is gone, and so is the mode. */
  method MoveLosesTheMode(f: FileStat, m: Mode, now: int) returns (w: World)
    requires m != f.mode
    ensures w.src == map[[] := Dir(DirStat(0x1C0, 0))]
    ensures ["a"] in w.dst && w.dst[["a"]] == File(FileStat(f.data, m, f.mtime))
  {
    var top: STree := map[[] := Dir(DirStat(0x1C0, 0))];
    var src: STree := top[["a"] := File(f)];
    var o := UNTROUBLED.(noChmod := map[["a"] := m]);
    var w0 := World(src, top);
    assert forall p :: p in src ==> Rooted(src, p);
    assert forall p :: p in top ==> Rooted(top, p);
    var r;
    ghost var trace;
    w, r, trace := MoveAcross(w0, ["a"], ["a"], o, 0, false, now);
    assert ["a"] in src && ["a"] <= ["a"] && To(["a"], ["a"], ["a"]) == ["a"];
    assert Without(src, ["a"]) == top;
  }

  /** Whatever modes and times are refused, nothing is counted. */
  lemma NothingIsCounted(s: STree, sp: Path, noChmod: map<Path, Mode>, noTimes: set<Path>)
    requires forall p :: p in s && sp <= p ==> !s[p].Special?
    ensures forall p :: !Troubled(s, UNTROUBLED.(noChmod := noChmod, noTimes := noTimes), sp, p)
  {
  }

  method MoveTree(w0: World, sp: Path, dp: Path, o: Trouble, stop: nat, now: int)
    returns (w: World, r: MoveResult, ghost trace: seq<World>)
    requires WellFormed(w0.src) && WellFormed(w0.dst) && IsDir(w0.src, sp)
    requires dp != [] && ValidName(Leaf(dp)) && IsDir(w0.dst, Parent(dp))
    ensures AllSafe(w0, o, now, trace, sp, dp) && Conserved(w0, o, now, w, sp, dp)
    ensures r.Moved? ==> w.src == Without(w0.src, sp) && CompleteCopy(w0.src, o, now, sp, dp, w.dst)
    ensures r.LeftInPlace? ==> w.src == w0.src && r.n > 0
    ensures r.LeftInPlace? ==> r.n == |SpecialsMet(w0.src, o, sp)| + |EntriesFailed(w0.src, o, sp)| + |ListingsFailed(w0.src, o, sp)|
    ensures r.LeftInPlace? <==>
      sp !in o.noOpen + o.noMake + o.noEnter && dp !in w0.dst && exists p :: Troubled(w0.src, o, sp, p)
  {
    var dst, raised, failures, skipped;
    ghost var dsts;
    dst, raised, failures, skipped, dsts := CopyTreePinned(w0.src, o, sp, dp, w0.dst, now);
    w, trace := World(w0.src, dst), Worlds(w0.src, dsts);
    forall i | 0 <= i < |trace|
      ensures SafeSoFar(w0, o, now, trace[i], sp, dp) && Conserved(w0, o, now, trace[i], sp, dp) && RestKept(w0.dst, trace[i].dst, dp)
    {
      SafeIsConserved(w0, o, now, trace[i], sp, dp);
    }
    SafeIsConserved(w0, o, now, w, sp, dp);
    if raised {
      r := Raised;
    } else if failures > 0 || skipped > 0 {
      r := LeftInPlace(failures + skipped);
    } else {
      var stopped;
      w, stopped, trace := RemoveSource(w0, o, now, w, sp, dp, stop, trace);
      SafeIsConserved(w0, o, now, w, sp, dp);
      r := if stopped then Raised else Moved;
    }
  }

  /** A file or a link: the old destination name goes, the entry is made
      afresh, and then the source is unlinked. */
  method MoveLeaf(w0: World, sp: Path, dp: Path, o: Trouble, noUnlink: bool, now: int)
    returns (w: World, r: MoveResult, ghost trace: seq<World>)
    requires WellFormed(w0.src) && WellFormed(w0.dst) && sp in w0.src && !w0.src[sp].Dir? && !w0.src[sp].Special?
    requires dp != [] && ValidName(Leaf(dp)) && IsDir(w0.dst, Parent(dp))
    ensures AllSafe(w0, o, now, trace, sp, dp) && Conserved(w0, o, now, w, sp, dp)
    ensures r.Moved? ==> w.src == Without(w0.src, sp) && CompleteCopy(w0.src, o, now, sp, dp, w.dst)
    ensures !r.LeftInPlace?
    ensures r.Moved? <==> !IsDir(w0.dst, dp) && !BadEntry(w0.src, o, sp) && !noUnlink
  {
    w, r, trace := w0, Raised, [];
    SafeIsConserved(w0, o, now, w0, sp, dp);
    if IsDir(w0.dst, dp) {
      // unlink_quietly leaves a directory, and nothing is made over one
      return;
    }
    w := World(w0.src, Without(w0.dst, dp));
    WithoutIsWellFormed(w0.dst, dp);
    SafeIsConserved(w0, o, now, w, sp, dp);
    OneMoreSafe(w0, o, now, trace, sp, dp, w);
    trace := trace + [w];
    ghost var bare := w.dst;
    var dst, made := CopyEntry(w0.src, o, w.dst, sp, dp, now);
    w := World(w0.src, dst);
    SafeIsConserved(w0, o, now, w, sp, dp);
    OneMoreSafe(w0, o, now, trace, sp, dp, w);
    trace := trace + [w];
    if !made.WasCopied? || noUnlink {
      return;
    }
    LeafIsComplete(w0.src, o, sp, dp, bare, now);
    w := World(Without(w0.src, sp), dst);
    SafeIsConserved(w0, o, now, w, sp, dp);
    OneMoreSafe(w0, o, now, trace, sp, dp, w);
    trace := trace + [w];
    r := Moved;
  }

  lemma LeafIsComplete(s: STree, o: Trouble, sp: Path, dp: Path, d: STree, now: int)
    requires WellFormed(s) && WellFormed(d) && sp in s && !s[sp].Dir? && dp != [] && IsDir(d, Parent(dp)) && dp !in d
    ensures CompleteCopy(s, o, now, sp, dp, Made(d, dp, Arriving(o, s[sp], sp, now), now))
  {
    OnlyItself(s, sp);
    forall p | p in s && sp <= p
      ensures p == sp && To(sp, dp, p) == dp
    {
      assert p in From(s, sp);
    }
    forall q | q in d && dp <= q
      ensures q == dp
    {
      if dp < q {
        AncestorsAreDirs(d, dp, q);
      }
      assert q == dp || dp < q;
    }
    assert sp + dp[|dp|..] == sp;
  }
}
