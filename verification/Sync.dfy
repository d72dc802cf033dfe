/** sync: three passes over a source and a destination tree. Pass 1 records
    the source's paths, pass 2 mirrors them, pass 3 removes what the source
    has no counterpart for. */
module Sync {
  import opened Names
  import opened Trees
  import opened Resolver
  import opened Walks
  import opened Attributes

  datatype DirStat = DirStat(mode: Mode, mtime: int)
  datatype FileStat = FileStat(data: Bytes, mode: Mode, mtime: int)
  type SNode = Node<DirStat, FileStat>
  type STree = Tree<DirStat, FileStat>

  /** Paths at which a call fails. On the source: lstat, opening or listing a
      directory, reading a file or a link. On the destination: removing what
      stands in the way (which may take some of a directory first), making
      the new entry, entering a directory, opening a file to look at it; and,
      without a word, setting a mode, in whose place a new entry keeps the
      one it was made with, and setting times. */
  datatype Faults = Faults(noStat: set<Path>, noOpen: set<Path>, noList: set<Path>, noRead: set<Path>,
                           noReplace: set<Path>, partly: set<Path>, noCreate: set<Path>,
                           noEnter: set<Path>, noPeek: set<Path>,
                           noChmod: map<Path, Mode>, noTimes: set<Path>)

  const FAULTLESS := Faults({}, {}, {}, {}, {}, {}, {}, {}, {}, map[], {})

  /** The mode a new entry has, asked for one that is the source's. */
  function NewMode(o: Faults, p: Path, mode: Mode): Mode {
    if p in o.noChmod then o.noChmod[p] else mode
  }

  /** dirfd.copy_metadata on a directory: each of the two calls may fail, and
      then nothing is said. */
  function Restamped(o: Faults, p: Path, was: DirStat, to: DirStat): DirStat {
    DirStat(if p in o.noChmod then was.mode else to.mode, if p in o.noTimes then was.mtime else to.mtime)
  }

  // -------------------------------------------------------------------------
  // What a pass over the source gets to see
  // -------------------------------------------------------------------------

  /** The directories a pass enters; shut are those it cannot. */
  ghost predicate Visited<D, F>(t: Tree<D, F>, shut: set<Path>, noList: set<Path>, d: Path)
    decreases |d|
  {
    IsDir(t, d) && (d != [] ==> d !in shut && Parent(d) !in noList && Visited(t, shut, noList, Parent(d)))
  }

  /** The entries it comes across. */
  ghost predicate Recorded<D, F>(t: Tree<D, F>, shut: set<Path>, noList: set<Path>, p: Path) {
    p in t && p != [] && Parent(p) !in noList && Visited(t, shut, noList, Parent(p))
  }

  lemma {:induction false} RecordedAncestors<D, F>(t: Tree<D, F>, shut: set<Path>, noList: set<Path>, p: Path, q: Path)
    requires Recorded(t, shut, noList, p) && q != [] && q < p
    ensures Recorded(t, shut, noList, q) && Visited(t, shut, noList, q)
    decreases |p|
  {
    if q != Parent(p) {
      RecordedAncestors(t, shut, noList, Parent(p), q);
    }
  }

  /** Nothing shut, nothing unlistable: a pass sees the whole tree. */
  lemma {:induction false} EverythingIsVisited(t: STree, d: Path)
    requires WellFormed(t)
    ensures Visited(t, {}, {}, d) <==> IsDir(t, d)
    ensures Recorded(t, {}, {}, d) <==> d in t && d != []
    decreases |d|
  {
    assert d in t ==> Rooted(t, d);
    if d != [] {
      EverythingIsVisited(t, Parent(d));
    }
  }

  /** Directories whose entries are still to be looked at. */
  ghost function Todo<X>(t: STree, ls: seq<Level<X>>): set<Path> {
    Ahead(t, ls) + if ls != [] && Top(ls).pending.None? then {Top(ls).path} else {}
  }

  /** _Ctx: what the passes tell each other. */
  class Ctx {
    var srcRels: set<Path>
    var skipped: set<Path>
    var failures: nat
    var rootUnreadable: bool
    /** Special files: skipped, and not counted as failures. */
    ghost var excused: set<Path>

    constructor ()
      ensures srcRels == {} && skipped == {} && failures == 0 && !rootUnreadable && excused == {}
    {
      srcRels, skipped, failures, rootUnreadable, excused := {}, {}, 0, false, {};
    }

    /** An exit status of 0 speaks for every entry. */
    ghost predicate Counted()
      reads this
    {
      failures == 0 ==> skipped <= excused && !rootUnreadable
    }

    method Saw(rel: Path)
      modifies this`srcRels
      ensures old(Counted()) ==> Counted()
      ensures srcRels == old(srcRels) + {rel}
    {
      srcRels := srcRels + {rel};
    }

    /** Counted once, however many passes meet it. */
    method NoteFailure(rel: Path)
      modifies this`skipped, this`failures
      ensures skipped == old(skipped) + {rel}
      ensures failures == old(failures) + if rel in old(skipped) then 0 else 1
      ensures old(Counted()) ==> Counted()
    {
      if rel !in skipped {
        skipped := skipped + {rel};
        failures := failures + 1;
      }
    }

    /** ctx.skipped_rels.add, for a special file */
    method SkipSpecial(rel: Path)
      modifies this`skipped, this`excused
      ensures skipped == old(skipped) + {rel} && excused == old(excused) + {rel}
      ensures old(Counted()) ==> Counted()
    {
      skipped := skipped + {rel};
      excused := excused + {rel};
    }
  }

  // -------------------------------------------------------------------------
  // Pass 1
  // -------------------------------------------------------------------------

  /** What pass 1 must note at p, once it has got past it. */
  ghost predicate Skipped1(t: STree, o: Faults, p: Path) {
    var shut := o.noStat + o.noOpen;
    && p != []
    && ((Recorded(t, shut, o.noList, p) && (p in o.noStat || (t[p].Dir? && p in o.noOpen)))
        || (Visited(t, shut, o.noList, p) && p in o.noList))
  }

  ghost predicate Collected(t: STree, o: Faults, todo: set<Path>, rels: set<Path>, skipped: set<Path>) {
    && (forall p :: p in rels <==> Recorded(t, o.noStat + o.noOpen, o.noList, p) && Parent(p) !in todo)
    && (forall p :: p in skipped <==> Skipped1(t, o, p) && p !in todo)
  }

  ghost function Kids(t: STree, d: Path): set<Path> {
    set p | p in t && p != [] && Parent(p) == d
  }

  ghost function Children(rel: Path, names: seq<Name>): set<Path> {
    set n | n in names :: rel + [n]
  }

  lemma KidsAreListed(t: STree, rel: Path, names: seq<Name>)
    requires forall n :: n in names <==> n in ChildNames(t, rel)
    ensures Children(rel, names) == Kids(t, rel)
  {
    forall p
      ensures p in Children(rel, names) <==> p in Kids(t, rel)
    {
      if p in Kids(t, rel) {
        assert p == rel + [Leaf(p)];
        ChildNamesExact(t, rel, Leaf(p));
      }
      if p in Children(rel, names) {
        ChildNamesExact(t, rel, Leaf(p));
        assert Parent(p) == rel;
      }
    }
  }

  /** _record_level */
  method RecordLevel(t: STree, o: Faults, rel: Path, ctx: Ctx) returns (subdirs: seq<Name>)
    requires WellFormed(t) && IsDir(t, rel)
    modifies ctx`srcRels, ctx`skipped, ctx`failures, ctx`rootUnreadable
    ensures old(ctx.Counted()) ==> ctx.Counted()
    ensures NoDuplicates(subdirs)
    ensures forall n :: n in subdirs <==> rel !in o.noList && CanDescend(t, o, rel + [n])
    ensures ctx.srcRels == old(ctx.srcRels) + if rel in o.noList then {} else Kids(t, rel)
    ensures ctx.skipped == old(ctx.skipped) +
      if rel !in o.noList then Kids(t, rel) * o.noStat else if rel != [] then {rel} else {}
    ensures ctx.rootUnreadable == (old(ctx.rootUnreadable) || (rel == [] && rel in o.noList))
  {
    subdirs := [];
    if rel in o.noList {
      if rel != [] {
        ctx.NoteFailure(rel);
      } else {
        ctx.rootUnreadable := true;
        ctx.failures := ctx.failures + 1;
      }
      return;
    }
    var listed := ListReversed(t, rel);
    subdirs := RecordNames(t, o, rel, Reversed(listed), ctx);
    forall n | CanDescend(t, o, rel + [n])
      ensures n in listed
    {
      ChildNamesExact(t, rel, n);
    }
  }

  method RecordNames(t: STree, o: Faults, rel: Path, names: seq<Name>, ctx: Ctx) returns (subdirs: seq<Name>)
    requires NoDuplicates(names) && forall n :: n in names <==> n in ChildNames(t, rel)
    modifies ctx`srcRels, ctx`skipped, ctx`failures, ctx`rootUnreadable
    ensures old(ctx.Counted()) ==> ctx.Counted()
    ensures NoDuplicates(subdirs)
    ensures forall n :: n in subdirs <==> n in names && CanDescend(t, o, rel + [n])
    ensures ctx.srcRels == old(ctx.srcRels) + Kids(t, rel)
    ensures ctx.skipped == old(ctx.skipped) + Kids(t, rel) * o.noStat
    ensures ctx.rootUnreadable == old(ctx.rootUnreadable)
  {
    subdirs := [];
    KidsAreListed(t, rel, names);
    var i := 0;
    while i < |names|
      invariant 0 <= i <= |names|
      invariant NoDuplicates(subdirs) && forall n :: n in subdirs <==> n in names[..i] && CanDescend(t, o, rel + [n])
      invariant ctx.srcRels == old(ctx.srcRels) + Children(rel, names[..i])
      invariant ctx.skipped == old(ctx.skipped) + Children(rel, names[..i]) * o.noStat
      invariant ctx.rootUnreadable == old(ctx.rootUnreadable)
      invariant old(ctx.Counted()) ==> ctx.Counted()
    {
      hide Children, Kids, CanDescend;
      OneMoreChild(rel, names, i);
      subdirs := RecordEntry(t, o, rel, names[i], ctx, subdirs);
      i := i + 1;
    }
    assert names[..i] == names;
  }

  predicate CanDescend(t: STree, o: Faults, p: Path) {
    IsDir(t, p) && p !in o.noStat
  }

  lemma OneMoreChild(rel: Path, names: seq<Name>, i: nat)
    requires i < |names|
    ensures names[..i + 1] == names[..i] + [names[i]]
    ensures Children(rel, names[..i + 1]) == Children(rel, names[..i]) + {rel + [names[i]]}
  {
    assert names[..i + 1] == names[..i] + [names[i]];
  }

  method RecordEntry(t: STree, o: Faults, rel: Path, name: Name, ctx: Ctx, subdirs: seq<Name>) returns (subdirs': seq<Name>)
    modifies ctx`srcRels, ctx`skipped, ctx`failures, ctx`rootUnreadable
    ensures old(ctx.Counted()) ==> ctx.Counted()
    ensures ctx.srcRels == old(ctx.srcRels) + {rel + [name]}
    ensures ctx.skipped == old(ctx.skipped) + {rel + [name]} * o.noStat
    ensures ctx.rootUnreadable == old(ctx.rootUnreadable)
    ensures subdirs' == if CanDescend(t, o, rel + [name]) then subdirs + [name] else subdirs
  {
    var child := rel + [name];
    subdirs' := subdirs;
    ctx.Saw(child);
    if child in o.noStat {
      ctx.NoteFailure(child);
    } else if child in t && t[child].Dir? {
      subdirs' := subdirs + [name];
    }
  }

  /** The levels of a pass: directories it entered, and in them the names of
      directories it could stat. */
  ghost predicate Entering<X>(t: STree, shut: set<Path>, noList: set<Path>, noStat: set<Path>, ls: seq<Level<X>>) {
    && (ls != [] ==> Visited(t, shut, noList, Top(ls).path))
    && forall i, n :: 0 <= i < |ls| && ls[i].pending.Some? && n in ls[i].pending.value ==>
         IsDir(t, ls[i].path + [n]) && ls[i].path + [n] !in noStat && ls[i].path !in noList
  }

  /** Beneath a directory that is not entered, nothing is recorded. */
  lemma {:induction false} NothingBeyondShut<D, F>(t: Tree<D, F>, shut: set<Path>, noList: set<Path>, c: Path, p: Path)
    requires c < p && (!Visited(t, shut, noList, c) || c in noList)
    ensures !Recorded(t, shut, noList, p) && !Visited(t, shut, noList, p)
    decreases |p|
  {
    if c != Parent(p) {
      NothingBeyondShut(t, shut, noList, c, Parent(p));
    }
  }

  lemma CollectedListed(t: STree, o: Faults, todo: set<Path>, rels: set<Path>, skipped: set<Path>, d: Path, todo': set<Path>)
    requires Collected(t, o, todo, rels, skipped) && Visited(t, o.noStat + o.noOpen, o.noList, d) && d !in o.noList
    requires d in todo && forall p :: p in t && d < p ==> p in todo
    requires todo' <= todo && d !in todo'
    requires forall p :: p in t && p in todo && p !in todo' && p != d ==>
      d < p && (p[..|d| + 1] in o.noStat || !IsDir(t, p[..|d| + 1]))
    requires forall p :: p in Kids(t, d) && p in o.noStat ==> p !in todo'
    ensures Collected(t, o, todo', rels + Kids(t, d), skipped + Kids(t, d) * o.noStat)
  {
    var shut := o.noStat + o.noOpen;
    forall p | p in t && p in todo && p !in todo' && p != d && |p| > |d| + 1
      ensures !Recorded(t, shut, o.noList, p) && !Visited(t, shut, o.noList, p)
    {
      NothingBeyondShut(t, shut, o.noList, p[..|d| + 1], p);
    }
    forall p | p in t && p in todo && p !in todo' && |p| == |d| + 1
      ensures p[..|d| + 1] == p
    {
    }
  }

  lemma CollectedUnlisted(t: STree, o: Faults, todo: set<Path>, rels: set<Path>, skipped: set<Path>, d: Path, todo': set<Path>)
    requires Collected(t, o, todo, rels, skipped) && Visited(t, o.noStat + o.noOpen, o.noList, d) && d in o.noList
    requires d in todo && todo' == todo - From(t, d)
    ensures Collected(t, o, todo', rels, skipped + if d != [] then {d} else {})
  {
    forall p | d < p
      ensures !Recorded(t, o.noStat + o.noOpen, o.noList, p) && !Visited(t, o.noStat + o.noOpen, o.noList, p)
    {
      NothingBeyondShut(t, o.noStat + o.noOpen, o.noList, d, p);
    }
    forall p | p in todo && p !in todo'
      ensures p == d || d < p
    {
      assert d <= p;
    }
  }

  lemma CollectedShut(t: STree, o: Faults, todo: set<Path>, rels: set<Path>, skipped: set<Path>, c: Path, todo': set<Path>)
    requires Collected(t, o, todo, rels, skipped) && Recorded(t, o.noStat + o.noOpen, o.noList, c)
    requires IsDir(t, c) && c in o.noOpen && c in todo && todo' == todo - From(t, c)
    ensures Collected(t, o, todo', rels, skipped + {c})
  {
    forall p | c < p
      ensures !Recorded(t, o.noStat + o.noOpen, o.noList, p) && !Visited(t, o.noStat + o.noOpen, o.noList, p)
    {
      NothingBeyondShut(t, o.noStat + o.noOpen, o.noList, c, p);
    }
    forall p | p in todo && p !in todo'
      ensures p == c || c < p
    {
      assert c <= p;
    }
  }

  ghost predicate CollectInv(t: STree, o: Faults, ls: seq<Level<()>>, rels: set<Path>, skipped: set<Path>, rootUnreadable: bool) {
    && Chain(t, ls) && Entering(t, o.noStat + o.noOpen, o.noList, o.noStat, ls)
    && Collected(t, o, Todo(t, ls), rels, skipped)
    && (rootUnreadable <==> [] in o.noList && [] !in Todo(t, ls))
  }

  /** The names of a listing that a pass descends to. */
  ghost predicate Chosen(t: STree, o: Faults, d: Path, names: seq<Name>) {
    NoDuplicates(names) && forall n :: n in names <==> d !in o.noList && CanDescend(t, o, d + [n])
  }

  /** What listing a directory leaves to be done. */
  ghost function TodoAfter(t: STree, todo: set<Path>, d: Path, names: seq<Name>): set<Path> {
    todo - {d} - set p | p in t && d < p && p[|d|] !in names
  }

  lemma TodoListed(t: STree, o: Faults, ls: seq<Level<()>>, names: seq<Name>)
    requires Chain(t, ls) && ls != [] && Top(ls).pending.None? && Chosen(t, o, Top(ls).path, names)
    ensures var d := Top(ls).path;
      var ls' := WithTop(ls, Level(d, Some(names), ()));
      Chain(t, ls') && Closer(t, ls, ls') && Todo(t, ls') == TodoAfter(t, Todo(t, ls), d, names)
    ensures Top(ls).path in Todo(t, ls) && forall p :: p in t && Top(ls).path < p ==> p in Todo(t, ls)
  {
    ListedSome(t, ls, names, ());
    TopIsAhead(t, ls);
  }

  lemma StillEntering(t: STree, o: Faults, ls: seq<Level<()>>, names: seq<Name>)
    requires ls != [] && Entering(t, o.noStat + o.noOpen, o.noList, o.noStat, ls) && Chosen(t, o, Top(ls).path, names)
    ensures Entering(t, o.noStat + o.noOpen, o.noList, o.noStat, WithTop(ls, Level(Top(ls).path, Some(names), ())))
  {
  }

  lemma CollectedUnderTop(t: STree, o: Faults, todo: set<Path>, rels: set<Path>, skipped: set<Path>, d: Path, names: seq<Name>)
    requires Collected(t, o, todo, rels, skipped) && Visited(t, o.noStat + o.noOpen, o.noList, d) && d !in o.noList
    requires d in t && d in todo && (forall p :: p in t && d < p ==> p in todo) && Chosen(t, o, d, names)
    ensures Collected(t, o, TodoAfter(t, todo, d, names), rels + Kids(t, d), skipped + Kids(t, d) * o.noStat)
  {
    hide Collected, Visited;
    forall p | p in t && d < p
      ensures p[..|d| + 1] == d + [p[|d|]]
    {
    }
    forall p | p in Kids(t, d)
      ensures d < p && p == d + [p[|d|]] && p[..|d| + 1] == p
    {
      assert p == d + [Leaf(p)];
    }
    CollectedListed(t, o, todo, rels, skipped, d, TodoAfter(t, todo, d, names));
  }

  lemma CollectedNothing(t: STree, o: Faults, todo: set<Path>, rels: set<Path>, skipped: set<Path>, d: Path, names: seq<Name>)
    requires Collected(t, o, todo, rels, skipped) && Visited(t, o.noStat + o.noOpen, o.noList, d) && d in o.noList
    requires d in t && d in todo && Chosen(t, o, d, names)
    ensures Collected(t, o, TodoAfter(t, todo, d, names), rels, skipped + if d != [] then {d} else {})
  {
    hide Collected, Visited;
    SomeName(names);
    UnlistedRest(t, d, names);
    CollectedUnlisted(t, o, todo, rels, skipped, d, TodoAfter(t, todo, d, names));
  }

  lemma CollectList(t: STree, o: Faults, ls: seq<Level<()>>, rels: set<Path>, skipped: set<Path>, r: bool, names: seq<Name>)
    requires WellFormed(t) && CollectInv(t, o, ls, rels, skipped, r) && ls != [] && Top(ls).pending.None?
    requires Chosen(t, o, Top(ls).path, names)
    ensures var d := Top(ls).path;
      var ls' := WithTop(ls, Level(d, Some(names), ()));
      && CollectInv(t, o, ls', rels + (if d in o.noList then {} else Kids(t, d)),
                    skipped + (if d !in o.noList then Kids(t, d) * o.noStat else if d != [] then {d} else {}),
                    r || (d == [] && d in o.noList))
      && Closer(t, ls, ls')
  {
    var d := Top(ls).path;
    assert Visited(t, o.noStat + o.noOpen, o.noList, d) && d in t;
    hide Collected, Chain, Ahead, Todo, Entering, Chosen, Closer, Visited;
    TodoListed(t, o, ls, names);
    StillEntering(t, o, ls, names);
    if d in o.noList {
      CollectedNothing(t, o, Todo(t, ls), rels, skipped, d, names);
      assert rels + {} == rels;
    } else {
      CollectedUnderTop(t, o, Todo(t, ls), rels, skipped, d, names);
    }
  }

  lemma SomeName(names: seq<Name>)
    ensures names != [] ==> names[0] in names
  {
  }

  lemma UnlistedRest(t: STree, d: Path, names: seq<Name>)
    requires names == [] && d in t
    ensures From(t, d) == {d} + set p | p in t && d < p && p[|d|] !in names
  {
    forall p | p in t && d <= p
      ensures p == d || d < p
    {
    }
  }

  lemma TopIsAhead(t: STree, ls: seq<Level<()>>)
    requires Chain(t, ls) && ls != [] && Top(ls).pending.None?
    ensures Top(ls).path in Todo(t, ls) && Top(ls).path !in Ahead(t, ls)
    ensures forall p :: p in t && Top(ls).path < p ==> p in Todo(t, ls)
  {
    NothingAheadUnderTop(t, ls, Top(ls).path);
  }

  lemma CollectStart(t: STree, o: Faults)
    requires WellFormed(t)
    ensures CollectInv(t, o, [Level([], None, ())], {}, {}, false)
  {
    var ls: seq<Level<()>> := [Level([], None, ())];
    Start(t, [], ());
    forall p | p in t
      ensures p in Todo(t, ls)
    {
      assert p == [] || [] < p;
    }
  }

  /** The name taken is a directory that cannot be opened. */
  lemma CollectShut(t: STree, o: Faults, ls: seq<Level<()>>, rels: set<Path>, skipped: set<Path>, r: bool)
    requires WellFormed(t) && CollectInv(t, o, ls, rels, skipped, r) && HasNext(ls) && Next(Top(ls)) in o.noOpen
    ensures var ls' := TakeNext(ls, ());
      CollectInv(t, o, ls', rels, skipped + {Next(Top(ls))}, r) && Closer(t, ls, ls')
  {
    var c, ls' := Next(Top(ls)), TakeNext(ls, ());
    Taken(t, ls, ());
    assert c in From(t, c);
    CollectedShut(t, o, Todo(t, ls), rels, skipped, c, Todo(t, ls'));
  }

  lemma CollectEnter(t: STree, o: Faults, ls: seq<Level<()>>, rels: set<Path>, skipped: set<Path>, r: bool)
    requires WellFormed(t) && CollectInv(t, o, ls, rels, skipped, r) && HasNext(ls) && Next(Top(ls)) !in o.noOpen
    ensures var ls' := TakeNext(ls, ()) + [Level(Next(Top(ls)), None, ())];
      CollectInv(t, o, ls', rels, skipped, r) && Closer(t, ls, ls') && Todo(t, ls') == Todo(t, ls)
  {
    var c := Next(Top(ls));
    assert IsDir(t, c) && Parent(c) == Top(ls).path;
    Entered(t, ls, (), ());
    var ls' := TakeNext(ls, ()) + [Level(c, None, ())];
    assert Top(ls').path == c;
    assert Todo(t, ls') == Todo(t, ls);
  }

  lemma CollectLeave(t: STree, o: Faults, ls: seq<Level<()>>, rels: set<Path>, skipped: set<Path>, r: bool)
    requires WellFormed(t) && CollectInv(t, o, ls, rels, skipped, r) && ls != [] && Top(ls).pending == Some([])
    ensures CollectInv(t, o, Below(ls), rels, skipped, r) && Closer(t, ls, Below(ls)) && Todo(t, Below(ls)) == Todo(t, ls)
  {
    Popped(t, ls);
    var below := Below(ls);
    if below != [] {
      assert below[|below| - 1] == ls[|ls| - 2] && below[|below| - 1] == Top(below);
      assert Top(below).pending.Some?;
      assert Todo(t, below) == Todo(t, ls);
    }
  }

  lemma ReversedHasNoDuplicates(names: seq<Name>)
    requires NoDuplicates(names)
    ensures NoDuplicates(Reversed(names))
  {
  }

  /** _collect_rels */
  method CollectRels(t: STree, o: Faults, ctx: Ctx)
    requires WellFormed(t)
    requires ctx.srcRels == {} && ctx.skipped == {} && !ctx.rootUnreadable
    modifies ctx`srcRels, ctx`skipped, ctx`failures, ctx`rootUnreadable
    ensures old(ctx.Counted()) ==> ctx.Counted()
    ensures Collected(t, o, {}, ctx.srcRels, ctx.skipped)
    ensures ctx.rootUnreadable <==> [] in o.noList
  {
    var ls: seq<Level<()>> := [Level([], None, ())];
    CollectStart(t, o);
    while ls != []
      invariant CollectInv(t, o, ls, ctx.srcRels, ctx.skipped, ctx.rootUnreadable)
      invariant old(ctx.Counted()) ==> ctx.Counted()
      decreases Ahead(t, ls), Steps(ls)
    {
      var top := Top(ls);
      ghost var rels, skipped, unread := ctx.srcRels, ctx.skipped, ctx.rootUnreadable;
      if top.pending.None? {
        var subdirs := RecordLevel(t, o, top.path, ctx);
        ReversedHasNoDuplicates(subdirs);
        CollectList(t, o, ls, rels, skipped, unread, Reversed(subdirs));
        ls := WithTop(ls, Level(top.path, Some(Reversed(subdirs)), ()));
      } else if top.pending.value == [] {
        CollectLeave(t, o, ls, rels, skipped, unread);
        ls := Below(ls);
      } else {
        var child := Next(top);
        if child in o.noOpen {
          CollectShut(t, o, ls, rels, skipped, unread);
          ls := TakeNext(ls, ());
          ctx.NoteFailure(child);
        } else {
          CollectEnter(t, o, ls, rels, skipped, unread);
          ls := TakeNext(ls, ()) + [Level(child, None, ())];
        }
      }
    }
  }
}
