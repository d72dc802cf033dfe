/** The explicit-stack descent every tree walk of the program is built on.
    A level holds a directory and the names in it that are still pending
    (None before it has been listed). Ahead is what the walk has yet to
    meet, in closed form, so that a loop invariant can speak of it. */
module Walks {
  import opened Names
  import opened Trees
  import opened Resolver

  datatype Level<X> = Level(path: Path, pending: Option<seq<Name>>, data: X)

  ghost function AheadOf<D, F, X>(t: Tree<D, F>, l: Level<X>): set<Path> {
    set p | p in t && l.path < p && (l.pending.None? || p[|l.path|] in l.pending.value)
  }

  ghost function Ahead<D, F, X>(t: Tree<D, F>, ls: seq<Level<X>>): set<Path> {
    if ls == [] then {} else Ahead(t, Below(ls)) + AheadOf(t, Top(ls))
  }

  function Top<X>(ls: seq<Level<X>>): Level<X>
    requires ls != []
  {
    ls[|ls| - 1]
  }

  function Below<X>(ls: seq<Level<X>>): seq<Level<X>>
    requires ls != []
  {
    ls[..|ls| - 1]
  }

  function WithTop<X>(ls: seq<Level<X>>, l: Level<X>): seq<Level<X>>
    requires ls != []
  {
    Below(ls) + [l]
  }

  predicate NoDuplicates(names: seq<Name>) {
    forall i, j :: 0 <= i < j < |names| ==> names[i] != names[j]
  }

  /** Every level is a subdirectory taken from the level under it. */
  ghost predicate Chain<D, F, X>(t: Tree<D, F>, ls: seq<Level<X>>) {
    ls != [] ==>
      var top := Top(ls);
      && IsDir(t, top.path)
      && (top.pending.Some? ==>
            && NoDuplicates(top.pending.value)
            && forall n :: n in top.pending.value ==> top.path + [n] in t)
      && Chain(t, Below(ls))
      && (|ls| > 1 ==>
            var up := Top(Below(ls));
            && top.path != [] && up.path == Parent(top.path)
            && up.pending.Some? && Leaf(top.path) !in up.pending.value)
  }

  lemma {:induction false} NothingAheadUnderTop<D, F, X>(t: Tree<D, F>, ls: seq<Level<X>>, p: Path)
    requires Chain(t, ls) && ls != [] && Top(ls).path <= p
    ensures p !in Ahead(t, Below(ls))
  {
    if |ls| > 1 {
      var up := Top(Below(ls));
      NothingAheadUnderTop(t, Below(ls), p);
      assert p[|up.path|] == Leaf(Top(ls).path);
    }
  }

  /** What makes every one of the loops end: an iteration lists a level,
      takes a name or leaves a level. */
  ghost predicate Closer<D, F, X>(t: Tree<D, F>, ls: seq<Level<X>>, ls': seq<Level<X>>) {
    Ahead(t, ls') < Ahead(t, ls) || (Ahead(t, ls') == Ahead(t, ls) && Steps(ls') < Steps(ls))
  }

  ghost function Steps<X>(ls: seq<Level<X>>): nat {
    2 * |ls| + if ls != [] && Top(ls).pending.None? then 1 else 0
  }

  /** The name a level yields next, and the level without it. */
  function Next<X>(l: Level<X>): Path
    requires l.pending.Some? && l.pending.value != []
  {
    l.path + [l.pending.value[|l.pending.value| - 1]]
  }

  function TakeNext<X>(ls: seq<Level<X>>, x: X): seq<Level<X>>
    requires HasNext(ls)
  {
    WithTop(ls, Level(Top(ls).path, Some(Top(ls).pending.value[..|Top(ls).pending.value| - 1]), x))
  }

  predicate HasNext<X>(ls: seq<Level<X>>) {
    ls != [] && Top(ls).pending.Some? && Top(ls).pending.value != []
  }

  /** An entry and everything beneath it. */
  ghost function From<D, F>(t: Tree<D, F>, c: Path): set<Path> {
    set p | p in t && c <= p
  }

  /** A non-directory has nothing beneath it. */
  lemma OnlyItself<D, F>(t: Tree<D, F>, c: Path)
    requires WellFormed(t) && c in t && !IsDir(t, c)
    ensures From(t, c) == {c}
  {
    forall p | p in From(t, c)
      ensures p == c
    {
      assert c <= p;
      if c < p {
        AncestorsAreDirs(t, c, p);
      }
    }
    assert c in From(t, c);
  }

  /** One descriptor on the directory to walk, nothing listed yet. */
  lemma Start<D, F, X>(t: Tree<D, F>, root: Path, x: X)
    requires IsDir(t, root)
    ensures var ls := [Level(root, None, x)];
      Chain(t, ls) && Ahead(t, ls) == set p | p in t && root < p
  {
    var ls := [Level(root, None, x)];
    assert Below(ls) == [];
  }

  /** Listing the top level changes nothing about what lies ahead. */
  lemma Listed<D, F, X>(t: Tree<D, F>, ls: seq<Level<X>>, names: seq<Name>, x: X)
    requires WellFormed(t) && Chain(t, ls) && ls != [] && Top(ls).pending.None?
    requires NoDuplicates(names) && forall n :: n in names <==> n in ChildNames(t, Top(ls).path)
    ensures var ls' := WithTop(ls, Level(Top(ls).path, Some(names), x));
      Chain(t, ls') && Ahead(t, ls') == Ahead(t, ls) && Closer(t, ls, ls')
  {
    var top := Top(ls);
    var ls' := WithTop(ls, Level(top.path, Some(names), x));
    assert Below(ls') == Below(ls);
    forall p | p in t && top.path < p
      ensures p[|top.path|] in names
    {
      var c := p[..|top.path| + 1];
      assert c == top.path + [p[|top.path|]];
      if c != p {
        AncestorsAreDirs(t, c, p);
      }
      ChildNamesExact(t, top.path, p[|top.path|]);
    }
    forall n | n in names
      ensures top.path + [n] in t
    {
      ChildNamesExact(t, top.path, n);
    }
    assert AheadOf(t, Top(ls')) == AheadOf(t, top);
  }

  /** A level that yields only some of its names: what lies beneath the
      others is passed over. */
  lemma ListedSome<D, F, X>(t: Tree<D, F>, ls: seq<Level<X>>, names: seq<Name>, x: X)
    requires Chain(t, ls) && ls != [] && Top(ls).pending.None?
    requires NoDuplicates(names) && forall n :: n in names ==> Top(ls).path + [n] in t
    ensures var ls' := WithTop(ls, Level(Top(ls).path, Some(names), x));
      && Chain(t, ls') && Closer(t, ls, ls')
      && Ahead(t, ls') == Ahead(t, ls) - set p | p in t && Top(ls).path < p && p[|Top(ls).path|] !in names
  {
    var top := Top(ls);
    var ls' := WithTop(ls, Level(top.path, Some(names), x));
    assert Below(ls') == Below(ls);
    forall p | p in t && top.path < p
      ensures p !in Ahead(t, Below(ls))
    {
      NothingAheadUnderTop(t, ls, p);
    }
  }

  /** A level that yields no names: all beneath it is passed over. */
  lemma PassedOver<D, F, X>(t: Tree<D, F>, ls: seq<Level<X>>, x: X)
    requires Chain(t, ls) && ls != [] && Top(ls).pending.None?
    ensures var ls' := WithTop(ls, Level(Top(ls).path, Some([]), x));
      && Chain(t, ls') && Ahead(t, ls') == (Ahead(t, ls) - set p | p in t && Top(ls).path < p)
      && Closer(t, ls, ls')
  {
    var top := Top(ls);
    var ls' := WithTop(ls, Level(top.path, Some([]), x));
    assert Below(ls') == Below(ls);
    forall p | p in t && top.path < p
      ensures p !in Ahead(t, Below(ls))
    {
      NothingAheadUnderTop(t, ls, p);
    }
  }

  /** Taking a name off the top level: it and everything beneath it is no
      longer ahead. */
  lemma Taken<D, F, X>(t: Tree<D, F>, ls: seq<Level<X>>, x: X)
    requires Chain(t, ls) && HasNext(ls)
    ensures var c := Next(Top(ls));
      var ls' := TakeNext(ls, x);
      && Chain(t, ls') && c in t && c != [] && Parent(c) == Top(ls).path && Leaf(c) !in Top(ls').pending.value
      && From(t, c) <= Ahead(t, ls) && Ahead(t, ls') == Ahead(t, ls) - From(t, c)
      && Closer(t, ls, ls')
  {
    var top := Top(ls);
    var c, ls' := Next(top), TakeNext(ls, x);
    var n := Leaf(c);
    assert Below(ls') == Below(ls);
    assert n in top.pending.value;
    forall p | p in t && c <= p
      ensures p !in Ahead(t, Below(ls)) && p in AheadOf(t, top)
    {
      NothingAheadUnderTop(t, ls, p);
    }
    forall p | p in t && top.path < p && p[|top.path|] == n
      ensures c <= p
    {
      assert p[..|c|] == c;
    }
    assert AheadOf(t, Top(ls')) == AheadOf(t, top) - From(t, c);
    assert c in From(t, c);
  }

  /** Descending into the directory just taken. */
  lemma Pushed<D, F, X>(t: Tree<D, F>, ls: seq<Level<X>>, c: Path, x: X)
    requires Chain(t, ls) && ls != [] && Top(ls).pending.Some?
    requires IsDir(t, c) && c != [] && Parent(c) == Top(ls).path && Leaf(c) !in Top(ls).pending.value
    ensures var ls' := ls + [Level(c, None, x)];
      Chain(t, ls') && Ahead(t, ls') == Ahead(t, ls) + set p | p in t && c < p
  {
    var ls' := ls + [Level(c, None, x)];
    assert Below(ls') == ls;
  }

  /** Taking a directory's name and descending into it. */
  lemma Entered<D, F, X>(t: Tree<D, F>, ls: seq<Level<X>>, x: X, y: X)
    requires Chain(t, ls) && HasNext(ls) && IsDir(t, Next(Top(ls)))
    ensures var c := Next(Top(ls));
      var ls' := TakeNext(ls, x) + [Level(c, None, y)];
      Chain(t, ls') && c in Ahead(t, ls) && Ahead(t, ls') == Ahead(t, ls) - {c} && Closer(t, ls, ls')
  {
    var c := Next(Top(ls));
    Taken(t, ls, x);
    Pushed(t, TakeNext(ls, x), c, y);
    forall p | p in t && c <= p
      ensures p == c || c < p
    {
      assert |p| == |c| ==> p == c;
    }
    assert c in From(t, c);
  }

  /** Leaving a level that has nothing left. */
  lemma Popped<D, F, X>(t: Tree<D, F>, ls: seq<Level<X>>)
    requires Chain(t, ls) && ls != [] && Top(ls).pending == Some([])
    ensures Chain(t, Below(ls)) && Ahead(t, Below(ls)) == Ahead(t, ls) && Closer(t, ls, Below(ls))
    ensures |ls| > 1 ==> Top(Below(ls)).path == Parent(Top(ls).path)
  {
  }

  /** Changing what a level carries besides its path and names. */
  lemma Relabelled<D, F, X>(t: Tree<D, F>, ls: seq<Level<X>>, x: X)
    requires Chain(t, ls) && ls != []
    ensures var ls' := WithTop(ls, Top(ls).(data := x));
      Chain(t, ls') && Ahead(t, ls') == Ahead(t, ls)
  {
    var ls' := WithTop(ls, Top(ls).(data := x));
    assert Below(ls') == Below(ls);
  }

  /** names.reverse() */
  function Reversed(s: seq<Name>): (r: seq<Name>)
    ensures |r| == |s| && forall i :: 0 <= i < |s| ==> r[i] == s[|s| - 1 - i]
    ensures forall x :: x in r <==> x in s
  {
    if s == [] then [] else Reversed(s[1..]) + [s[0]]
  }

  /** os.scandir, sorted, then reversed so that pop() takes names in order. */
  method ListReversed<D, F>(t: Tree<D, F>, d: Path) returns (names: seq<Name>)
    ensures NoDuplicates(names)
    ensures forall n :: n in names <==> n in ChildNames(t, d)
    ensures forall i, j :: 0 <= i < j < |names| ==> Less(names[j], names[i])
  {
    var up := SortBy(ChildNames(t, d), (n: Name) => n);
    SortedHasNoDuplicates(up, (n: Name) => n);
    names := seq(|up|, i requires 0 <= i < |up| => up[|up| - 1 - i]);
    forall n
      ensures n in names <==> n in up
    {
      if n in up {
        var i :| 0 <= i < |up| && up[i] == n;
        assert names[|up| - 1 - i] == n;
      }
    }
  }
}
