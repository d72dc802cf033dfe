/** Why a walk ends though others may have changed the tree under it: what its
    levels may still meet, in the tree as it is, grows only when they act. */
module Weights {
  import opened Names
  import opened Trees
  import opened Resolver
  import opened Kernels
  import opened Levels
  import Walks

  type Level = Walks.Level<bool>

  ghost function Weigh(t: FsTree, d: Path, names: seq<Name>): nat {
    if names == [] then 0
    else Weigh(t, d, names[..|names| - 1]) + |Walks.From(t, d + [names[|names| - 1]])|
  }

  ghost function Under(t: FsTree, d: Path): set<Path> {
    set p | p in t && d < p
  }

  /** How much a level may still meet, in the tree as it is now. */
  ghost function LevelWeight(t: FsTree, ino: nat, pending: Option<seq<Name>>): nat {
    var d := PathOf(t, ino);
    if d.None? then 0
    else if pending.None? then |Under(t, d.value)|
    else Weigh(t, d.value, pending.value)
  }

  /** A level of this walk has one descriptor. */
  predicate Single(w: Inodes) {
    |w| == 2 && w[0].Some? && w[1].None?
  }

  ghost predicate Singles(want: seq<Inodes>) {
    forall i :: 0 <= i < |want| ==> Single(want[i])
  }

  ghost function Weight(t: FsTree, want: seq<Inodes>, ls: seq<Level>): nat
    requires |want| == |ls| && Singles(want)
  {
    if ls == [] then 0 else
      var n := |ls| - 1;
      Weight(t, want[..n], ls[..n]) + LevelWeight(t, want[n][0].value, ls[n].pending)
  }

  ghost function Unlisted(ls: seq<Level>): nat {
    if ls != [] && Walks.Top(ls).pending.None? then 1 else 0
  }

  ghost function Outstanding(ls: seq<Level>): nat {
    if ls == [] then 0 else
      var top := Walks.Top(ls);
      Outstanding(Walks.Below(ls)) + 1 + if top.pending.None? then 0 else |top.pending.value|
  }

  ghost predicate Nearer(t: FsTree, want: seq<Inodes>, ls: seq<Level>, t': FsTree, want': seq<Inodes>, ls': seq<Level>)
    requires |want| == |ls| && Singles(want) && |want'| == |ls'| && Singles(want')
  {
    var w, w' := Weight(t, want, ls), Weight(t', want', ls');
    w' < w || (w' == w && (Unlisted(ls') < Unlisted(ls) || (Unlisted(ls') == Unlisted(ls) && Outstanding(ls') < Outstanding(ls))))
  }

  /** The pending names of one directory lead to different entries. */
  lemma {:induction false} WeighAtMost(t: FsTree, d: Path, names: seq<Name>)
    requires Walks.NoDuplicates(names)
    ensures Weigh(t, d, names) <= |set p | p in t && d < p && p[|d|] in names|
  {
    var all := set p | p in t && d < p && p[|d|] in names;
    if names != [] {
      var rest, n := names[..|names| - 1], names[|names| - 1];
      WeighAtMost(t, d, rest);
      var some := set p | p in t && d < p && p[|d|] in rest;
      var one := Walks.From(t, d + [n]);
      forall p | p in one
        ensures p !in some
      {
        assert p[|d|] == (d + [n])[|d|] == n;
      }
      forall p | p in one
        ensures p in all
      {
        assert p[|d|] == (d + [n])[|d|] == n;
        assert d < d + [n];
      }
      assert |some + one| == |some| + |one|;
      assert some + one <= all;
      SubsetSize(some + one, all);
    }
  }

  lemma {:induction false} SubsetSize<T>(a: set<T>, b: set<T>)
    requires a <= b
    ensures |a| <= |b|
  {
    assert b == a + (b - a);
  }

  lemma ListedWeighs(t: FsTree, ino: nat, names: seq<Name>)
    requires Walks.NoDuplicates(names)
    ensures LevelWeight(t, ino, Some(names)) <= LevelWeight(t, ino, None)
    ensures LevelWeight(t, ino, Some([])) == 0
  {
    var d := PathOf(t, ino);
    if d.Some? {
      WeighAtMost(t, d.value, names);
      SubsetSize((set p | p in t && d.value < p && p[|d.value|] in names), Under(t, d.value));
    }
  }

  lemma {:induction false} WeighShrinks(t: FsTree, t': FsTree, d: Path, names: seq<Name>)
    requires t'.Keys <= t.Keys
    ensures Weigh(t', d, names) <= Weigh(t, d, names)
  {
    if names != [] {
      WeighShrinks(t, t', d, names[..|names| - 1]);
      var c := d + [names[|names| - 1]];
      SubsetSize(Walks.From(t', c), Walks.From(t, c));
    }
  }

  /** Part of a tree, its directories unchanged. */
  ghost predicate PartOf(t': FsTree, t: FsTree) {
    forall p :: p in t' ==> p in t && t[p] == t'[p]
  }

  lemma StillThere(s: Fs, s': Fs, ino: nat)
    requires ValidFs(s) && ValidFs(s') && PartOf(s'.tree, s.tree)
    ensures PathOf(s'.tree, ino).Some? ==> PathOf(s'.tree, ino) == PathOf(s.tree, ino)
  {
    var d := PathOf(s'.tree, ino);
    if d.Some? {
      assert Alone(s.tree, d.value);
    }
  }

  lemma LevelShrinks(s: Fs, s': Fs, ino: nat, pending: Option<seq<Name>>)
    requires ValidFs(s) && ValidFs(s') && PartOf(s'.tree, s.tree)
    ensures LevelWeight(s'.tree, ino, pending) <= LevelWeight(s.tree, ino, pending)
  {
    StillThere(s, s', ino);
    var d := PathOf(s'.tree, ino);
    if d.Some? {
      if pending.None? {
        SubsetSize(Under(s'.tree, d.value), Under(s.tree, d.value));
      } else {
        WeighShrinks(s.tree, s'.tree, d.value, pending.value);
      }
    }
  }

  lemma {:induction false} WeightShrinks(s: Fs, s': Fs, want: seq<Inodes>, ls: seq<Level>)
    requires ValidFs(s) && ValidFs(s') && PartOf(s'.tree, s.tree)
    requires |want| == |ls| && Singles(want)
    ensures Weight(s'.tree, want, ls) <= Weight(s.tree, want, ls)
  {
    if ls != [] {
      var n := |ls| - 1;
      WeightShrinks(s, s', want[..n], ls[..n]);
      LevelShrinks(s, s', want[n][0].value, ls[n].pending);
    }
  }

  // What each step of a walk does to all this.

  lemma ListedIsNearer(t: FsTree, want: seq<Inodes>, ls: seq<Level>, names: seq<Name>, x: bool)
    requires |want| == |ls| > 0 && Singles(want)
    requires Walks.Top(ls).pending.None? && Walks.NoDuplicates(names)
    ensures Nearer(t, want, ls, t, want, Walks.WithTop(ls, Walks.Level(Walks.Top(ls).path, Some(names), x)))
  {
    var n := |ls| - 1;
    var ls' := Walks.WithTop(ls, Walks.Level(Walks.Top(ls).path, Some(names), x));
    assert ls'[..n] == ls[..n];
    ListedWeighs(t, want[n][0].value, names);
  }

  lemma TakenIsNearer(s: Fs, want: seq<Inodes>, ls: seq<Level>, s': Fs, x: bool)
    requires ValidFs(s) && ValidFs(s') && PartOf(s'.tree, s.tree)
    requires |want| == |ls| > 0 && Singles(want) && Walks.HasNext(ls)
    ensures Nearer(s.tree, want, ls, s'.tree, want, Walks.TakeNext(ls, x))
  {
    var n, ls' := |ls| - 1, Walks.TakeNext(ls, x);
    assert ls'[..n] == ls[..n] == Walks.Below(ls') == Walks.Below(ls);
    WeightShrinks(s, s', want[..n], ls[..n]);
    LevelShrinks(s, s', want[n][0].value, ls'[n].pending);
  }

  lemma EnteredIsNearer(s: Fs, want: seq<Inodes>, ls: seq<Level>, w: Inodes, c: Path, x: bool, y: bool)
    requires ValidFs(s) && |want| == |ls| > 0 && Singles(want) && Single(w) && Walks.HasNext(ls)
    requires var d := PathOf(s.tree, want[|ls| - 1][0].value);
      var names := Walks.Top(ls).pending.value;
      d.Some? && IsDir(s.tree, d.value + [names[|names| - 1]]) &&
      w[0].value == s.tree[d.value + [names[|names| - 1]]].dir.ino
    ensures Nearer(s.tree, want, ls, s.tree, want + [w], Walks.TakeNext(ls, x) + [Walks.Level(c, None, y)])
  {
    var n, mid := |ls| - 1, Walks.TakeNext(ls, x);
    var ls' := mid + [Walks.Level(c, None, y)];
    var names := Walks.Top(ls).pending.value;
    var at := PathOf(s.tree, want[n][0].value).value + [names[|names| - 1]];
    assert ls'[..|ls|] == mid && (want + [w])[..|ls|] == want && mid[..n] == ls[..n];
    assert Alone(s.tree, at);
    assert Walks.From(s.tree, at) == Under(s.tree, at) + {at} by {
      forall p | p in Walks.From(s.tree, at)
        ensures p == at || p in Under(s.tree, at)
      {
      }
    }
  }

  lemma LeftIsNearer(s: Fs, want: seq<Inodes>, ls: seq<Level>, s': Fs, emptied: bool)
    requires ValidFs(s) && ValidFs(s') && PartOf(s'.tree, s.tree)
    requires |want| == |ls| > 0 && Singles(want) && Walks.Top(ls).pending == Some([])
    requires |ls| > 1 ==> Walks.Top(Walks.Below(ls)).pending.Some?
    ensures var up := Walks.Below(ls);
      Nearer(s.tree, want, ls, s'.tree, want[..|up|],
             if emptied || up == [] then up else Walks.WithTop(up, Walks.Top(up).(data := false)))
  {
    var up := Walks.Below(ls);
    WeightShrinks(s, s', want[..|up|], up);
    if !emptied && up != [] {
      var up' := Walks.WithTop(up, Walks.Top(up).(data := false));
      assert Walks.Below(up') == Walks.Below(up) == up'[..|up| - 1];
      assert want[..|up|][..|up| - 1] == want[..|up| - 1];
    }
  }
}
