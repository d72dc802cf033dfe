/** The abstract file tree: a finite map from path to node, with the root
    directory at []. Dir and File payloads are parameters, because the
    components of the program care about different attributes. */
module Trees {
  import opened Names

  datatype Node<D, F> = Dir(dir: D) | File(file: F) | Link(target: string) | Special

  type Tree<D, F> = map<Path, Node<D, F>>

  /** A sensible name under a real directory. */
  ghost predicate Rooted<D, F>(t: Tree<D, F>, p: Path) {
    p == [] || (ValidName(Leaf(p)) && IsDir(t, Parent(p)))
  }

  /** What any Linux tree satisfies. (The trigger keeps the solver from
      climbing from every path to the root unasked.) */
  ghost predicate WellFormed<D, F>(t: Tree<D, F>) {
    && IsDir(t, [])
    && forall p {:trigger Rooted(t, p)} :: p in t ==> Rooted(t, p)
  }

  predicate IsDir<D, F>(t: Tree<D, F>, p: Path) {
    p in t && t[p].Dir?
  }

  predicate IsLink<D, F>(t: Tree<D, F>, p: Path) {
    p in t && t[p].Link?
  }

  predicate IsFile<D, F>(t: Tree<D, F>, p: Path) {
    p in t && t[p].File?
  }

  ghost predicate ValidPath(p: Path) {
    forall i :: 0 <= i < |p| ==> ValidName(p[i])
  }

  /** st_nlink == 1: no other name in the tree, nor outside of it. */
  predicate OnlyName<D(==)>(t: Tree<D, nat>, outside: set<nat>, p: Path)
    requires IsFile(t, p)
  {
    t[p].file !in outside && forall q :: q in t && t[q] == t[p] ==> q == p
  }

  lemma {:induction false} AncestorsAreDirs<D, F>(t: Tree<D, F>, p: Path, q: Path)
    requires WellFormed(t) && q in t && p < q
    ensures IsDir(t, p)
    decreases |q|
  {
    assert Rooted(t, q);
    if p != Parent(q) {
      AncestorsAreDirs(t, p, Parent(q));
    }
  }

  lemma {:induction false} PathsAreValid<D, F>(t: Tree<D, F>, p: Path)
    requires WellFormed(t) && p in t
    ensures ValidPath(p)
  {
    assert Rooted(t, p);
    if p != [] {
      PathsAreValid(t, Parent(p));
      assert p == Parent(p) + [Leaf(p)];
    }
  }

  /** The tree without the entry at q and everything beneath it. */
  function Without<D, F>(t: Tree<D, F>, q: Path): Tree<D, F> {
    map p | p in t && !(q <= p) :: t[p]
  }

  lemma WithoutIsWellFormed<D, F>(t: Tree<D, F>, q: Path)
    requires WellFormed(t) && q != []
    ensures WellFormed(Without(t, q))
  {
    forall p | p in Without(t, q)
      ensures Rooted(Without(t, q), p)
    {
      assert Rooted(t, p);
      assert p != [] ==> p == Parent(p) + [Leaf(p)];
    }
  }

  /** Replacing a non-directory, or adding an entry, under a directory. */
  lemma AddedIsWellFormed<D, F>(t: Tree<D, F>, q: Path, n: Node<D, F>)
    requires WellFormed(t) && q != [] && ValidName(Leaf(q)) && IsDir(t, Parent(q))
    requires n.Dir? || !IsDir(t, q)
    ensures WellFormed(t[q := n])
  {
    var u := t[q := n];
    forall p | p in u
      ensures Rooted(u, p)
    {
      if p in t {
        assert Rooted(t, p);
      }
    }
  }

  function ChildNames<D, F>(t: Tree<D, F>, d: Path): set<Name> {
    set p | p in t && p != [] && Parent(p) == d :: Leaf(p)
  }

  lemma ChildNamesExact<D, F>(t: Tree<D, F>, d: Path, n: Name)
    ensures n in ChildNames(t, d) <==> d + [n] in t
  {
    if d + [n] in t {
      assert Parent(d + [n]) == d && Leaf(d + [n]) == n;
    }
    if n in ChildNames(t, d) {
      var p :| p in t && p != [] && Parent(p) == d && Leaf(p) == n;
      assert p == d + [n];
    }
  }

  // -------------------------------------------------------------------------
  // sorted()
  // -------------------------------------------------------------------------

  ghost predicate SortedBy<T(!new)>(s: seq<T>, key: T -> string) {
    forall i, j :: 0 <= i < j < |s| ==> Less(key(s[i]), key(s[j]))
  }

  /** The elements of s, each once, in increasing order of their keys. */
  method SortBy<T(!new, ==)>(s: set<T>, key: T -> string) returns (r: seq<T>)
    requires forall x, y :: x in s && y in s && key(x) == key(y) ==> x == y
    ensures SortedBy(r, key)
    ensures forall x :: x in r <==> x in s
  {
    r := [];
    var todo := s;
    while todo != {}
      invariant todo <= s
      invariant forall x :: x in r <==> x in s && x !in todo
      invariant SortedBy(r, key)
      invariant forall x, y :: x in r && y in todo ==> Less(key(x), key(y))
      decreases todo
    {
      var m := LeastBy(todo, key);
      forall y | y in todo - {m}
        ensures Less(key(m), key(y))
      {
        LessIsTotal(key(m), key(y));
      }
      r := r + [m];
      todo := todo - {m};
    }
  }

  method LeastBy<T(!new, ==)>(s: set<T>, key: T -> string) returns (m: T)
    requires s != {}
    ensures m in s && forall x :: x in s ==> !Less(key(x), key(m))
  {
    m :| m in s;
    LessIsTotal(key(m), key(m));
    var todo := s - {m};
    while todo != {}
      invariant todo <= s && m in s
      invariant forall x :: x in s && x !in todo ==> !Less(key(x), key(m))
      decreases todo
    {
      var x :| x in todo;
      if Less(key(x), key(m)) {
        forall y | y in s && y !in todo
          ensures !Less(key(y), key(x))
        {
          if Less(key(y), key(x)) {
            LessIsTransitive(key(y), key(x), key(m));
          }
        }
        LessIsTotal(key(x), key(x));
        m := x;
      }
      todo := todo - {x};
    }
  }

  lemma SortedHasNoDuplicates<T(!new)>(s: seq<T>, key: T -> string)
    requires SortedBy(s, key)
    ensures forall i, j :: 0 <= i < j < |s| ==> s[i] != s[j]
  {
    forall i, j | 0 <= i < j < |s|
      ensures s[i] != s[j]
    {
      LessIsTotal(key(s[i]), key(s[i]));
    }
  }
}
