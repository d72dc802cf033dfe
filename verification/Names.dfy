/** Path names: components, the "/"-joined spelling of a relative path, and
    the order Python's sorted() puts those spellings in. */
module Names {

  type Name = string

  /** A path below some root, one component per element; [] is the root. */
  type Path = seq<Name>

  /** What a directory entry can be called on Linux. */
  predicate ValidName(n: Name) {
    n != "" && n != "." && n != ".." && '/' !in n
  }

  function Parent(p: Path): Path
    requires p != []
  {
    p[..|p| - 1]
  }

  function Leaf(p: Path): Name
    requires p != []
  {
    p[|p| - 1]
  }

  /** "/".join(p) */
  function Join(p: Path): string {
    if p == [] then "" else if |p| == 1 then p[0] else p[0] + "/" + Join(p[1..])
  }

  /** s.split("/") */
  function Split(s: string): (parts: seq<string>)
    ensures parts != []
    ensures forall i :: 0 <= i < |parts| ==> '/' !in parts[i]
  {
    if s == "" then [""]
    else if s[0] == '/' then [""] + Split(s[1..])
    else
      var rest := Split(s[1..]);
      [[s[0]] + rest[0]] + rest[1..]
  }

  lemma {:induction false} SplitAtSlash(a: string, s: string)
    requires '/' !in a
    ensures Split(a + "/" + s) == [a] + Split(s)
  {
    if a == "" {
      assert a + "/" + s == "/" + s;
      assert ("/" + s)[1..] == s;
    } else {
      SplitAtSlash(a[1..], s);
      assert (a + "/" + s)[1..] == a[1..] + "/" + s;
      assert [a[0]] + a[1..] == a;
    }
  }

  lemma {:induction false} SplitNoSlash(a: string)
    requires '/' !in a
    ensures Split(a) == [a]
  {
    if a != "" {
      SplitNoSlash(a[1..]);
      assert [a[0]] + a[1..] == a;
    }
  }

  /** Splitting the joined spelling gives the components back. */
  lemma {:induction false} SplitOfJoin(p: Path)
    requires p != []
    requires forall i :: 0 <= i < |p| ==> '/' !in p[i]
    ensures Split(Join(p)) == p
  {
    if |p| == 1 {
      SplitNoSlash(p[0]);
    } else {
      SplitOfJoin(p[1..]);
      SplitAtSlash(p[0], Join(p[1..]));
      assert [p[0]] + p[1..] == p;
    }
  }

  /** s.lstrip("/") */
  function StripLeft(s: string): string {
    if s != "" && s[0] == '/' then StripLeft(s[1..]) else s
  }

  /** s.rstrip("/") */
  function StripRight(s: string): string {
    if s != "" && s[|s| - 1] == '/' then StripRight(s[..|s| - 1]) else s
  }

  /** A joined path neither starts nor ends with a slash. */
  lemma {:induction false} JoinEnds(p: Path)
    requires p != []
    requires forall i :: 0 <= i < |p| ==> ValidName(p[i])
    ensures Join(p) != "" && Join(p)[0] != '/' && Join(p)[|Join(p)| - 1] != '/'
  {
    assert p[0][0] in p[0] && p[0][|p[0]| - 1] in p[0];
    if |p| > 1 {
      JoinEnds(p[1..]);
    }
  }

  lemma {:induction false} JoinAppend(p: Path, n: Name)
    requires p != []
    ensures Join(p + [n]) == Join(p) + "/" + n
  {
    if |p| > 1 {
      assert (p + [n])[1..] == p[1..] + [n];
      JoinAppend(p[1..], n);
      assert Join(p + [n]) == p[0] + "/" + (Join(p[1..]) + "/" + n);
    }
  }

  /** Code-point order on strings, strict: what sorted() uses. */
  predicate Less(a: string, b: string) {
    b != "" && (a == "" || a[0] < b[0] || (a[0] == b[0] && Less(a[1..], b[1..])))
  }

  /** The order is decided where the two first differ, or by their ends. */
  lemma {:induction false} LessExactly(a: string, b: string)
    ensures Less(a, b) <==>
      exists i :: 0 <= i <= |a| && i < |b| && a[..i] == b[..i] && (i == |a| || a[i] < b[i])
  {
    if b != "" && a != "" && a[0] == b[0] {
      LessExactly(a[1..], b[1..]);
      if i :| 0 <= i <= |a[1..]| && i < |b[1..]| && a[1..][..i] == b[1..][..i] && (i == |a[1..]| || a[1..][i] < b[1..][i]) {
        assert a[..i + 1] == [a[0]] + a[1..][..i] && b[..i + 1] == [b[0]] + b[1..][..i];
      }
      if i :| 0 <= i <= |a| && i < |b| && a[..i] == b[..i] && (i == |a| || a[i] < b[i]) {
        assert i > 0 && a[1..][..i - 1] == a[..i][1..] && b[1..][..i - 1] == b[..i][1..];
      }
    } else if b != "" {
      assert a[..0] == b[..0];
      if i :| 0 <= i <= |a| && i < |b| && a[..i] == b[..i] && (i == |a| || a[i] < b[i]) {
        assert i > 0 ==> a[..i][0] == b[..i][0];
      }
    }
  }

  lemma {:induction false} LessIsTransitive(a: string, b: string, c: string)
    requires Less(a, b) && Less(b, c)
    ensures Less(a, c)
  {
    if a != "" && a[0] == b[0] == c[0] {
      LessIsTransitive(a[1..], b[1..], c[1..]);
    }
  }

  lemma {:induction false} LessIsTotal(a: string, b: string)
    ensures Less(a, b) || a == b || Less(b, a)
    ensures !(Less(a, b) && Less(b, a))
    ensures !Less(a, a)
  {
    if a != "" && b != "" && a[0] == b[0] {
      LessIsTotal(a[1..], b[1..]);
      assert a == [a[0]] + a[1..] && b == [b[0]] + b[1..];
    }
    if a != "" {
      LessIsTotal(a[1..], a[1..]);
    }
  }

  lemma {:induction false} ExtensionIsGreater(a: string, b: string)
    requires b != ""
    ensures Less(a, a + b)
  {
    if a != "" {
      ExtensionIsGreater(a[1..], b);
      assert (a + b)[1..] == a[1..] + b;
    }
  }

  /** A directory's spelling sorts before everything beneath it. */
  lemma {:induction false} ParentSortsFirst(p: Path, q: Path)
    requires p != [] && p < q
    ensures Less(Join(p), Join(q))
    decreases |q|
  {
    var up := Parent(q);
    assert q == up + [Leaf(q)];
    JoinAppend(up, Leaf(q));
    ExtensionIsGreater(Join(up), "/" + Leaf(q));
    assert Join(up) + "/" + Leaf(q) == Join(up) + ("/" + Leaf(q));
    if p != up {
      ParentSortsFirst(p, up);
      LessIsTransitive(Join(p), Join(up), Join(q));
    }
  }

  predicate IsAlnum(c: char) {
    ('a' <= c <= 'z') || ('A' <= c <= 'Z') || ('0' <= c <= '9')
  }

  /** names.is_valid_name */
  predicate IsContainerName(n: string) {
    n != "" && IsAlnum(n[0]) && forall i :: 0 <= i < |n| ==> IsAlnum(n[i]) || n[i] in "_.-"
  }
}
