/** Resolving a guest path the way a chroot would: every symbolic link is
    expanded inside the root, ".." stops at the root, at most 40 links.
    ResolveFrom is the reference definition; SafeResolveParts is the
    extractor's loop over components and ResolveWithinRoot the path module's
    loop over joined strings. */
module Resolver {
  import opened Names
  import opened Trees

  const MAX_HOPS: nat := 40

  datatype Option<T> = None | Some(value: T)

  /** Where a path leads, and how many links may still be followed. */
  datatype Answer = TooManyLinks | At(path: Path, budget: nat)

  predicate IsAbsolute(target: string) {
    target != "" && target[0] == '/'
  }

  function Up(p: Path): Path {
    if p == [] then [] else Parent(p)
  }

  /** Consume the pending components, having resolved the rest to a
      link-free path. Missing entries are taken as they are spelled. */
  function ResolveFrom<D, F>(t: Tree<D, F>, resolved: Path, pending: seq<string>, budget: nat): Answer
    decreases budget, |pending|
  {
    if pending == [] then At(resolved, budget)
    else
      var comp, rest := pending[0], pending[1..];
      if comp == "" || comp == "." then ResolveFrom(t, resolved, rest, budget)
      else if comp == ".." then ResolveFrom(t, Up(resolved), rest, budget)
      else if !IsLink(t, resolved + [comp]) then ResolveFrom(t, resolved + [comp], rest, budget)
      else if budget == 0 then TooManyLinks
      else
        var target := t[resolved + [comp]].target;
        ResolveFrom(t, if IsAbsolute(target) then [] else resolved, Split(target) + rest, budget - 1)
  }

  function Resolve<D, F>(t: Tree<D, F>, parts: seq<string>): Answer {
    ResolveFrom(t, [], parts, MAX_HOPS)
  }

  // -------------------------------------------------------------------------
  // Properties of the reference definition
  // -------------------------------------------------------------------------

  /** No component a walk would have to interpret, and no prefix, the path
      itself included, that is a symbolic link. */
  ghost predicate LinkFree<D, F>(t: Tree<D, F>, p: Path) {
    && ValidPath(p)
    && forall i :: 0 < i <= |p| ==> !IsLink(t, p[..i])
  }

  ghost predicate Components(parts: seq<string>) {
    forall i :: 0 <= i < |parts| ==> '/' !in parts[i]
  }

  lemma LinkFreeSteps<D, F>(t: Tree<D, F>, p: Path, comp: string)
    requires LinkFree(t, p)
    ensures LinkFree(t, Up(p))
    ensures ValidName(comp) && !IsLink(t, p + [comp]) ==> LinkFree(t, p + [comp])
  {
    forall i | 0 < i <= |Up(p)|
      ensures !IsLink(t, Up(p)[..i])
    {
      assert Up(p)[..i] == p[..i];
    }
    if ValidName(comp) && !IsLink(t, p + [comp]) {
      var q := p + [comp];
      forall i | 0 < i <= |q|
        ensures !IsLink(t, q[..i])
      {
        assert q[..i] == if i == |q| then q else p[..i];
      }
    }
  }

  /** The answer needs no further interpretation: its components are plain
      names and no symbolic link is left on the way. Holds on every tree,
      link cycles included. */
  lemma {:induction false} ResolvedIsLinkFree<D, F>(t: Tree<D, F>, resolved: Path, pending: seq<string>, budget: nat)
    requires LinkFree(t, resolved) && Components(pending)
    ensures var a := ResolveFrom(t, resolved, pending, budget);
      a.At? ==> LinkFree(t, a.path) && a.budget <= budget
    decreases budget, |pending|
  {
    if pending != [] {
      var comp, rest := pending[0], pending[1..];
      LinkFreeSteps(t, resolved, comp);
      if comp == "" || comp == "." {
        ResolvedIsLinkFree(t, resolved, rest, budget);
      } else if comp == ".." {
        ResolvedIsLinkFree(t, Up(resolved), rest, budget);
      } else if !IsLink(t, resolved + [comp]) {
        ResolvedIsLinkFree(t, resolved + [comp], rest, budget);
      } else if budget > 0 {
        var target := t[resolved + [comp]].target;
        ResolvedIsLinkFree(t, if IsAbsolute(target) then [] else resolved, Split(target) + rest, budget - 1);
      }
    }
  }

  /** A link-free path resolves to itself and follows no link. */
  lemma {:induction false} LinkFreeResolvesToItself<D, F>(t: Tree<D, F>, done: Path, rest: Path, budget: nat)
    requires LinkFree(t, done + rest)
    ensures ResolveFrom(t, done, rest, budget) == At(done + rest, budget)
    decreases |rest|
  {
    if rest == [] {
      assert done + rest == done;
    } else {
      var next := done + [rest[0]];
      assert next + rest[1..] == done + rest;
      assert (done + rest)[..|next|] == next;
      assert (done + rest)[|done|] == rest[0];
      LinkFreeResolvesToItself(t, next, rest[1..], budget);
    }
  }

  /** Re-resolving an answer gives it back. */
  lemma ResolveIsIdempotent<D, F>(t: Tree<D, F>, parts: seq<string>)
    requires Components(parts) && Resolve(t, parts).At?
    ensures LinkFree(t, Resolve(t, parts).path)
    ensures Resolve(t, Resolve(t, parts).path) == At(Resolve(t, parts).path, MAX_HOPS)
  {
    ResolvedIsLinkFree(t, [], parts, MAX_HOPS);
    var p := Resolve(t, parts).path;
    assert [] + p == p;
    LinkFreeResolvesToItself(t, [], p, MAX_HOPS);
  }

  /** Resolving p ++ q is resolving p, then continuing with q on what is
      left of the budget. */
  lemma {:induction false} ResolveConcat<D, F>(t: Tree<D, F>, resolved: Path, p: seq<string>, q: seq<string>, budget: nat)
    ensures ResolveFrom(t, resolved, p + q, budget) ==
      var first := ResolveFrom(t, resolved, p, budget);
      if first.At? then ResolveFrom(t, first.path, q, first.budget) else TooManyLinks
    decreases budget, |p|
  {
    if p == [] {
      assert p + q == q;
    } else {
      var comp, rest := p[0], p[1..];
      assert (p + q)[0] == comp && (p + q)[1..] == rest + q;
      if comp == "" || comp == "." {
        ResolveConcat(t, resolved, rest, q, budget);
      } else if comp == ".." {
        ResolveConcat(t, Up(resolved), rest, q, budget);
      } else if !IsLink(t, resolved + [comp]) {
        ResolveConcat(t, resolved + [comp], rest, q, budget);
      } else if budget > 0 {
        var target := t[resolved + [comp]].target;
        assert Split(target) + (rest + q) == (Split(target) + rest) + q;
        ResolveConcat(t, if IsAbsolute(target) then [] else resolved, Split(target) + rest, q, budget - 1);
      }
    }
  }

  /** A link that leads to itself is never resolved, whatever the budget. */
  lemma {:induction false} SelfLinkIsRefused<D, F>(t: Tree<D, F>, name: Name, rest: seq<string>, budget: nat)
    requires ValidName(name) && IsLink(t, [name]) && t[[name]].target == name
    ensures ResolveFrom(t, [], [name] + rest, budget).TooManyLinks?
    decreases budget
  {
    assert [] + [name] == [name];
    assert ([name] + rest)[1..] == rest;
    SplitNoSlash(name);
    assert !IsAbsolute(name);
    if budget > 0 {
      SelfLinkIsRefused(t, name, rest, budget - 1);
    }
  }

  /** A target is absolute exactly when its first component is empty and not
      its only one. */
  lemma {:induction false} JoinedTarget(q: seq<string>)
    requires q != [] && Components(q)
    ensures Split(Join(q)) == q && Split("/" + Join(q)) == [""] + q
    ensures Join(q) != "" && Join(q)[0] == '/' <==> |q| > 1 && q[0] == ""
  {
    SplitOfJoin(q);
    SplitAtSlash("", Join(q));
    assert "" + "/" + Join(q) == "/" + Join(q);
    if q[0] != "" {
      assert q[0][0] in q[0] && Join(q)[0] == q[0][0];
    }
  }

  /** Where a link leads: a target spelled with a leading slash starts from
      the root again, any other from the directory the link is in. One link
      of the budget is spent, and what came after the link comes after its
      target. */
  lemma LinkLeadsOn<D, F>(t: Tree<D, F>, at: Path, n: Name, q: seq<string>, rest: seq<string>, budget: nat)
    requires ValidName(n) && IsLink(t, at + [n]) && q != [] && Components(q) && budget > 0
    ensures t[at + [n]].target == "/" + Join(q) ==>
      ResolveFrom(t, at, [n] + rest, budget) == ResolveFrom(t, [], q + rest, budget - 1)
    ensures t[at + [n]].target == Join(q) && q[0] != "" ==>
      ResolveFrom(t, at, [n] + rest, budget) == ResolveFrom(t, at, q + rest, budget - 1)
  {
    JoinedTarget(q);
    assert ([n] + rest)[0] == n && ([n] + rest)[1..] == rest;
    if t[at + [n]].target == "/" + Join(q) {
      assert ([""] + q + rest)[0] == "" && ([""] + q + rest)[1..] == q + rest;
    }
  }

  /** With more of the budget left, a path still leads where it did. */
  lemma {:induction false} BudgetToSpare<D, F>(t: Tree<D, F>, resolved: Path, pending: seq<string>, budget: nat, more: nat)
    ensures var a := ResolveFrom(t, resolved, pending, budget);
      a.At? ==> a.budget <= budget && ResolveFrom(t, resolved, pending, budget + more) == At(a.path, a.budget + more)
    ensures var b := ResolveFrom(t, resolved, pending, budget + more);
      b.At? && b.budget >= more ==> ResolveFrom(t, resolved, pending, budget).At?
    decreases budget, |pending|
  {
    if pending != [] {
      var comp, rest := pending[0], pending[1..];
      if comp == "" || comp == "." {
        BudgetToSpare(t, resolved, rest, budget, more);
      } else if comp == ".." {
        BudgetToSpare(t, Up(resolved), rest, budget, more);
      } else if !IsLink(t, resolved + [comp]) {
        BudgetToSpare(t, resolved + [comp], rest, budget, more);
      } else {
        var target := t[resolved + [comp]].target;
        var from := if IsAbsolute(target) then [] else resolved;
        if budget > 0 {
          BudgetToSpare(t, from, Split(target) + rest, budget - 1, more);
        } else if more > 0 {
          BudgetSpent(t, from, Split(target) + rest, more - 1);
        }
      }
    }
  }

  lemma {:induction false} BudgetSpent<D, F>(t: Tree<D, F>, resolved: Path, pending: seq<string>, budget: nat)
    ensures var a := ResolveFrom(t, resolved, pending, budget); a.At? ==> a.budget <= budget
    decreases budget, |pending|
  {
    if pending != [] {
      var comp, rest := pending[0], pending[1..];
      if comp == "" || comp == "." {
        BudgetSpent(t, resolved, rest, budget);
      } else if comp == ".." {
        BudgetSpent(t, Up(resolved), rest, budget);
      } else if !IsLink(t, resolved + [comp]) {
        BudgetSpent(t, resolved + [comp], rest, budget);
      } else if budget > 0 {
        var target := t[resolved + [comp]].target;
        BudgetSpent(t, if IsAbsolute(target) then [] else resolved, Split(target) + rest, budget - 1);
      }
    }
  }

  /** A path through a link leads where the path with the target in its
      place does, unless that needs the whole budget. */
  lemma PathThroughLink<D, F>(t: Tree<D, F>, at: Path, n: Name, q: seq<string>, rest: seq<string>)
    requires LinkFree(t, at) && ValidName(n) && IsLink(t, at + [n]) && q != [] && Components(q)
    requires t[at + [n]].target == "/" + Join(q) || (t[at + [n]].target == Join(q) && q[0] != "")
    ensures var direct := Resolve(t, if t[at + [n]].target == "/" + Join(q) then q + rest else at + q + rest);
      Resolve(t, at + [n] + rest) ==
        if direct.At? && direct.budget > 0 then At(direct.path, direct.budget - 1) else TooManyLinks
  {
    hide ResolveFrom, LinkFree, Components, Join;
    LeadingDirs(t, at, [n] + rest);
    assert at + [n] + rest == at + ([n] + rest);
    LinkLeadsOn(t, at, n, q, rest, MAX_HOPS);
    var from := if t[at + [n]].target == "/" + Join(q) then [] else at;
    LeadingDirs(t, at, q + rest);
    assert at + q + rest == at + (q + rest);
    BudgetToSpare(t, from, q + rest, MAX_HOPS - 1, 1);
  }

  lemma LeadingDirs<D, F>(t: Tree<D, F>, at: Path, rest: seq<string>)
    requires LinkFree(t, at)
    ensures Resolve(t, at + rest) == ResolveFrom(t, at, rest, MAX_HOPS)
  {
    assert [] + at == at;
    LinkFreeResolvesToItself(t, [], at, MAX_HOPS);
    ResolveConcat(t, [], at, rest, MAX_HOPS);
  }

  // -------------------------------------------------------------------------
  // tar_extract.safe_resolve_parts
  // -------------------------------------------------------------------------

  method SafeResolveParts<D, F>(t: Tree<D, F>, parts: seq<string>) returns (r: Option<Path>)
    ensures var a := Resolve(t, parts); r == if a.At? then Some(a.path) else None
  {
    var resolved: Path := [];
    var pending := parts;
    var linkBudget: int := 40;
    while pending != []
      invariant 0 <= linkBudget <= 40
      invariant Resolve(t, parts) == ResolveFrom(t, resolved, pending, linkBudget)
      decreases linkBudget, |pending|
    {
      var comp := pending[0];
      pending := pending[1..];
      if comp == "" || comp == "." {
        continue;
      }
      if comp == ".." {
        if resolved != [] {
          resolved := resolved[..|resolved| - 1];
        }
        continue;
      }
      var rel := resolved + [comp];
      if rel !in t {
        resolved := rel;
        continue;
      }
      if t[rel].Link? {
        linkBudget := linkBudget - 1;
        if linkBudget < 0 {
          return None;
        }
        var target := t[rel].target;
        if IsAbsolute(target) {
          resolved := [];
        }
        pending := Split(target) + pending;
      } else {
        resolved := rel;
      }
    }
    return Some(resolved);
  }

  // -------------------------------------------------------------------------
  // paths._resolve_within_root
  // -------------------------------------------------------------------------

  /** os.path.dirname of a path that has more than slashes before its last one. */
  function Dirname(s: string): string {
    if s == "" then ""
    else if s[|s| - 1] == '/' then StripRight(s)
    else Dirname(s[..|s| - 1])
  }

  lemma {:induction false} DirnameDropsLast(a: string, n: string)
    requires a != "" && a[|a| - 1] != '/' && '/' !in n
    ensures Dirname(a + "/" + n) == a
    decreases |n|
  {
    var s := a + "/" + n;
    if n == "" {
      assert s[|s| - 1] == '/' && s[..|s| - 1] == a;
      assert StripRight(s) == StripRight(a) == a;
    } else {
      assert s[|s| - 1] == n[|n| - 1];
      assert n[|n| - 1] in n;
      assert s[..|s| - 1] == a + "/" + n[..|n| - 1];
      DirnameDropsLast(a, n[..|n| - 1]);
    }
  }

  /** The host spelling of p below root. */
  function Spell(root: string, p: Path): string
    decreases |p|
  {
    if p == [] then root else Spell(root, Parent(p)) + "/" + Leaf(p)
  }

  ghost predicate RootSpelling(root: string) {
    root != "" && root[|root| - 1] != '/'
  }

  lemma {:induction false} SpellFacts(root: string, p: Path)
    requires RootSpelling(root) && ValidPath(p)
    ensures RootSpelling(Spell(root, p))
    ensures |Spell(root, p)| >= |root| && Spell(root, p)[..|root|] == root
    ensures p != [] ==> |Spell(root, p)| > |root| + 1 && Spell(root, p)[|root|..] == "/" + Join(p)
    decreases |p|
  {
    if p != [] {
      var up, n := Parent(p), Leaf(p);
      SpellFacts(root, up);
      assert n[|n| - 1] in n;
      assert p == up + [n];
      if up == [] {
        assert Join(p) == n;
        assert Spell(root, p)[|root|..] == "/" + n;
      } else {
        JoinAppend(up, n);
        assert Spell(root, p)[|root|..] == Spell(root, up)[|root|..] + "/" + n;
      }
    }
  }

  /** os.readlink on a path below root whose parents are no links. */
  function ReadLink<D, F>(t: Tree<D, F>, root: string, path: string): Option<string> {
    if |path| <= |root| then None
    else
      var p := Split(path[|root| + 1..]);
      if IsLink(t, p) then Some(t[p].target) else None
  }

  lemma ReadLinkOfSpelling<D, F>(t: Tree<D, F>, root: string, p: Path)
    requires RootSpelling(root) && ValidPath(p) && p != []
    ensures ReadLink(t, root, Spell(root, p)) == if IsLink(t, p) then Some(t[p].target) else None
  {
    SpellFacts(root, p);
    SplitOfJoin(p);
    assert Spell(root, p)[|root| + 1..] == Spell(root, p)[|root|..][1..] == Join(p);
  }

  /** One component, whatever it is. */
  lemma ResolveOne<D, F>(t: Tree<D, F>, at: Path, pending: seq<string>, budget: nat)
    requires pending != []
    ensures var part, rest := pending[0], pending[1..];
      ResolveFrom(t, at, pending, budget) ==
        if part == "" || part == "." then ResolveFrom(t, at, rest, budget)
        else if part == ".." then ResolveFrom(t, Up(at), rest, budget)
        else if !IsLink(t, at + [part]) then ResolveFrom(t, at + [part], rest, budget)
        else if budget == 0 then TooManyLinks
        else ResolveFrom(t, if IsAbsolute(t[at + [part]].target) then [] else at, Split(t[at + [part]].target) + rest, budget - 1)
  {
  }

  /** Going up from at, in host spellings. */
  lemma SpelledUp(root: string, at: Path)
    requires RootSpelling(root) && ValidPath(at)
    ensures Spell(root, []) == root && ValidPath(Up(at)) && (Spell(root, at) == root <==> at == [])
    ensures at != [] ==> Dirname(Spell(root, at)) == Spell(root, Up(at))
  {
    hide Dirname, Join, RootSpelling;
    SpellFacts(root, at);
    if at != [] {
      SpellFacts(root, Parent(at));
      SpelledParent(root, at);
    }
  }

  lemma SpelledParent(root: string, at: Path)
    requires at != [] && ValidName(Leaf(at)) && RootSpelling(Spell(root, Parent(at)))
    ensures Dirname(Spell(root, at)) == Spell(root, Parent(at))
  {
    hide Dirname;
    DirnameDropsLast(Spell(root, Parent(at)), Leaf(at));
  }

  /** Going down from at, and reading the link there may be. */
  lemma SpelledDown<D, F>(t: Tree<D, F>, root: string, at: Path, part: string)
    requires RootSpelling(root) && ValidPath(at) && ValidName(part)
    ensures Spell(root, at) + "/" + part == Spell(root, at + [part]) && ValidPath(at + [part])
    ensures ReadLink(t, root, Spell(root, at + [part])) == if IsLink(t, at + [part]) then Some(t[at + [part]].target) else None
  {
    assert Parent(at + [part]) == at;
    hide RootSpelling, ReadLink;
    ReadLinkOfSpelling(t, root, at + [part]);
  }

  method ResolveWithinRoot<D, F>(t: Tree<D, F>, root: string, relPath: string) returns (r: Option<string>)
    requires RootSpelling(root)
    ensures var a := Resolve(t, Split(relPath)); r == if a.At? then Some(Spell(root, a.path)) else None
  {
    var resolved := root;
    var pending := Split(relPath);
    var hops := 0;
    ghost var at: Path := [];
    SpelledUp(root, at);
    hide ResolveFrom, Dirname, Spell, ReadLink, Split;
    while pending != []
      invariant 0 <= hops <= MAX_HOPS
      invariant Components(pending) && ValidPath(at)
      invariant resolved == Spell(root, at)
      invariant ResolveFrom(t, [], Split(relPath), MAX_HOPS) == ResolveFrom(t, at, pending, MAX_HOPS - hops)
      decreases MAX_HOPS - hops, |pending|
    {
      var part := pending[0];
      ResolveOne(t, at, pending, MAX_HOPS - hops);
      pending := pending[1..];
      if part == "" || part == "." {
        continue;
      }
      if part == ".." {
        SpelledUp(root, at);
        if resolved != root {
          resolved := Dirname(resolved);
        }
        at := Up(at);
        continue;
      }
      SpelledDown(t, root, at, part);
      var candidate := resolved + "/" + part;
      var target := ReadLink(t, root, candidate);
      if target.None? {
        resolved := candidate;
        at := at + [part];
        continue;
      }
      hops := hops + 1;
      if hops > MAX_HOPS {
        return None;
      }
      if IsAbsolute(target.value) {
        resolved := root;
        at := [];
      }
      pending := Split(target.value) + pending;
    }
    ResolveNone(t, at, MAX_HOPS - hops);
    return Some(resolved);
  }

  lemma ResolveNone<D, F>(t: Tree<D, F>, at: Path, budget: nat)
    ensures ResolveFrom(t, at, [], budget) == At(at, budget)
  {
  }

  /** Both resolvers, given a path through a link: the answer is the one for
      the path with the target in the link's place, or none. */
  method LinkIsFollowed<D, F>(t: Tree<D, F>, root: string, at: Path, n: Name, q: seq<string>, rest: seq<string>)
    returns (parts: Option<Path>, path: Option<string>)
    requires RootSpelling(root) && LinkFree(t, at) && ValidName(n) && IsLink(t, at + [n])
    requires q != [] && Components(q) && Components(rest)
    requires t[at + [n]].target == "/" + Join(q) || (t[at + [n]].target == Join(q) && q[0] != "")
    ensures var direct := Resolve(t, if t[at + [n]].target == "/" + Join(q) then q + rest else at + q + rest);
      if direct.At? && direct.budget > 0 then parts == Some(direct.path) && path == Some(Spell(root, direct.path))
      else parts.None? && path.None?
  {
    PathThroughLink(t, at, n, q, rest);
    var through := at + [n] + rest;
    SplitOfJoin(through);
    parts := SafeResolveParts(t, through);
    path := ResolveWithinRoot(t, root, Join(through));
  }

  /** The two resolvers accept the same inputs, and answer the same place. */
  method ResolversAgree<D, F>(t: Tree<D, F>, root: string, relPath: string)
    returns (parts: Option<Path>, path: Option<string>)
    requires RootSpelling(root)
    ensures parts.None? <==> path.None?
    ensures parts.Some? ==> path.value == Spell(root, parts.value)
  {
    parts := SafeResolveParts(t, Split(relPath));
    path := ResolveWithinRoot(t, root, relPath);
  }
}
