/** guestfile._resolve: the third resolver. It walks down descriptors, goes
    up through "..", keeps at most two of them open, and follows the final
    component too. */
module GuestFile {
  import opened Names
  import opened Trees
  import opened Resolver
  import opened Kernels
  import opened Shared
  import Removal

  const MAX_PATH_COMPONENTS := 4096

  datatype Found = NotFound | FoundAt(dir: Path, leaf: Name)

  predicate OnlyDots(pending: seq<string>) {
    forall i :: 0 <= i < |pending| ==> pending[i] == "" || pending[i] == "."
  }

  /** The walk on paths: trail is where the current descriptor is. */
  function Walk(t: FsTree, trail: Path, pending: seq<string>, hops: nat, steps: nat): Found
    requires steps <= MAX_PATH_COMPONENTS
    decreases MAX_PATH_COMPONENTS - steps
  {
    if pending == [] || steps == MAX_PATH_COMPONENTS then NotFound
    else
      var part, rest := pending[0], pending[1..];
      if part == "" || part == "." then Walk(t, trail, rest, hops, steps + 1)
      else if part == ".." then Walk(t, Up(trail), rest, hops, steps + 1)
      else if trail + [part] !in t then NotFound
      else match t[trail + [part]]
        case Link(target) =>
          if hops == MAX_HOPS then NotFound
          else Walk(t, if IsAbsolute(target) then [] else trail, Split(target) + rest, hops + 1, steps + 1)
        case Dir(_) => Walk(t, trail + [part], rest, hops, steps + 1)
        case _ => if OnlyDots(rest) then FoundAt(trail, part) else NotFound
  }

  lemma {:induction false} DotsResolveToNothing(t: FsTree, resolved: Path, pending: seq<string>, budget: nat)
    requires OnlyDots(pending)
    ensures ResolveFrom(t, resolved, pending, budget) == At(resolved, budget)
    decreases |pending|
  {
    if pending != [] {
      DotsResolveToNothing(t, resolved, pending[1..], budget);
    }
  }

  /** Whenever this walk finds an entry, it is the one the other two
      resolvers name, and it is neither a directory nor a link. */
  lemma {:induction false} WalkAgreesWithResolve(t: FsTree, trail: Path, pending: seq<string>, hops: nat, steps: nat)
    requires steps <= MAX_PATH_COMPONENTS && hops <= MAX_HOPS
    ensures var f := Walk(t, trail, pending, hops, steps);
      f.FoundAt? ==>
        var a := ResolveFrom(t, trail, pending, MAX_HOPS - hops);
        && a.At? && a.path == f.dir + [f.leaf]
        && a.path in t && !t[a.path].Dir? && !t[a.path].Link?
    decreases MAX_PATH_COMPONENTS - steps
  {
    if pending != [] && steps < MAX_PATH_COMPONENTS {
      var part, rest := pending[0], pending[1..];
      if part == "" || part == "." {
        WalkAgreesWithResolve(t, trail, rest, hops, steps + 1);
      } else if part == ".." {
        WalkAgreesWithResolve(t, Up(trail), rest, hops, steps + 1);
      } else if trail + [part] in t {
        match t[trail + [part]]
        case Link(target) =>
          if hops < MAX_HOPS {
            WalkAgreesWithResolve(t, if IsAbsolute(target) then [] else trail, Split(target) + rest, hops + 1, steps + 1);
          }
        case Dir(_) => WalkAgreesWithResolve(t, trail + [part], rest, hops, steps + 1);
        case _ =>
          if OnlyDots(rest) {
            DotsResolveToNothing(t, trail + [part], rest, MAX_HOPS - hops);
          }
      }
    }
  }

  // What the loop of the descriptor walk keeps.

  /** The trail records the name and the inode of every level. */
  ghost predicate TrailOf(t: FsTree, at: Path, trail: seq<(Name, nat)>)
    decreases |at|
  {
    && IsDir(t, at) && |at| == |trail|
    && (at != [] ==>
          && trail[|trail| - 1] == (Leaf(at), t[at].dir.ino)
          && TrailOf(t, Up(at), trail[..|trail| - 1]))
  }

  lemma TrailUp(t: FsTree, at: Path, trail: seq<(Name, nat)>)
    requires TrailOf(t, at, trail) && at != []
    ensures IsDir(t, Up(at))
    ensures t[Up(at)].dir.ino == if |trail| > 1 then trail[|trail| - 2].1 else t[[]].dir.ino
  {
    assert TrailOf(t, Up(at), trail[..|trail| - 1]);
  }

  lemma TrailDown(t: FsTree, at: Path, trail: seq<(Name, nat)>, part: Name)
    requires TrailOf(t, at, trail) && IsDir(t, at + [part])
    ensures TrailOf(t, at + [part], trail + [(part, t[at + [part]].dir.ino)])
  {
    var down := trail + [(part, t[at + [part]].dir.ino)];
    assert Up(at + [part]) == at && down[..|down| - 1] == trail;
  }

  /** The inode the walk is on. */
  function Here(top: nat, trail: seq<(Name, nat)>): nat {
    if trail == [] then top else trail[|trail| - 1].1
  }

  /** Exactly two descriptors beyond those the caller had, or one at the top. */
  ghost predicate Holding(fds: map<nat, nat>, before: map<nat, nat>, root: nat, cur: nat, top: nat, trail: seq<(Name, nat)>) {
    && root !in before && cur !in before && (cur == root <==> trail == [])
    && fds == before[root := top][cur := Here(top, trail)]
  }

  /** Every level of the trail was opened by the walk, in one it was on. */
  ghost predicate Opened(acts: seq<Act>, trail: seq<(Name, nat)>) {
    forall i :: 0 <= i < |trail| ==> WentInto(acts, trail[i].1)
  }

  /** Nobody else does anything, no call fails, and the caller's descriptor
      is on the guest's root. */
  ghost predicate Undisturbed(shared: SharedTree) {
    shared.others == [] && shared.o == Removal.NONE && PathOf(shared.start.tree, shared.top) == Some([])
  }

  ghost predicate Kept(shared: SharedTree, before: map<nat, nat>, root: nat, cur: nat, at: Path, trail: seq<(Name, nat)>)
    reads shared, shared.k
  {
    && shared.Valid() && shared.root.None? && Opened(shared.acts, trail)
    && Holding(shared.k.fds, before, root, cur, shared.top, trail)
    && (Undisturbed(shared) ==> shared.k.fs == shared.start && TrailOf(shared.start.tree, at, trail))
  }

  lemma OpenedLater(acts: seq<Act>, acts': seq<Act>, trail: seq<(Name, nat)>)
    requires Opened(acts, trail) && forall ino :: WentInto(acts, ino) ==> WentInto(acts', ino)
    ensures Opened(acts', trail)
  {
  }

  lemma HoldingOpen(fds: map<nat, nat>, before: map<nat, nat>, root: nat, cur: nat, top: nat, trail: seq<(Name, nat)>)
    requires Holding(fds, before, root, cur, top, trail)
    ensures root in fds && fds[root] == top && cur in fds && fds[cur] == Here(top, trail)
    ensures root !in before && cur !in before && (cur == root <==> trail == [])
    ensures fds - {root, cur} == before
  {
  }

  lemma HoldingUp(fds: map<nat, nat>, before: map<nat, nat>, root: nat, cur: nat, top: nat, trail: seq<(Name, nat)>, n: nat)
    requires Holding(fds, before, root, cur, top, trail) && trail != [] && n !in fds
    ensures var up, here := trail[..|trail| - 1], Here(top, trail[..|trail| - 1]);
      && fds[n := here] - {n} == fds
      && (up == [] ==> Holding(fds - {cur}, before, root, root, top, up))
      && (up != [] ==> Holding(fds[n := here] - {cur}, before, root, n, top, up))
  {
  }

  lemma HereInTree(shared: SharedTree, before: map<nat, nat>, root: nat, cur: nat, at: Path, trail: seq<(Name, nat)>)
    requires Kept(shared, before, root, cur, at, trail) && Undisturbed(shared)
    ensures PathOf(shared.k.fs.tree, Here(shared.top, trail)) == Some(at)
    ensures trail != [] ==>
      && at != [] && IsDir(shared.k.fs.tree, Up(at))
      && Here(shared.top, trail[..|trail| - 1]) == shared.k.fs.tree[Up(at)].dir.ino
  {
    hide Holding, History, WentInto, Sane;
    assert Alone(shared.k.fs.tree, at);
    if trail != [] {
      TrailUp(shared.start.tree, at, trail);
    }
  }

  /** Open the level above through "..", and let go of this one, unless it is
      no longer the one the walk came down from. */
  method Ascend(shared: SharedTree, ghost before: map<nat, nat>, root: nat, cur: nat, ghost at: Path, trail: seq<(Name, nat)>)
    returns (ok: bool, next: nat)
    requires Kept(shared, before, root, cur, at, trail) && trail != []
    modifies shared, shared.k
    ensures if ok then Kept(shared, before, root, next, Up(at), trail[..|trail| - 1])
            else next == cur && Kept(shared, before, root, cur, at, trail)
    ensures Undisturbed(shared) ==> ok
  {
    hide History, ValidFs, WentInto, Sane, Holding;
    ghost var acts, fds, up := shared.acts, shared.k.fds, trail[..|trail| - 1];
    HoldingOpen(fds, before, root, cur, shared.top, trail);
    if Undisturbed(shared) {
      HereInTree(shared, before, root, cur, at, trail);
    }
    var want := Here(shared.k.fds[root], trail[..|trail| - 1]);
    var above := shared.OpenUp(cur);
    OpenedLater(acts, shared.acts, trail);
    if above.None? {
      return false, cur;
    }
    HoldingUp(fds, before, root, cur, shared.top, trail, above.value);
    if shared.k.fds[above.value] != want {
      shared.k.Close(above.value);
      assert shared.k.fds == fds;
      return false, cur;
    }
    shared.k.Close(cur);
    if |trail| == 1 {
      shared.k.Close(above.value);
      assert shared.k.fds == fds - {cur};
      next := root;
    } else {
      next := above.value;
    }
    ok := true;
  }

  lemma HoldingDown(fds: map<nat, nat>, before: map<nat, nat>, root: nat, cur: nat, top: nat, trail: seq<(Name, nat)>,
                    n: nat, part: Name, ino: nat)
    requires Holding(fds, before, root, cur, top, trail) && n !in fds
    ensures var all := fds[n := ino];
      Holding(if cur == root then all else all - {cur}, before, root, n, top, trail + [(part, ino)])
  {
    if cur != root {
      assert fds[n := ino] - {cur} == before[root := top][n := ino];
    }
  }

  /** Open a subdirectory, and let go of this level unless it is the root. */
  method Descend(shared: SharedTree, ghost before: map<nat, nat>, root: nat, cur: nat, ghost at: Path, trail: seq<(Name, nat)>,
                 part: Name)
    returns (ok: bool, next: nat)
    requires Kept(shared, before, root, cur, at, trail)
    modifies shared, shared.k
    ensures !ok ==> next == cur && Kept(shared, before, root, cur, at, trail)
    ensures ok ==> next in shared.k.fds && Kept(shared, before, root, next, at + [part], trail + [(part, shared.k.fds[next])])
    ensures Undisturbed(shared) && IsDir(shared.start.tree, at + [part]) ==> ok
  {
    hide History, ValidFs, WentInto, Sane, Holding;
    ghost var acts, fds := shared.acts, shared.k.fds;
    HoldingOpen(fds, before, root, cur, shared.top, trail);
    if Undisturbed(shared) {
      HereInTree(shared, before, root, cur, at, trail);
    }
    var nxt := shared.Open(cur, part);
    OpenedLater(acts, shared.acts, trail);
    if nxt.None? {
      return false, cur;
    }
    ok, next := true, nxt.value;
    HoldingDown(fds, before, root, cur, shared.top, trail, next, part, shared.k.fds[next]);
    if Undisturbed(shared) {
      TrailDown(shared.start.tree, at, trail, part);
    }
    if cur != root {
      shared.k.Close(cur);
    }
  }

  /** Back at the guest's root, as an absolute target asks for. */
  method Restart(shared: SharedTree, ghost before: map<nat, nat>, root: nat, cur: nat, ghost at: Path, ghost trail: seq<(Name, nat)>)
    requires Kept(shared, before, root, cur, at, trail)
    modifies shared.k`fds
    ensures Kept(shared, before, root, root, [], [])
  {
    assert Undisturbed(shared) ==> IsDir(shared.start.tree, []);
    if cur != root {
      shared.k.Close(cur);
    }
    assert shared.k.fds == before[root := shared.top];
  }

  /** The finally clause: nothing stays open when nothing was found. */
  method Abandon(shared: SharedTree, ghost before: map<nat, nat>, root: nat, cur: nat, ghost at: Path, ghost trail: seq<(Name, nat)>)
    requires Kept(shared, before, root, cur, at, trail)
    modifies shared.k`fds
    ensures shared.Valid() && shared.k.fds == before
  {
    if cur != root {
      shared.k.Close(cur);
    }
    shared.k.Close(root);
  }

  /** The entry of that name, if it can be a result. */
  ghost predicate Leads(s: Fs, ino: nat, leaf: Name) {
    var p := Place(s, ino, leaf);
    p.Some? && p.value in s.tree && !s.tree[p.value].Dir? && !s.tree[p.value].Link?
  }

  /** What one step of the walk makes of a component. */
  datatype Next = Lost | Ended(leaf: Name) | GoOn(cur: nat, trail: seq<(Name, nat)>, pending: seq<string>, hops: nat)

  /** Follow a symbolic link. */
  method Follow(shared: SharedTree, ghost before: map<nat, nat>, root: nat, cur: nat, ghost at: Path, trail: seq<(Name, nat)>,
                part: Name, rest: seq<string>, hops: nat, ghost steps: nat)
    returns (r: Next, ghost at': Path)
    requires Kept(shared, before, root, cur, at, trail) && hops <= MAX_HOPS && steps < MAX_PATH_COMPONENTS
    requires Undisturbed(shared) ==> IsLink(shared.k.fs.tree, at + [part]) && part != "" && part != "." && part != ".."
    modifies shared, shared.k
    ensures !r.Ended?
    ensures r.Lost? ==>
      && at' == at && Kept(shared, before, root, cur, at, trail)
      && (Undisturbed(shared) ==> Walk(shared.start.tree, at, [part] + rest, hops, steps) == NotFound)
    ensures r.GoOn? ==>
      && Kept(shared, before, root, r.cur, at', r.trail) && r.hops <= MAX_HOPS
      && (Undisturbed(shared) ==>
            Walk(shared.start.tree, at, [part] + rest, hops, steps) == Walk(shared.start.tree, at', r.pending, r.hops, steps + 1))
  {
    hide History, ValidFs, WentInto, Sane, Holding, TrailOf;
    at' := at;
    ghost var acts := shared.acts;
    assert ([part] + rest)[1..] == rest;
    if hops == MAX_HOPS {
      return Lost, at;
    }
    HoldingOpen(shared.k.fds, before, root, cur, shared.top, trail);
    if Undisturbed(shared) {
      HereInTree(shared, before, root, cur, at, trail);
    }
    var target := shared.ReadLink(cur, part);
    OpenedLater(acts, shared.acts, trail);
    if target.None? {
      return Lost, at;
    }
    if IsAbsolute(target.value) {
      Restart(shared, before, root, cur, at, trail);
      r, at' := GoOn(root, [], Split(target.value) + rest, hops + 1), [];
    } else {
      r := GoOn(cur, trail, Split(target.value) + rest, hops + 1);
    }
  }

  /** One component. */
  method Take(shared: SharedTree, ghost before: map<nat, nat>, root: nat, cur: nat, ghost at: Path, trail: seq<(Name, nat)>,
              pending: seq<string>, hops: nat, ghost steps: nat)
    returns (r: Next, ghost at': Path)
    requires Kept(shared, before, root, cur, at, trail) && pending != [] && hops <= MAX_HOPS && steps < MAX_PATH_COMPONENTS
    modifies shared, shared.k
    ensures !r.GoOn? ==> at' == at && Kept(shared, before, root, cur, at, trail)
    ensures r.Ended? ==> Leads(shared.k.fs, Here(shared.top, trail), r.leaf)
    ensures r.GoOn? ==> Kept(shared, before, root, r.cur, at', r.trail) && r.hops <= MAX_HOPS
    ensures Undisturbed(shared) ==>
      Walk(shared.start.tree, at, pending, hops, steps) ==
        if r.Lost? then NotFound
        else if r.Ended? then FoundAt(at, r.leaf)
        else Walk(shared.start.tree, at', r.pending, r.hops, steps + 1)
  {
    hide History, ValidFs, WentInto, Sane, Holding, TrailOf;
    var part, rest := pending[0], pending[1..];
    assert pending == [part] + rest;
    ghost var acts := shared.acts;
    at' := at;
    if part == "" || part == "." {
      return GoOn(cur, trail, rest, hops), at;
    }
    if part == ".." {
      AtRoot(shared, before, root, cur, at, trail);
      if trail == [] {
        return GoOn(cur, trail, rest, hops), at;
      }
      var ok, next := Ascend(shared, before, root, cur, at, trail);
      if ok {
        return GoOn(next, trail[..|trail| - 1], rest, hops), Up(at);
      }
      return Lost, at;
    }
    HoldingOpen(shared.k.fds, before, root, cur, shared.top, trail);
    if Undisturbed(shared) {
      HereInTree(shared, before, root, cur, at, trail);
    }
    var st := shared.Look(cur, part);
    OpenedLater(acts, shared.acts, trail);
    if !st.Found? {
      return Lost, at;
    }
    if st.node.Link? {
      r, at' := Follow(shared, before, root, cur, at, trail, part, rest, hops, steps);
    } else if st.node.Dir? {
      var ok, next := Descend(shared, before, root, cur, at, trail, part);
      if ok {
        return GoOn(next, trail + [(part, shared.k.fds[next])], rest, hops), at + [part];
      }
      return Lost, at;
    } else if OnlyDots(rest) {
      r := Ended(part);
    } else {
      r := Lost;
    }
  }

  lemma AtRoot(shared: SharedTree, before: map<nat, nat>, root: nat, cur: nat, at: Path, trail: seq<(Name, nat)>)
    requires Kept(shared, before, root, cur, at, trail)
    ensures Undisturbed(shared) ==> |at| == |trail|
  {
  }

  /** The descriptor walk. On success the caller is given the descriptors on
      the root and on the directory holding the leaf (one and the same at
      the top level); on failure every descriptor taken has been closed.
      Whatever others move meanwhile, that directory is the root or one the
      walk opened inside another it was in, and when nobody moves anything
      it is the one the walk on paths leads to. */
  method ResolveAt(shared: SharedTree, rootfs: nat, guestPath: string)
    returns (found: bool, root: nat, cur: nat, leaf: Name)
    requires shared.Valid() && shared.acts == [] && shared.root.None?
    requires rootfs in shared.k.fds && shared.k.fds[rootfs] == shared.top
    modifies shared, shared.k
    ensures shared.Valid()
    ensures !found ==> shared.k.fds == old(shared.k.fds)
    ensures found ==>
      && root !in old(shared.k.fds) && cur !in old(shared.k.fds) && cur in shared.k.fds
      && shared.k.fds == old(shared.k.fds)[root := shared.top][cur := shared.k.fds[cur]]
      && (if cur == root then shared.k.fds[cur] == shared.top else WentInto(shared.acts, shared.k.fds[cur]))
      && Leads(shared.k.fs, shared.k.fds[cur], leaf)
    ensures Undisturbed(shared) ==>
      var f := Walk(shared.start.tree, [], Split(guestPath), 0, 0);
      && (found <==> f.FoundAt?)
      && (found ==> leaf == f.leaf && PathOf(shared.k.fs.tree, shared.k.fds[cur]) == Some(f.dir))
  {
    hide History, ValidFs, WentInto, Sane, Holding, TrailOf, Leads;
    ghost var before := shared.k.fds;
    root := shared.k.Reopen(rootfs);
    cur, leaf, found := root, "", false;
    var trail: seq<(Name, nat)> := [];
    ghost var at: Path := [];
    AtStart(shared, before, root);
    var pending := Split(guestPath);
    var hops, steps := 0, 0;
    while pending != [] && steps < MAX_PATH_COMPONENTS
      invariant 0 <= hops <= MAX_HOPS && 0 <= steps <= MAX_PATH_COMPONENTS
      invariant Kept(shared, before, root, cur, at, trail)
      invariant Undisturbed(shared) ==>
        Walk(shared.start.tree, [], Split(guestPath), 0, 0) == Walk(shared.start.tree, at, pending, hops, steps)
      decreases MAX_PATH_COMPONENTS - steps
    {
      var r, at' := Take(shared, before, root, cur, at, trail, pending, hops, steps);
      steps := steps + 1;
      if r.Lost? {
        Abandon(shared, before, root, cur, at, trail);
        return;
      }
      if r.Ended? {
        AtEnd(shared, before, root, cur, at, trail);
        return true, root, cur, r.leaf;
      }
      cur, trail, pending, hops, at := r.cur, r.trail, r.pending, r.hops, at';
    }
    Abandon(shared, before, root, cur, at, trail);
  }

  lemma AtStart(shared: SharedTree, before: map<nat, nat>, root: nat)
    requires shared.Valid() && shared.acts == [] && shared.root.None?
    requires root !in before && shared.k.fds == before[root := shared.top]
    ensures Kept(shared, before, root, root, [], [])
  {
  }

  lemma AtEnd(shared: SharedTree, before: map<nat, nat>, root: nat, cur: nat, at: Path, trail: seq<(Name, nat)>)
    requires Kept(shared, before, root, cur, at, trail)
    ensures root !in before && cur !in before && cur in shared.k.fds && shared.k.fds[cur] == Here(shared.top, trail)
    ensures shared.k.fds == before[root := shared.top][cur := shared.k.fds[cur]]
    ensures if cur == root then shared.k.fds[cur] == shared.top else WentInto(shared.acts, shared.k.fds[cur])
    ensures Undisturbed(shared) ==> PathOf(shared.k.fs.tree, shared.k.fds[cur]) == Some(at)
  {
    if Undisturbed(shared) {
      HereInTree(shared, before, root, cur, at, trail);
    }
  }

  /** What a successful lookup opened is exactly where the other resolvers
      say the path leads. */
  lemma LookupIsResolution(t: FsTree, guestPath: string)
    ensures var f := Walk(t, [], Split(guestPath), 0, 0);
      f.FoundAt? ==>
        var a := Resolve(t, Split(guestPath));
        a.At? && a.path == f.dir + [f.leaf] && a.path in t && !t[a.path].Dir? && !t[a.path].Link?
  {
    WalkAgreesWithResolve(t, [], Split(guestPath), 0, 0);
  }

  // -------------------------------------------------------------------------
  // What the lookup does find
  // -------------------------------------------------------------------------

  /** No ".." comes after a name. */
  predicate ClimbsFirst(parts: seq<string>) {
    forall i, j :: 0 <= i < j < |parts| && parts[j] == ".." ==> parts[i] in {"", ".", ".."}
  }

  /** Every link of the tree climbs first and then goes down, in at most so
      many components. */
  ghost predicate PlainLinks(t: FsTree, most: nat) {
    forall p :: IsLink(t, p) ==> ClimbsFirst(Split(t[p].target)) && |Split(t[p].target)| <= most
  }

  lemma ClimbsFirstRest(parts: seq<string>)
    requires ClimbsFirst(parts) && parts != []
    ensures ClimbsFirst(parts[1..]) && (parts[0] !in {"", ".", ".."} ==> ".." !in parts[1..])
  {
  }

  lemma ClimbsFirstThenOn(a: seq<string>, b: seq<string>)
    requires ClimbsFirst(a) && ".." !in b
    ensures ClimbsFirst(a + b)
  {
  }

  /** What is missing, or no directory, leads no further. */
  lemma {:induction false} NothingBeneath(t: FsTree, at: Path, pending: seq<string>, budget: nat)
    requires WellFormed(t) && !IsDir(t, at) && ".." !in pending
    ensures var a := ResolveFrom(t, at, pending, budget);
      a.At? && a.path in t ==> a.path == at && OnlyDots(pending)
    decreases |pending|
  {
    if pending != [] {
      var part, rest := pending[0], pending[1..];
      if part == "" || part == "." {
        NothingBeneath(t, at, rest, budget);
      } else {
        assert Parent(at + [part]) == at;
        assert at + [part] in t ==> Rooted(t, at + [part]);
        NothingBeneath(t, at + [part], rest, budget);
      }
    }
  }

  /** Where climbing comes first, whatever the reference answer names, if it
      is there and neither directory nor link, the walk finds, as long as the
      components do not run out. */
  lemma {:induction false} ResolvedIsFound(t: FsTree, trail: Path, pending: seq<string>, hops: nat, steps: nat, most: nat)
    requires WellFormed(t) && IsDir(t, trail) && PlainLinks(t, most) && ClimbsFirst(pending) && hops <= MAX_HOPS
    requires steps + |pending| + (MAX_HOPS - hops) * most <= MAX_PATH_COMPONENTS
    ensures var a := ResolveFrom(t, trail, pending, MAX_HOPS - hops);
      a.At? && a.path in t && !t[a.path].Dir? && !t[a.path].Link? ==>
        a.path != [] && Walk(t, trail, pending, hops, steps) == FoundAt(Parent(a.path), Leaf(a.path))
    decreases MAX_PATH_COMPONENTS - steps, |pending|
  {
    if pending != [] {
      var part, rest := pending[0], pending[1..];
      assert (MAX_HOPS - hops) * most >= 0;
      ClimbsFirstRest(pending);
      if part == "" || part == "." {
        ResolvedIsFound(t, trail, rest, hops, steps + 1, most);
      } else if part == ".." {
        assert Rooted(t, trail);
        ResolvedIsFound(t, Up(trail), rest, hops, steps + 1, most);
      } else {
        var c := trail + [part];
        if IsLink(t, c) && hops < MAX_HOPS {
          var target := t[c].target;
          ClimbsFirstThenOn(Split(target), rest);
          assert (MAX_HOPS - hops) * most == (MAX_HOPS - hops - 1) * most + most;
          ResolvedIsFound(t, if IsAbsolute(target) then [] else trail, Split(target) + rest, hops + 1, steps + 1, most);
        } else if IsDir(t, c) {
          ResolvedIsFound(t, c, rest, hops, steps + 1, most);
        } else if !IsLink(t, c) {
          NothingBeneath(t, c, rest, MAX_HOPS - hops);
        }
      }
    }
  }

  /** The lookup finds an entry exactly where the other resolvers say the path
      leads, and exactly if something is there that is neither directory nor
      link: in a guest whose links climb before they go down, for a path that
      does too, and short enough. */
  lemma LookupFindsIff(t: FsTree, guestPath: string, most: nat)
    requires WellFormed(t) && PlainLinks(t, most) && ClimbsFirst(Split(guestPath))
    requires |Split(guestPath)| + 40 * most <= 4096
    ensures var f, a := Walk(t, [], Split(guestPath), 0, 0), Resolve(t, Split(guestPath));
      && (f.FoundAt? <==> a.At? && a.path in t && !t[a.path].Dir? && !t[a.path].Link?)
      && (f.FoundAt? ==> a.path == f.dir + [f.leaf])
  {
    LookupIsResolution(t, guestPath);
    ResolvedIsFound(t, [], Split(guestPath), 0, 0, most);
  }

  /** Without climbing first it need not: ".." leads back from what is not
      there on paths, and nowhere on descriptors. */
  lemma MissingIsNotClimbedOutOf(t: FsTree, missing: Name, n: Name)
    requires ValidName(missing) && ValidName(n) && [missing] !in t && [n] in t && !t[[n]].Dir? && !t[[n]].Link?
    ensures Resolve(t, [missing, "..", n]) == At([n], MAX_HOPS) && Walk(t, [], [missing, "..", n], 0, 0).NotFound?
  {
    var parts := [missing, "..", n];
    assert [] + [missing] == [missing] && [] + [n] == [n] && Up([missing]) == [];
    ResolveOne(t, [], parts, MAX_HOPS);
    assert parts[1..] == ["..", n] && parts[1..][1..] == [n];
    ResolveOne(t, [missing], parts[1..], MAX_HOPS);
    assert [n][..1] == [n];
    LinkFreeResolvesToItself(t, [], [n], MAX_HOPS);
  }
}
