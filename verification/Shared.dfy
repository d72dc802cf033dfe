/** A tree that other processes change while one walk removes things from
    it. Before each call of the walk they may do anything that leaves a valid
    tree behind. What the walk itself does is recorded, so that it can be
    said which of the changes were its own. */
module Shared {
  import opened Names
  import opened Trees
  import opened Resolver
  import opened Walks
  import opened Kernels
  import opened Removal

  /** One thing that happened: others changed the tree, or the walk opened
      the directory called name in the directory up, or removed a name. */
  datatype Act =
    | Others(fs: Fs)
    | Enter(up: nat, name: Name, ino: nat)
    | Unlink(up: nat, name: Name)
    | Rmdir(up: nat, name: Name)

  ghost function Place(s: Fs, up: nat, name: Name): Option<Path> {
    var d := PathOf(s.tree, up);
    if d.Some? then Some(d.value + [name]) else None
  }

  ghost function Removing(s: Fs, up: nat, name: Name): Fs {
    var p := Place(s, up, name);
    if p.Some? then Removed(s, p.value) else s
  }

  ghost function Step(s: Fs, a: Act): Fs {
    match a
    case Others(fs) => fs
    case Enter(_, _, _) => s
    case Unlink(up, name) => Removing(s, up, name)
    case Rmdir(up, name) => Removing(s, up, name)
  }

  ghost function After(s: Fs, acts: seq<Act>): Fs {
    if acts == [] then s else Step(After(s, acts[..|acts| - 1]), acts[|acts| - 1])
  }

  /** The directories the walk has opened. */
  ghost predicate WentInto(acts: seq<Act>, ino: nat) {
    exists i :: 0 <= i < |acts| && acts[i].Enter? && acts[i].ino == ino
  }

  /** What the walk was called on: one entry of the caller's directory, or
      any of them. */
  predicate Asked(top: nat, root: Option<Name>, up: nat, name: Name) {
    up == top && (root.None? || root.value == name)
  }

  /** That, and the entries of directories it has opened. */
  ghost predicate Reach(acts: seq<Act>, top: nat, root: Option<Name>, up: nat, name: Name) {
    Asked(top, root, up, name) || WentInto(acts, up)
  }

  /** Only a directory is entered, only something that is no directory is
      unlinked, and only an empty directory is removed; all of it by a name
      within reach. */
  ghost predicate Permitted(s: Fs, acts: seq<Act>, top: nat, root: Option<Name>, a: Act) {
    match a
    case Others(fs) => ValidFs(fs)
    case Enter(up, name, ino) =>
      var p := Place(s, up, name);
      Reach(acts, top, root, up, name) && p.Some? && IsDir(s.tree, p.value) && s.tree[p.value].dir.ino == ino
    case Unlink(up, name) =>
      var p := Place(s, up, name);
      Reach(acts, top, root, up, name) && p.Some? && p.value in s.tree && !s.tree[p.value].Dir?
    case Rmdir(up, name) =>
      var p := Place(s, up, name);
      Reach(acts, top, root, up, name) && p.Some? && IsDir(s.tree, p.value) && ChildNames(s.tree, p.value) == {}
  }

  ghost predicate Legal(s: Fs, acts: seq<Act>, top: nat, root: Option<Name>) {
    acts != [] ==>
      var before := acts[..|acts| - 1];
      Legal(s, before, top, root) && Permitted(After(s, before), before, top, root, acts[|acts| - 1])
  }

  /** How often others have acted. */
  ghost function Turns(acts: seq<Act>): nat {
    if acts == [] then 0 else Turns(acts[..|acts| - 1]) + if acts[|acts| - 1].Others? then 1 else 0
  }

  /** What others did is what they were going to do, in that order. */
  ghost predicate Scripted(s: Fs, acts: seq<Act>, others: seq<Fs -> Fs>) {
    acts != [] ==>
      var before, a := acts[..|acts| - 1], acts[|acts| - 1];
      && Scripted(s, before, others)
      && (a.Others? ==> Turns(before) < |others| && a.fs == others[Turns(before)](After(s, before)))
  }

  /** The names the walk has removed, in order. */
  ghost function Removals(acts: seq<Act>): seq<Name> {
    if acts == [] then [] else
      var a := acts[|acts| - 1];
      Removals(acts[..|acts| - 1]) + if a.Unlink? || a.Rmdir? then [a.name] else []
  }

  /** The record accounts for every change since the start. */
  ghost predicate History(start: Fs, acts: seq<Act>, top: nat, root: Option<Name>, others: seq<Fs -> Fs>, turn: nat, now: Fs) {
    && Legal(start, acts, top, root) && After(start, acts) == now
    && Scripted(start, acts, others) && Turns(acts) == turn
  }

  lemma {:induction false} LegalIsValid(s: Fs, acts: seq<Act>, top: nat, root: Option<Name>)
    requires ValidFs(s) && Legal(s, acts, top, root)
    ensures ValidFs(After(s, acts))
  {
    if acts != [] {
      var before, a := acts[..|acts| - 1], acts[|acts| - 1];
      LegalIsValid(s, before, top, root);
      var p := if a.Unlink? || a.Rmdir? then Place(After(s, before), a.up, a.name) else None;
      if p.Some? {
        RemovedIsValid(After(s, before), p.value);
      }
    }
  }

  /** An act of the walk takes away the entry it names and no other. */
  lemma OneEntryGoes(s: Fs, acts: seq<Act>, top: nat, root: Option<Name>, a: Act, q: Path)
    requires ValidFs(s) && Permitted(s, acts, top, root, a) && !a.Others?
    requires q in s.tree && Place(s, a.up, a.name) != Some(q)
    ensures q in Step(s, a).tree && Step(s, a).tree[q] == s.tree[q]
  {
    if !a.Enter? {
      var p := Place(s, a.up, a.name).value;
      if p <= q {
        assert |p| == |q| ==> p == q;
        if a.Unlink? {
          AncestorsAreDirs(s.tree, p, q);
        } else {
          var c := q[..|p| + 1];
          if c != q {
            AncestorsAreDirs(s.tree, c, q);
          }
          assert c == p + [q[|p|]];
          ChildNamesExact(s.tree, p, q[|p|]);
        }
      }
    }
  }

  /** The safe directories lie in safe ones only, and are not what the walk
      was called on. */
  ghost predicate Walled(s: Fs, top: nat, root: Option<Name>, safe: iset<nat>) {
    forall p :: IsDir(s.tree, p) && p != [] && s.tree[p].dir.ino in safe && IsDir(s.tree, Parent(p)) ==>
      var up := s.tree[Parent(p)].dir.ino;
      up in safe && !Asked(top, root, up, Leaf(p))
  }

  /** As long as nobody moves a directory of some set out of it, or to where
      the walk was called, the walk enters none of them, whatever else is
      moved where; and it removes from them only what it was called on. The
      caller's directory is one of the set unless all in it is asked for. */
  lemma {:induction false} OutsideIsUntouched(s: Fs, acts: seq<Act>, top: nat, root: Option<Name>, safe: iset<nat>)
    requires Legal(s, acts, top, root) && (top in safe <==> root.Some?)
    requires forall i :: 0 <= i <= |acts| ==> Walled(After(s, acts[..i]), top, root, safe)
    ensures forall ino :: WentInto(acts, ino) ==> ino !in safe
    ensures forall i :: 0 <= i < |acts| && !acts[i].Others? && acts[i].up in safe ==>
      Asked(top, root, acts[i].up, acts[i].name)
  {
    if acts != [] {
      var before, a := acts[..|acts| - 1], acts[|acts| - 1];
      forall i | 0 <= i <= |before|
        ensures Walled(After(s, before[..i]), top, root, safe)
      {
        assert before[..i] == acts[..i];
      }
      OutsideIsUntouched(s, before, top, root, safe);
      assert Walled(After(s, before), top, root, safe) by {
        assert before == before[..|before|];
      }
      forall ino | WentInto(acts, ino)
        ensures ino !in safe
      {
        var i :| 0 <= i < |acts| && acts[i].Enter? && acts[i].ino == ino;
        if i < |before| {
          assert before[i] == acts[i];
          assert WentInto(before, ino);
        } else {
          var p := Place(After(s, before), a.up, a.name).value;
          assert Parent(p) == PathOf(After(s, before).tree, a.up).value && Leaf(p) == a.name;
        }
      }
      forall i | 0 <= i < |acts| && !acts[i].Others? && acts[i].up in safe
        ensures Asked(top, root, acts[i].up, acts[i].name)
      {
        if i < |before| {
          assert before[i] == acts[i];
        }
      }
    }
  }

  lemma PlaceIsIn(s: Fs, up: nat, name: Name)
    ensures forall q :: q != [] && Place(s, up, name) == Some(q) ==> PathOf(s.tree, up) == Some(Parent(q)) && Leaf(q) == name
  {
  }

  /** So an entry of a safe directory, other than that one, is still there,
      unchanged, after whatever the walk does next. */
  lemma SafeEntriesStay(s: Fs, acts: seq<Act>, top: nat, root: Option<Name>, safe: iset<nat>, i: nat, q: Path)
    requires i < |acts| && !acts[i].Others? && ValidFs(s) && Legal(s, acts[..i + 1], top, root)
    requires top in safe <==> root.Some?
    requires forall j :: 0 <= j <= i + 1 ==> Walled(After(s, acts[..j]), top, root, safe)
    requires var t := After(s, acts[..i]).tree;
      && q in t && q != [] && IsDir(t, Parent(q)) && t[Parent(q)].dir.ino in safe
      && !Asked(top, root, t[Parent(q)].dir.ino, Leaf(q))
    ensures var t, t' := After(s, acts[..i]).tree, After(s, acts[..i + 1]).tree;
      q in t' && t'[q] == t[q]
  {
    var upto, a := acts[..i + 1], acts[i];
    assert upto[..i] == acts[..i] && upto[i] == a;
    forall j | 0 <= j <= |upto|
      ensures Walled(After(s, upto[..j]), top, root, safe)
    {
      assert upto[..j] == acts[..j];
    }
    OutsideIsUntouched(s, upto, top, root, safe);
    LegalIsValid(s, acts[..i], top, root);
    var now := After(s, acts[..i]);
    PlaceIsIn(now, a.up, a.name);
    OneEntryGoes(now, acts[..i], top, root, a, q);
  }

  lemma WentIntoStays(acts: seq<Act>, a: Act, ino: nat)
    ensures WentInto(acts, ino) ==> WentInto(acts + [a], ino)
    ensures a.Enter? ==> WentInto(acts + [a], a.ino)
  {
    var acts' := acts + [a];
    assert acts'[|acts|] == a;
    if WentInto(acts, ino) {
      var i :| 0 <= i < |acts| && acts[i].Enter? && acts[i].ino == ino;
      assert acts'[i] == acts[i];
    }
  }

  lemma OneMoreAct(start: Fs, acts: seq<Act>, top: nat, root: Option<Name>, others: seq<Fs -> Fs>, turn: nat, now: Fs, a: Act)
    requires History(start, acts, top, root, others, turn, now) && Permitted(now, acts, top, root, a)
    requires a.Others? ==> turn < |others| && a.fs == others[turn](now)
    ensures History(start, acts + [a], top, root, others, if a.Others? then turn + 1 else turn, Step(now, a))
    ensures forall ino :: WentInto(acts, ino) ==> WentInto(acts + [a], ino)
    ensures a.Enter? ==> WentInto(acts + [a], a.ino)
    ensures Removals(acts + [a]) == Removals(acts) + if a.Unlink? || a.Rmdir? then [a.name] else []
  {
    var acts' := acts + [a];
    assert acts'[..|acts'| - 1] == acts;
    forall ino | WentInto(acts, ino)
      ensures WentInto(acts', ino)
    {
      WentIntoStays(acts, a, ino);
    }
    WentIntoStays(acts, a, 0);
  }

  /** Other processes leave a valid tree behind, whatever they do. */
  ghost predicate Sane(others: seq<Fs -> Fs>) {
    forall i, s :: 0 <= i < |others| && ValidFs(s) ==> ValidFs(others[i](s))
  }

  datatype Looked = Gone | Unseen | Found(node: FsNode)
  datatype Outcome = Went | Missing | Stayed

  /** The kernel as one walk sees it: others take their turns, one before
      each call as long as there are any, and the obstacles are those of
      Removal, met where the entry is by then. */
  class SharedTree {
    const k: Kernel
    const o: Obstacles
    const others: seq<Fs -> Fs>
    var turn: nat
    ghost const top: nat
    ghost const root: Option<Name>
    ghost const start: Fs
    ghost var acts: seq<Act>

    ghost predicate Valid()
      reads this, k`fs
    {
      && ValidFs(start) && ValidFs(k.fs) && turn <= |others| && Sane(others)
      && History(start, acts, top, root, others, turn, k.fs)
    }

    constructor (k: Kernel, o: Obstacles, others: seq<Fs -> Fs>, ghost top: nat, ghost root: Option<Name>)
      requires ValidFs(k.fs) && Sane(others)
      ensures Valid() && this.k == k && this.o == o && this.others == others && this.top == top && this.root == root
      ensures start == k.fs && turn == 0 && acts == []
    {
      this.k, this.o, this.others, this.top, this.root := k, o, others, top, root;
      turn, start, acts := 0, k.fs, [];
    }

    /** The name asked for. */
    ghost function EntryName(): Name {
      if root.Some? then root.value else ""
    }

    /** Nobody else does anything any more. */
    predicate Quiet()
      reads this
    {
      turn == |others|
    }

    /** What every call keeps, but for what it does to the tree itself. */
    twostate predicate Onwards(gone: seq<Name>)
      reads this
    {
      && Removals(acts) == Removals(old(acts)) + gone
      && (if old(Quiet()) then turn == old(turn) else old(turn) < turn)
      && forall ino :: WentInto(old(acts), ino) ==> WentInto(acts, ino)
    }

    ghost method Record(a: Act, was: Fs)
      requires History(start, acts, top, root, others, turn, was) && Permitted(was, acts, top, root, a) && !a.Others?
      modifies this`acts
      ensures acts == old(acts) + [a] && History(start, acts, top, root, others, turn, Step(was, a))
      ensures forall ino :: WentInto(old(acts), ino) ==> WentInto(acts, ino)
      ensures a.Enter? ==> WentInto(acts, a.ino)
      ensures Removals(acts) == Removals(old(acts)) + if a.Unlink? || a.Rmdir? then [a.name] else []
    {
      OneMoreAct(start, acts, top, root, others, turn, was, a);
      acts := acts + [a];
    }

    method OthersAct()
      requires Valid()
      modifies this, k`fs
      ensures Valid() && Onwards([])
      ensures old(Quiet()) ==> k.fs == old(k.fs)
    {
      if turn < |others| {
        ghost var was := k.fs;
        k.fs := others[turn](k.fs);
        OneMoreAct(start, acts, top, root, others, turn, was, Others(k.fs));
        acts, turn := acts + [Others(k.fs)], turn + 1;
      }
    }

    /** lstat_at */
    method Look(fd: nat, name: Name) returns (r: Looked)
      requires Valid() && fd in k.fds
      modifies this, k`fs
      ensures Valid() && Onwards([]) && (old(Quiet()) ==> k.fs == old(k.fs))
      ensures var p := Place(k.fs, k.fds[fd], name);
        r == if p.None? || p.value !in k.fs.tree then Gone
             else if p.value in o.noStat then Unseen
             else Found(k.fs.tree[p.value])
    {
      OthersAct();
      var d := k.FindDir(k.fds[fd]);
      var node := k.LstatAt(fd, name);
      r := if node.None? then Gone else if d.value + [name] in o.noStat then Unseen else Found(node.value);
    }

    /** _opendir_for_removal */
    method Open(fd: nat, name: Name) returns (r: Option<nat>)
      requires Valid() && fd in k.fds && Reach(acts, top, root, k.fds[fd], name)
      modifies this, k
      ensures Valid() && Onwards([]) && (old(Quiet()) ==> k.fs == old(k.fs))
      ensures Rises(old(k.fds), old(k.most), k.fds, k.most)
      ensures var p := Place(k.fs, old(k.fds)[fd], name);
        && (r.Some? <==> p.Some? && IsDir(k.fs.tree, p.value) && p.value !in o.noOpen)
        && (r.Some? ==>
              var ino := k.fs.tree[p.value].dir.ino;
              r.value !in old(k.fds) && k.fds == old(k.fds)[r.value := ino] && WentInto(acts, ino))
      ensures r.None? ==> k.fds == old(k.fds)
    {
      OthersAct();
      var d := k.FindDir(k.fds[fd]);
      if d.Some? && d.value + [name] in o.noOpen {
        return None;
      }
      var sub := k.OpenDirAt(fd, name);
      if !sub.Opened? {
        return None;
      }
      Record(Enter(k.fds[fd], name, k.fds[sub.fd]), k.fs);
      r := Some(sub.fd);
    }

    /** opendir_at(fd, "..") */
    method OpenUp(fd: nat) returns (r: Option<nat>)
      requires Valid() && fd in k.fds
      modifies this, k
      ensures Valid() && Onwards([]) && (old(Quiet()) ==> k.fs == old(k.fs))
      ensures r.None? ==> k.fds == old(k.fds)
      ensures r.Some? ==> r.value in k.fds && r.value !in old(k.fds) && k.fds == old(k.fds)[r.value := k.fds[r.value]]
      ensures var p := PathOf(k.fs.tree, old(k.fds)[fd]);
        p.Some? ==> r.Some? && IsDir(k.fs.tree, Up(p.value)) && k.fds[r.value] == k.fs.tree[Up(p.value)].dir.ino
    {
      OthersAct();
      var up := k.OpenParentAt(fd);
      r := if up.Opened? then Some(up.fd) else None;
    }

    /** readlink(name, dir_fd=fd) */
    method ReadLink(fd: nat, name: Name) returns (r: Option<string>)
      requires Valid() && fd in k.fds
      modifies this, k`fs
      ensures Valid() && Onwards([]) && (old(Quiet()) ==> k.fs == old(k.fs))
      ensures var p := Place(k.fs, k.fds[fd], name);
        r == if p.Some? && IsLink(k.fs.tree, p.value) then Some(k.fs.tree[p.value].target) else None
    {
      OthersAct();
      var d := k.FindDir(k.fds[fd]);
      var node := k.LstatAt(fd, name);
      r := if node.Some? && node.value.Link? then Some(node.value.target) else None;
    }

    /** listdir_at, reversed */
    method List(fd: nat) returns (r: Option<seq<Name>>)
      requires Valid() && fd in k.fds
      modifies this, k`fs
      ensures Valid() && Onwards([]) && (old(Quiet()) ==> k.fs == old(k.fs))
      ensures var d := PathOf(k.fs.tree, k.fds[fd]);
        && (r.None? <==> d.None? || d.value in o.noList)
        && (r.Some? ==>
              && NoDuplicates(r.value)
              && forall n :: n in r.value <==> n in ChildNames(k.fs.tree, d.value))
    {
      OthersAct();
      var d := k.FindDir(k.fds[fd]);
      if d.None? || d.value in o.noList {
        return None;
      }
      var names := ListReversed(k.fs.tree, d.value);
      r := Some(names);
    }

    /** _unlink_at of something that is no directory */
    method Unlink(fd: nat, name: Name) returns (r: Outcome, ghost was: Fs)
      requires Valid() && fd in k.fds && Reach(acts, top, root, k.fds[fd], name) && ValidName(name)
      modifies this, k`fs
      ensures Valid() && Onwards(if r.Went? then [name] else []) && ValidFs(was) && (old(Quiet()) ==> was == old(k.fs))
      ensures var p := Place(was, k.fds[fd], name);
        && (r.Missing? <==> p.None? || p.value !in was.tree)
        && (r.Went? <==> p.Some? && p.value in was.tree && !was.tree[p.value].Dir? && p.value !in o.noUnlink)
        && k.fs == if r.Went? then Removed(was, p.value) else was
    {
      OthersAct();
      was := k.fs;
      var d := k.FindDir(k.fds[fd]);
      if d.None? || d.value + [name] !in k.fs.tree {
        return Missing, was;
      }
      if d.value + [name] in o.noUnlink {
        return Stayed, was;
      }
      var done := k.UnlinkAt(fd, name);
      if done.Failed? {
        return Stayed, was;
      }
      Record(Act.Unlink(k.fds[fd], name), was);
      r := Went;
    }

    /** _unlink_at of a directory */
    method Rmdir(fd: nat, name: Name) returns (r: Outcome, ghost was: Fs)
      requires Valid() && fd in k.fds && Reach(acts, top, root, k.fds[fd], name) && ValidName(name)
      modifies this, k`fs
      ensures Valid() && Onwards(if r.Went? then [name] else []) && ValidFs(was) && (old(Quiet()) ==> was == old(k.fs))
      ensures var p := Place(was, k.fds[fd], name);
        && (r.Went? <==> p.Some? && IsDir(was.tree, p.value) && ChildNames(was.tree, p.value) == {}
                         && p.value !in o.noUnlink)
        && k.fs == if r.Went? then Removed(was, p.value) else was
    {
      OthersAct();
      was := k.fs;
      var d := k.FindDir(k.fds[fd]);
      if d.Some? && d.value + [name] in o.noUnlink {
        return Stayed, was;
      }
      var done := k.RmdirAt(fd, name);
      if done.Failed? {
        return Stayed, was;
      }
      Record(Act.Rmdir(k.fds[fd], name), was);
      r := Went;
    }
  }
}
