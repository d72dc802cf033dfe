/** layer_diff: packing through the cache of parent descriptors. The members
    are those that naming every entry from the top would give. */
module Packing {
  import opened Names
  import opened Trees
  import opened Resolver
  import opened Kernels
  import opened TarExtract
  import opened LayerDiff
  import opened Attributes

  /** _ParentFds: the last parent asked for, and a descriptor on it. */
  class ParentFds {
    const k: Kernel
    const root: nat
    var rel: Option<Path>
    var fd: Option<nat>
    var owned: bool
    /** Every descriptor but the cached one. */
    ghost var before: map<nat, nat>

    ghost predicate Valid()
      reads this, k
    {
      && ValidFs(k.fs) && root in before && before[root] == k.fs.tree[[]].dir.ino
      && match fd
         case None => k.fds == before
         case Some(n) =>
           && rel.Some? && IsDir(k.fs.tree, rel.value)
           && if owned then n !in before && k.fds == before[n := k.fs.tree[rel.value].dir.ino]
              else rel == Some([]) && n == root && k.fds == before
    }

    constructor (k: Kernel, rootfs: nat)
      requires ValidFs(k.fs) && rootfs in k.fds && k.Where(rootfs) == Some([])
      modifies k`fds, k`most
      ensures Valid() && this.k == k && fd.None? && fresh(this)
      ensures root !in old(k.fds) && before == old(k.fds)[root := k.fs.tree[[]].dir.ino]
    {
      var n := k.Reopen(rootfs);
      this.k, root := k, n;
      rel, fd, owned := None, None, false;
      before := k.fds;
    }

    /** _release */
    method Forget()
      requires Valid()
      modifies this, k`fds
      ensures Valid() && fd.None? && before == old(before) && rel == old(rel)
    {
      if owned && fd.Some? {
        k.Close(fd.value);
      }
      fd, owned := None, false;
    }

    /** open: a descriptor on the parent, or nothing if it is no directory
        any walk from the root would reach. */
    method Open(parent: Path) returns (r: Option<nat>)
      requires Valid() && ValidPath(parent)
      modifies this, k`fds, k`most
      ensures Valid() && before == old(before)
      ensures r.Some? <==> IsDir(k.fs.tree, parent)
      ensures r.Some? ==> r.value in k.fds && k.Where(r.value) == Some(parent)
    {
      assert Alone(k.fs.tree, parent) && Alone(k.fs.tree, []);
      if fd.Some? && rel == Some(parent) {
        return fd;
      }
      Forget();
      rel := Some(parent);
      if parent == [] {
        fd, owned := Some(root), false;
        return fd;
      }
      r := Walk(parent);
      fd, owned := r, r.Some?;
    }

    /** Component by component from the root, each descriptor closed once the
        next is had. */
    method Walk(parent: Path) returns (r: Option<nat>)
      requires Valid() && fd.None? && ValidPath(parent) && parent != []
      modifies k`fds, k`most
      ensures r.Some? <==> IsDir(k.fs.tree, parent)
      ensures if r.Some? then r.value !in before && k.fds == before[r.value := k.fs.tree[parent].dir.ino] else k.fds == before
    {
      var cur, i := root, 0;
      while i < |parent|
        invariant 0 <= i <= |parent| && IsDir(k.fs.tree, parent[..i])
        invariant cur in k.fds && k.fds[cur] == k.fs.tree[parent[..i]].dir.ino
        invariant if i == 0 then cur == root && k.fds == before else cur !in before && k.fds - {cur} == before
      {
        assert Alone(k.fs.tree, parent[..i]);
        assert parent[..i + 1] == parent[..i] + [parent[i]];
        DirsAllTheWay(k.fs.tree, parent, i + 1);
        var next := k.OpenDirAt(cur, parent[i]);
        if i > 0 {
          k.Close(cur);
        }
        if !next.Opened? {
          return None;
        }
        cur, i := next.fd, i + 1;
      }
      assert parent[..|parent|] == parent;
      r := Some(cur);
    }

    /** close */
    method Close()
      requires Valid()
      modifies this, k`fds
      ensures k.fds == before - {root} && before == old(before)
    {
      Forget();
      k.Close(root);
    }

    /** _add_entry, for an entry that is no link2symlink stand-in. */
    method AddEntry(rel: Path) returns (ms: seq<Member>)
      requires Valid() && ValidPath(rel) && rel != []
      modifies this, k`fds, k`most
      ensures Valid() && before == old(before) && ms == EntryMember(k.fs.tree, rel)
    {
      assert rel == Parent(rel) + [Leaf(rel)] && ValidPath(Parent(rel));
      assert rel in k.fs.tree ==> Rooted(k.fs.tree, rel);
      var dir := Open(Parent(rel));
      if dir.None? {
        return [];
      }
      var st := k.LstatAt(dir.value, Leaf(rel));
      if st.None? {
        return [];
      }
      match st.value {
        case Link(target) => ms := [Member(Join(rel), SymMember(target))];
        case Dir(d) => ms := [Member(Join(rel), DirMember(d.mode))];
        case File(f) => ms := [Member(Join(rel), RegMember(f.(mtime := WholeSeconds(f.mtime))))];
        case Special => ms := [];
      }
    }

    method AddAll(sorted: seq<Path>) returns (ms: seq<Member>)
      requires Valid() && forall i :: 0 <= i < |sorted| ==> sorted[i] != [] && ValidPath(sorted[i])
      modifies this, k`fds, k`most
      ensures Valid() && before == old(before) && ms == Packed(k.fs.tree, sorted)
    {
      hide EntryMember, Packed, ValidFs;
      ms := [];
      var i := 0;
      ghost var t := k.fs.tree;
      NothingPacked(t, sorted);
      while i < |sorted|
        invariant 0 <= i <= |sorted| && Valid() && before == old(before)
        invariant Packed(t, sorted) == ms + Packed(t, sorted[i..])
      {
        PackNext(t, sorted, i);
        var m := AddEntry(sorted[i]);
        assert ms + (m + Packed(t, sorted[i + 1..])) == ms + m + Packed(t, sorted[i + 1..]);
        ms, i := ms + m, i + 1;
      }
    }
  }

  lemma DirsAllTheWay(t: FsTree, p: Path, i: nat)
    requires WellFormed(t) && i <= |p|
    ensures IsDir(t, p) ==> IsDir(t, p[..i])
  {
    if IsDir(t, p) && i < |p| {
      AncestorsAreDirs(t, p[..i], p);
    } else {
      assert i == |p| ==> p[..i] == p;
    }
  }

  /** The entries of a layer, in the order given, through the cache: the
      same members as without one, and no descriptor left open. */
  method PackThroughCache(k: Kernel, rootfs: nat, sorted: seq<Path>) returns (ms: seq<Member>)
    requires ValidFs(k.fs) && rootfs in k.fds && k.Where(rootfs) == Some([])
    requires forall i :: 0 <= i < |sorted| ==> sorted[i] != [] && ValidPath(sorted[i])
    modifies k`fds, k`most
    ensures ms == Packed(k.fs.tree, sorted) && k.fds == old(k.fds)
  {
    var parents := new ParentFds(k, rootfs);
    ms := parents.AddAll(sorted);
    parents.Close();
  }
}
