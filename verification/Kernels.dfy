/** A small model of the kernel underneath the program: one file tree whose
    directories carry inode numbers, and a descriptor table. A descriptor
    names an inode, not a path, and the number of a closed descriptor is the
    first to be handed out again. */
module Kernels {
  import opened Attributes
  import opened Names
  import opened Trees
  import opened Resolver
  import Removal

  datatype DirInfo = DirInfo(ino: nat, mode: Mode)
  datatype FileInfo = FileInfo(data: Bytes, mode: Mode, mtime: int)
  type FsNode = Node<DirInfo, FileInfo>
  type FsTree = Tree<DirInfo, FileInfo>

  /** The tree and the next unused inode number. */
  datatype Fs = Fs(tree: FsTree, nextIno: nat)

  /** Where the directory with this inode is, if it is still in the tree. */
  ghost function PathOf(t: FsTree, ino: nat): (r: Option<Path>)
    ensures r.Some? ==> IsDir(t, r.value) && t[r.value].dir.ino == ino
    ensures r.None? ==> forall p :: IsDir(t, p) ==> t[p].dir.ino != ino
  {
    if exists p :: IsDir(t, p) && t[p].dir.ino == ino
    then var p :| IsDir(t, p) && t[p].dir.ino == ino; Some(p)
    else None
  }

  /** No other directory has the inode number of the one at p. */
  ghost predicate Alone(t: FsTree, p: Path) {
    IsDir(t, p) ==> PathOf(t, t[p].dir.ino) == Some(p)
  }

  ghost predicate ValidFs(s: Fs) {
    && WellFormed(s.tree)
    && (forall p {:trigger Alone(s.tree, p)} :: Alone(s.tree, p))
    && forall p :: IsDir(s.tree, p) ==> s.tree[p].dir.ino < s.nextIno
  }

  // What the calls that change the tree do, on paths.

  function WithDir(s: Fs, p: Path, mode: Mode): Fs {
    Fs(s.tree[p := Dir(DirInfo(s.nextIno, mode))], s.nextIno + 1)
  }

  function WithNode(s: Fs, p: Path, n: FsNode): Fs {
    s.(tree := s.tree[p := n])
  }

  function WithMode(s: Fs, p: Path, mode: Mode): Fs
    requires IsDir(s.tree, p)
  {
    s.(tree := s.tree[p := Dir(s.tree[p].dir.(mode := mode))])
  }

  function Removed(s: Fs, p: Path): Fs {
    s.(tree := Without(s.tree, p))
  }

  lemma WithDirIsValid(s: Fs, p: Path, mode: Mode)
    requires ValidFs(s) && p != [] && ValidName(Leaf(p)) && IsDir(s.tree, Parent(p)) && p !in s.tree
    ensures ValidFs(WithDir(s, p, mode))
  {
    var u := WithDir(s, p, mode).tree;
    AddedIsWellFormed(s.tree, p, u[p]);
    forall q
      ensures Alone(u, q)
    {
      assert Alone(s.tree, q);
      if IsDir(u, q) {
        assert Alone(s.tree, PathOf(u, u[q].dir.ino).value);
      }
    }
  }

  lemma WithNodeIsValid(s: Fs, p: Path, n: FsNode)
    requires ValidFs(s) && p != [] && ValidName(Leaf(p)) && IsDir(s.tree, Parent(p)) && p !in s.tree
    requires !n.Dir?
    ensures ValidFs(WithNode(s, p, n))
  {
    var u := WithNode(s, p, n).tree;
    AddedIsWellFormed(s.tree, p, n);
    forall q
      ensures Alone(u, q)
    {
      assert Alone(s.tree, q);
      if IsDir(u, q) {
        assert Alone(s.tree, PathOf(u, u[q].dir.ino).value);
      }
    }
  }

  lemma WithModeIsValid(s: Fs, p: Path, mode: Mode)
    requires ValidFs(s) && IsDir(s.tree, p)
    ensures ValidFs(WithMode(s, p, mode))
  {
    var u := WithMode(s, p, mode).tree;
    forall q
      ensures Alone(u, q)
      ensures q in u ==> Rooted(u, q)
    {
      assert Alone(s.tree, q);
      if IsDir(u, q) {
        assert Alone(s.tree, PathOf(u, u[q].dir.ino).value);
      }
      assert q in s.tree ==> Rooted(s.tree, q);
    }
  }

  lemma RemovedIsValid(s: Fs, p: Path)
    requires ValidFs(s) && p != []
    ensures ValidFs(Removed(s, p))
  {
    var u := Removed(s, p).tree;
    WithoutIsWellFormed(s.tree, p);
    forall q
      ensures Alone(u, q)
    {
      assert Alone(s.tree, q);
      if IsDir(u, q) {
        assert Alone(s.tree, PathOf(u, u[q].dir.ino).value);
      }
    }
  }

  datatype OpenResult = Opened(fd: nat) | NoEntry | Refused
  datatype Status = Done | Exists | Failed

  /** How the largest number of open descriptors follows the table. */
  predicate Rises(fds: map<nat, nat>, most: nat, fds': map<nat, nat>, most': nat) {
    most' == if fds' != fds && most < |fds'| then |fds'| else most
  }

  class Kernel {
    var fs: Fs
    /** Descriptor number to inode number. */
    var fds: map<nat, nat>
    /** The most descriptors that have been open at once. */
    ghost var most: nat

    /** For the directories that will be unlinked while open: the one each was
        last in, which is where ".." still leads. */
    const lastUp: map<nat, nat>

    constructor (s: Fs, lastUp: map<nat, nat>)
      ensures fs == s && fds == map[] && most == 0 && this.lastUp == lastUp
    {
      this.lastUp := lastUp;
      fs := s;
      fds := map[];
      most := 0;
    }

    /** The path a descriptor's directory has now, if it is still linked. */
    ghost function Where(fd: nat): Option<Path>
      reads this
      requires fd in fds
    {
      PathOf(fs.tree, fds[fd])
    }

    /** The lowest number not in use, as open(2) promises. */
    method FreshDescriptor(ino: nat) returns (fd: nat)
      modifies this`fds, this`most
      ensures fd !in old(fds) && forall n: nat :: n < fd ==> n in old(fds)
      ensures fds == old(fds)[fd := ino] && Rises(old(fds), old(most), fds, most)
    {
      fd := 0;
      var used := fds.Keys;
      while fd in fds
        invariant forall n: nat :: n < fd ==> n in fds
        invariant used <= fds.Keys && forall n :: n in fds && n !in used ==> n < fd
        invariant forall n: nat :: n < fd ==> n !in used
        decreases used
      {
        used := used - {fd};
        fd := fd + 1;
      }
      fds := fds[fd := ino];
      most := if most < |fds| then |fds| else most;
    }

    method Close(fd: nat)
      requires fd in fds
      modifies this`fds
      ensures fds == old(fds) - {fd}
    {
      fds := fds - {fd};
    }

    method FindDir(ino: nat) returns (r: Option<Path>)
      requires ValidFs(fs)
      ensures r == PathOf(fs.tree, ino)
    {
      if p :| p in fs.tree && fs.tree[p].Dir? && fs.tree[p].dir.ino == ino {
        assert Alone(fs.tree, p);
        r := Some(p);
      } else {
        r := None;
      }
    }

    /** fstatat(fd, name, AT_SYMLINK_NOFOLLOW) */
    method LstatAt(fd: nat, name: Name) returns (r: Option<FsNode>)
      requires fd in fds && ValidFs(fs)
      ensures var d := Where(fd);
        r == if d.Some? && d.value + [name] in fs.tree then Some(fs.tree[d.value + [name]]) else None
    {
      var d := FindDir(fds[fd]);
      r := if d.Some? && d.value + [name] in fs.tree then Some(fs.tree[d.value + [name]]) else None;
    }

    /** openat(fd, name, O_RDONLY | O_DIRECTORY | O_NOFOLLOW) */
    method OpenDirAt(fd: nat, name: Name) returns (r: OpenResult)
      requires fd in fds && ValidFs(fs)
      modifies this`fds, this`most
      ensures Rises(old(fds), old(most), fds, most)
      ensures var at := old(Where(fd));
        match r
        case Opened(n) =>
          && at.Some? && IsDir(fs.tree, at.value + [name])
          && n !in old(fds) && fds == old(fds)[n := fs.tree[at.value + [name]].dir.ino]
        case NoEntry => fds == old(fds) && (at.None? || at.value + [name] !in fs.tree)
        case Refused => fds == old(fds) && at.Some? && at.value + [name] in fs.tree && !fs.tree[at.value + [name]].Dir?
    {
      var d := FindDir(fds[fd]);
      if d.None? || d.value + [name] !in fs.tree {
        r := NoEntry;
      } else if !fs.tree[d.value + [name]].Dir? {
        r := Refused;
      } else {
        var n := FreshDescriptor(fs.tree[d.value + [name]].dir.ino);
        r := Opened(n);
      }
    }

    /** openat(fd, ".."): the kernel's own parent link, never a name. */
    method OpenParentAt(fd: nat) returns (r: OpenResult)
      requires fd in fds && ValidFs(fs)
      modifies this`fds, this`most
      ensures Rises(old(fds), old(most), fds, most)
      ensures var at := old(Where(fd));
        match r
        case Opened(n) =>
          && n !in old(fds)
          && (if at.Some? then IsDir(fs.tree, Up(at.value)) && fds == old(fds)[n := fs.tree[Up(at.value)].dir.ino]
              else old(fds)[fd] in lastUp && fds == old(fds)[n := lastUp[old(fds)[fd]]])
        case NoEntry => fds == old(fds) && at.None? && fds[fd] !in lastUp
        case Refused => false
    {
      var d := FindDir(fds[fd]);
      if d.Some? {
        assert Rooted(fs.tree, d.value);
        var n := FreshDescriptor(fs.tree[Up(d.value)].dir.ino);
        r := Opened(n);
      } else if fds[fd] in lastUp {
        var n := FreshDescriptor(lastUp[fds[fd]]);
        r := Opened(n);
      } else {
        r := NoEntry;
      }
    }

    /** openat(fd, "."): another descriptor on the same inode. */
    method Reopen(fd: nat) returns (n: nat)
      requires fd in fds
      modifies this`fds, this`most
      ensures Rises(old(fds), old(most), fds, most)
      ensures n !in old(fds) && fds == old(fds)[n := old(fds)[fd]]
    {
      n := FreshDescriptor(fds[fd]);
    }

    method MkdirAt(fd: nat, name: Name, mode: Mode) returns (r: Status)
      requires fd in fds && ValidFs(fs) && ValidName(name)
      modifies this`fs
      ensures ValidFs(fs)
      ensures match old(Where(fd))
              case None => r.Failed? && fs == old(fs)
              case Some(d) =>
                if d + [name] in old(fs).tree then r.Exists? && fs == old(fs)
                else r.Done? && fs == WithDir(old(fs), d + [name], mode)
    {
      var d := FindDir(fds[fd]);
      if d.None? {
        r := Failed;
      } else if d.value + [name] in fs.tree {
        r := Exists;
      } else {
        WithDirIsValid(fs, d.value + [name], mode);
        fs := WithDir(fs, d.value + [name], mode);
        r := Done;
      }
    }

    /** symlinkat(2), or open(O_CREAT | O_EXCL) and the writes and metadata
        calls on the new descriptor: a fresh entry that is no directory. */
    method CreateAt(fd: nat, name: Name, node: FsNode) returns (r: Status)
      requires fd in fds && ValidFs(fs) && ValidName(name) && !node.Dir?
      modifies this`fs
      ensures ValidFs(fs)
      ensures match old(Where(fd))
              case None => r.Failed? && fs == old(fs)
              case Some(d) =>
                if d + [name] in old(fs).tree then r.Exists? && fs == old(fs)
                else r.Done? && fs == WithNode(old(fs), d + [name], node)
    {
      var d := FindDir(fds[fd]);
      if d.None? {
        r := Failed;
      } else if d.value + [name] in fs.tree {
        r := Exists;
      } else {
        WithNodeIsValid(fs, d.value + [name], node);
        fs := WithNode(fs, d.value + [name], node);
        r := Done;
      }
    }

    /** unlinkat(2) without AT_REMOVEDIR: refuses a directory. */
    method UnlinkAt(fd: nat, name: Name) returns (r: Status)
      requires fd in fds && ValidFs(fs) && ValidName(name)
      modifies this`fs
      ensures ValidFs(fs)
      ensures match old(Where(fd))
              case None => r.Failed? && fs == old(fs)
              case Some(d) =>
                if d + [name] !in old(fs).tree || IsDir(old(fs).tree, d + [name]) then r.Failed? && fs == old(fs)
                else r.Done? && fs == Removed(old(fs), d + [name])
    {
      var d := FindDir(fds[fd]);
      if d.None? || d.value + [name] !in fs.tree || fs.tree[d.value + [name]].Dir? {
        r := Failed;
      } else {
        RemovedIsValid(fs, d.value + [name]);
        fs := Removed(fs, d.value + [name]);
        r := Done;
      }
    }

    /** unlinkat(2) with AT_REMOVEDIR: only an empty directory goes. */
    method RmdirAt(fd: nat, name: Name) returns (r: Status)
      requires fd in fds && ValidFs(fs) && ValidName(name)
      modifies this`fs
      ensures ValidFs(fs)
      ensures match old(Where(fd))
              case None => r.Failed? && fs == old(fs)
              case Some(d) =>
                if !IsDir(old(fs).tree, d + [name]) || ChildNames(old(fs).tree, d + [name]) != {} then r.Failed? && fs == old(fs)
                else r.Done? && fs == Removed(old(fs), d + [name])
    {
      var d := FindDir(fds[fd]);
      if d.None? || d.value + [name] !in fs.tree || !fs.tree[d.value + [name]].Dir?
         || ChildNames(fs.tree, d.value + [name]) != {} {
        r := Failed;
      } else {
        RemovedIsValid(fs, d.value + [name]);
        fs := Removed(fs, d.value + [name]);
        r := Done;
      }
    }

    /** fchmod(2) through a descriptor opened O_NOFOLLOW on a directory. */
    method ChmodDirAt(fd: nat, name: Name, mode: Mode) returns (r: Status)
      requires fd in fds && ValidFs(fs) && ValidName(name)
      modifies this`fs
      ensures ValidFs(fs)
      ensures match old(Where(fd))
              case None => r.Failed? && fs == old(fs)
              case Some(d) =>
                if !IsDir(old(fs).tree, d + [name]) then r.Failed? && fs == old(fs)
                else r.Done? && fs == WithMode(old(fs), d + [name], mode)
    {
      var d := FindDir(fds[fd]);
      if d.None? || d.value + [name] !in fs.tree || !fs.tree[d.value + [name]].Dir? {
        r := Failed;
      } else {
        WithModeIsValid(fs, d.value + [name], mode);
        fs := WithMode(fs, d.value + [name], mode);
        r := Done;
      }
    }

    /** rmtree_at(fd, name) where no call fails. */
    method RemoveTreeAt(fd: nat, name: Name)
      requires fd in fds && ValidFs(fs) && ValidName(name)
      modifies this`fs
      ensures ValidFs(fs)
      ensures match old(Where(fd))
              case None => fs == old(fs)
              case Some(d) => fs == Removed(old(fs), d + [name])
    {
      var d := FindDir(fds[fd]);
      if d.Some? {
        Removal.NothingInTheWay(fs.tree, d.value + [name]);
        RemovedIsValid(fs, d.value + [name]);
        var tree, _, _, _ := Removal.RmtreeAt(fs.tree, d.value + [name], Removal.NONE);
        fs := fs.(tree := tree);
      }
    }

    /** os.scandir(fd) */
    method ListAt(fd: nat) returns (names: set<Name>)
      requires fd in fds && ValidFs(fs)
      ensures names == if Where(fd).None? then {} else ChildNames(fs.tree, Where(fd).value)
    {
      var d := FindDir(fds[fd]);
      names := if d.None? then {} else ChildNames(fs.tree, d.value);
    }
  }
}
