/** layer_diff: what changed between two states of a rootfs, as a stream of
    archive members and whiteouts, and what applying that stream gives. The
    whiteout names are those of the OCI Image Format Specification, layer.md,
    sections "Whiteouts" and "Opaque Whiteout". */
module LayerDiff {
  import opened Names
  import opened Trees
  import opened Resolver
  import opened Kernels
  import opened TarExtract
  import opened Walks
  import opened Attributes

  const L2S: Path := [".l2s"]

  /** What a snapshot can see: no special files, nothing of a .l2s directory
      at the top. */
  predicate Seen(t: FsTree, p: Path) {
    p in t && !t[p].Special? && !(L2S <= p && IsDir(t, L2S))
  }

  function Plain(t: FsTree): FsTree {
    map p | p in t && Seen(t, p) :: t[p]
  }

  datatype Print =
    | DirPrint(mode: Mode)
    | LinkPrint(target: string)
    | FilePrint(size: nat, mtime: int, mode: Mode, crc: nat)

  function PrintOf(n: FsNode, crc: Bytes -> nat): Print
    requires !n.Special?
  {
    match n
    case Dir(d) => DirPrint(d.mode)
    case Link(target) => LinkPrint(target)
    case File(f) => FilePrint(|f.data|, f.mtime, f.mode, crc(f.data))
  }

  type Snapshot = map<Path, Print>

  function SnapshotOf(t: FsTree, crc: Bytes -> nat): Snapshot {
    map p | p in Plain(t) && p != [] :: PrintOf(t[p], crc)
  }

  lemma PlainIsWellFormed(t: FsTree)
    requires WellFormed(t)
    ensures WellFormed(Plain(t))
  {
    forall p | p in Plain(t)
      ensures Rooted(Plain(t), p)
    {
      assert Rooted(t, p);
      if p != [] {
        assert L2S <= Parent(p) ==> L2S <= p;
      }
    }
  }

  /** The snapshot without what a walk still has ahead. */
  ghost function SoFar(t: FsTree, crc: Bytes -> nat, ahead: set<Path>): Snapshot {
    map p | p in Plain(t) && p != [] && p !in ahead :: PrintOf(t[p], crc)
  }

  lemma SkippedEntry(t: FsTree, crc: Bytes -> nat, ahead: set<Path>, c: Path)
    requires WellFormed(t) && c in t && (t[c].Special? || (t[c].Dir? && c == L2S))
    ensures SoFar(t, crc, ahead - From(t, c)) == SoFar(t, crc, ahead)
  {
    forall p | p in t && c <= p
      ensures !Seen(t, p)
    {
      if c < p {
        AncestorsAreDirs(t, c, p);
      }
      assert c < p || c == p;
    }
  }

  lemma RecordedEntry(t: FsTree, crc: Bytes -> nat, ahead: set<Path>, c: Path)
    requires WellFormed(t) && Seen(t, c) && c != [] && c in ahead
    ensures !t[c].Dir? ==> SoFar(t, crc, ahead - From(t, c)) == SoFar(t, crc, ahead)[c := PrintOf(t[c], crc)]
    ensures SoFar(t, crc, ahead - {c}) == SoFar(t, crc, ahead)[c := PrintOf(t[c], crc)]
  {
    forall p | p in t && c <= p
      ensures p == c || t[c].Dir?
    {
      if c < p {
        AncestorsAreDirs(t, c, p);
      }
      assert c < p || c == p;
    }
  }

  lemma SeenBelow(t: FsTree, path: Path, n: Name)
    requires Seen(t, path)
    ensures path + [n] in t && !t[path + [n]].Special? && !(t[path + [n]].Dir? && path + [n] == L2S) ==> Seen(t, path + [n])
    ensures path != [] && Parent(path) in t && t[Parent(path)].Dir? ==> Seen(t, Parent(path))
  {
    var c := path + [n];
    assert L2S <= c ==> L2S <= path || c == L2S;
    if path != [] {
      assert L2S <= Parent(path) ==> L2S <= path;
    }
  }

  /** snapshot: the descent that fingerprints every entry it can see. */
  method TakeSnapshot(t: FsTree, crc: Bytes -> nat) returns (state: Snapshot)
    requires WellFormed(t)
    ensures state == SnapshotOf(t, crc)
  {
    state := map[];
    var ls := [Level([], None, ())];
    Start(t, [], ());
    while ls != []
      invariant Chain(t, ls) && (ls != [] ==> Seen(t, Top(ls).path))
      invariant state == SoFar(t, crc, Ahead(t, ls))
      decreases Ahead(t, ls), Steps(ls)
    {
      var frame := Top(ls);
      if frame.pending.None? {
        var names := ListReversed(t, frame.path);
        Listed(t, ls, names, ());
        ls := WithTop(ls, Level(frame.path, Some(names), ()));
      } else if frame.pending.value == [] {
        Popped(t, ls);
        SeenBelow(t, frame.path, "");
        ls := Below(ls);
      } else {
        state, ls := Visit(t, crc, state, ls);
      }
    }
  }

  /** One entry: skipped, recorded, or recorded and entered. */
  method Visit(t: FsTree, crc: Bytes -> nat, state: Snapshot, ls: seq<Level<()>>)
    returns (state': Snapshot, ls': seq<Level<()>>)
    requires WellFormed(t) && Chain(t, ls) && HasNext(ls) && Seen(t, Top(ls).path)
    requires state == SoFar(t, crc, Ahead(t, ls))
    ensures Chain(t, ls') && ls' != [] && Seen(t, Top(ls').path)
    ensures state' == SoFar(t, crc, Ahead(t, ls')) && Closer(t, ls, ls')
  {
    ghost var ahead := Ahead(t, ls);
    var c := Next(Top(ls));
    Taken(t, ls, ());
    SeenBelow(t, Top(ls).path, Leaf(c));
    ls' := TakeNext(ls, ());
    if t[c].Special? || (t[c].Dir? && c == L2S) {
      SkippedEntry(t, crc, ahead, c);
      state' := state;
    } else {
      RecordedEntry(t, crc, ahead, c);
      state' := state[c := PrintOf(t[c], crc)];
      if t[c].Dir? {
        Entered(t, ls, (), ());
        ls' := ls' + [Level(c, None, ())];
      }
    }
  }

  // -------------------------------------------------------------------------
  // The difference of two snapshots
  // -------------------------------------------------------------------------

  function Added(before: Snapshot, after: Snapshot): set<Path> {
    after.Keys - before.Keys
  }

  function Modified(before: Snapshot, after: Snapshot): set<Path> {
    set p | p in after && p in before && before[p] != after[p]
  }

  function Deleted(before: Snapshot, after: Snapshot): set<Path> {
    before.Keys - after.Keys
  }

  /** sorted() over relative paths: every one once, in the order of their
      spellings. */
  ghost predicate Listing(s: seq<Path>, of: set<Path>) {
    SortedBy(s, Join) && forall p :: p in s <==> p in of
  }

  ghost predicate Entries(s: set<Path>) {
    forall p :: p in s ==> p != [] && ValidPath(p)
  }

  lemma SpellingsDiffer(s: set<Path>)
    requires forall p :: p in s ==> ValidPath(p)
    ensures forall x, y :: x in s && y in s && Join(x) == Join(y) ==> x == y
  {
    forall x, y | x in s && y in s && Join(x) == Join(y)
      ensures x == y
    {
      if x == [] || y == [] {
        if x != [] { JoinEnds(x); }
        if y != [] { JoinEnds(y); }
      } else {
        SplitOfJoin(x);
        SplitOfJoin(y);
      }
    }
  }

  method DiffSnapshots(before: Snapshot, after: Snapshot)
    returns (added: seq<Path>, modified: seq<Path>, deleted: seq<Path>)
    requires Entries(before.Keys) && Entries(after.Keys)
    ensures Listing(added, Added(before, after))
    ensures Listing(modified, Modified(before, after))
    ensures Listing(deleted, Deleted(before, after))
  {
    SpellingsDiffer(after.Keys);
    SpellingsDiffer(before.Keys);
    added := SortBy(Added(before, after), Join);
    modified := SortBy(Modified(before, after), Join);
    deleted := SortBy(Deleted(before, after), Join);
  }

  // -------------------------------------------------------------------------
  // The layer
  // -------------------------------------------------------------------------

  /** _add_entry: the member for one path, none for a special file. */
  function EntryMember(t: FsTree, rel: Path): seq<Member> {
    if rel !in t then []
    else match t[rel]
      case Dir(d) => [Member(Join(rel), DirMember(d.mode))]
      case Link(target) => [Member(Join(rel), SymMember(target))]
      case File(f) => [Member(Join(rel), RegMember(f.(mtime := WholeSeconds(f.mtime))))]
      case Special => []
  }

  const MARK := Member("", RegMember(FileInfo([], 0x1A4, 0)))

  /** parent + "/.wh." + basename */
  function WhiteoutMember(rel: Path): Member
    requires rel != []
  {
    MARK.(name := Join(Parent(rel) + [WHITEOUT + Leaf(rel)]))
  }

  function OpaqueMember(dir: Path): Member {
    MARK.(name := Join(dir + [OPAQUE]))
  }

  function Packed(t: FsTree, ps: seq<Path>): seq<Member>
    decreases |ps|
  {
    if ps == [] then [] else EntryMember(t, ps[0]) + Packed(t, ps[1..])
  }

  function Whiteouts(ds: seq<Path>): seq<Member>
    requires forall i :: 0 <= i < |ds| ==> ds[i] != []
  {
    seq(|ds|, i requires 0 <= i < |ds| => WhiteoutMember(ds[i]))
  }

  function Opaques(os: seq<Path>): seq<Member> {
    seq(|os|, i requires 0 <= i < |os| => OpaqueMember(os[i]))
  }

  function Layer(t: FsTree, ps: seq<Path>, ds: seq<Path>, os: seq<Path>): seq<Member>
    requires forall i :: 0 <= i < |ds| ==> ds[i] != []
  {
    Packed(t, ps) + (Whiteouts(ds) + Opaques(os))
  }

  function Elements(s: seq<Path>): set<Path> {
    set p | p in s
  }

  lemma PackNext(t: FsTree, sorted: seq<Path>, i: nat)
    requires i < |sorted|
    ensures Packed(t, sorted[i..]) == EntryMember(t, sorted[i]) + Packed(t, sorted[i + 1..])
  {
    assert sorted[i..][1..] == sorted[i + 1..];
  }

  lemma NothingPacked(t: FsTree, sorted: seq<Path>)
    ensures Packed(t, sorted[|sorted|..]) == [] && sorted[0..] == sorted
  {
  }

  method PackAll(t: FsTree, sorted: seq<Path>) returns (ms: seq<Member>)
    ensures ms == Packed(t, sorted)
  {
    hide EntryMember, Packed;
    ms := [];
    var i := 0;
    NothingPacked(t, sorted);
    while i < |sorted|
      invariant 0 <= i <= |sorted|
      invariant Packed(t, sorted) == ms + Packed(t, sorted[i..])
    {
      PackNext(t, sorted, i);
      var m := EntryMember(t, sorted[i]);
      assert ms + (m + Packed(t, sorted[i + 1..])) == ms + m + Packed(t, sorted[i + 1..]);
      ms, i := ms + m, i + 1;
    }
  }

  /** write_layer_tar: the members, in the order they are written. */
  method WriteLayerTar(t: FsTree, toPack: seq<Path>, deleted: seq<Path>, opaqueDirs: seq<Path>)
    returns (ms: seq<Member>, ghost ps: seq<Path>, ghost ds: seq<Path>, ghost os: seq<Path>)
    requires Entries(Elements(toPack)) && Entries(Elements(deleted)) && Entries(Elements(opaqueDirs) - {[]})
    ensures Listing(ps, Elements(toPack)) && Listing(ds, Elements(deleted)) && Listing(os, Elements(opaqueDirs))
    ensures (forall i :: 0 <= i < |ds| ==> ds[i] != []) && ms == Layer(t, ps, ds, os)
  {
    SpellingsDiffer(Elements(toPack));
    SpellingsDiffer(Elements(deleted));
    SpellingsDiffer(Elements(opaqueDirs));
    var sorted := SortBy(Elements(toPack), Join);
    var gone := SortBy(Elements(deleted), Join);
    var cleared := SortBy(Elements(opaqueDirs), Join);
    forall i | 0 <= i < |gone|
      ensures gone[i] != []
    {
      assert gone[i] in gone;
    }
    ms := PackAll(t, sorted);
    ms := ms + (Whiteouts(gone) + Opaques(cleared));
    ps, ds, os := sorted, gone, cleared;
  }
}
