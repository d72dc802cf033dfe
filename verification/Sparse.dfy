/** copy_data: copying a file's bytes, hole for hole when it is stored
    sparsely, whatever the filesystem says about holes and however short the
    reads and writes turn out. */
module Sparse {
  import opened Attributes
  import opened Resolver

  const BUFSIZE := 0x40000
  const MAX_EXTENTS := 0x100000

  function Zeros(n: nat): (z: Bytes)
    ensures |z| == n && forall i :: 0 <= i < n ==> z[i] == 0
  {
    seq(n, _ => 0)
  }

  predicate AllZero(s: Bytes) {
    forall i :: 0 <= i < |s| ==> s[i] == 0
  }

  function Range(a: nat, b: nat): (r: set<nat>)
    ensures forall i :: i in r <==> a <= i < b
    decreases b - a
  {
    if a >= b then {} else {a} + Range(a + 1, b)
  }

  // -------------------------------------------------------------------------
  // The two descriptors
  // -------------------------------------------------------------------------

  /** lseek(2) with SEEK_DATA or SEEK_HOLE. NoData is ENXIO. */
  datatype Seek = At(pos: nat) | NoData | Fails

  /** A source file: its bytes, what it reports of its holes, and how much a
      pread of n bytes at some position returns. */
  datatype Source = Source(data: Bytes, nextData: nat -> Seek, nextHole: nat -> Seek, short: (nat, nat) -> nat)
  {
    /** What the kernel promises: a seek goes forwards over zeros only, and a
        read within the file returns something. */
    ghost predicate Valid() {
      && (forall o: nat {:trigger nextData(o)} :: match nextData(o)
            case At(n) => n >= o && forall i :: o <= i < n && i < |data| ==> data[i] == 0
            case NoData => forall i :: o <= i < |data| ==> data[i] == 0
            case Fails => true)
      && (forall pos: nat, n: nat {:trigger short(pos, n)} :: n > 0 ==> 1 <= short(pos, n) <= n)
    }

    /** A filesystem that keeps track of its holes: d are the positions it
        stores, and every seek answers with the next one, or the next that is
        not stored. */
    ghost predicate Follows(d: set<nat>) {
      && (forall i :: i in d ==> i < |data|)
      && (forall o: nat {:trigger nextData(o)} :: match nextData(o)
            case At(n) => n in d && forall i :: o <= i < n ==> i !in d
            case NoData => forall i :: o <= i ==> i !in d
            case Fails => false)
      && (forall o: nat {:trigger nextHole(o)} :: o in d ==> nextHole(o).At? && nextHole(o).pos > o && nextHole(o).pos !in d)
      && (forall o: nat, i: nat {:trigger nextHole(o), i in d} :: o in d && nextHole(o).At? && o <= i < nextHole(o).pos ==> i in d)
    }

    function Pread(n: nat, pos: nat): (chunk: Bytes)
      requires n > 0 ==> 1 <= short(pos, n) <= n
      ensures pos + |chunk| <= |data| || chunk == []
      ensures n > 0 && short(pos, n) <= n ==> |chunk| <= n
    {
      if pos >= |data| || n == 0 then []
      else
        var m := short(pos, n);
        data[pos..if pos + m <= |data| then pos + m else |data|]
    }
  }

  /** A file being written. written are the positions that were, the rest
      being holes. */
  class Target {
    var data: Bytes
    ghost var written: set<nat>
    const partial: (nat, nat) -> nat

    constructor (partial: (nat, nat) -> nat)
      ensures data == [] && written == {} && this.partial == partial
    {
      data, written, this.partial := [], {}, partial;
    }

    /** pwrite(2) accepts some of the bytes; past the end, it leaves a hole. */
    method Pwrite(bytes: Bytes, offset: nat) returns (n: nat)
      requires bytes != [] && 1 <= partial(offset, |bytes|) <= |bytes|
      modifies this
      ensures 1 <= n <= |bytes| && data == Overlaid(old(data), offset, bytes[..n])
      ensures written == old(written) + Range(offset, offset + n)
    {
      n := partial(offset, |bytes|);
      data := Overlaid(data, offset, bytes[..n]);
      written := written + Range(offset, offset + n);
    }

    method Truncate(size: nat)
      modifies this
      ensures data == Cut(old(data), size)
      ensures written == old(written)
    {
      data := Cut(data, size);
    }
  }

  function Cut(s: Bytes, size: nat): Bytes {
    if |s| >= size then s[..size] else s + Zeros(size - |s|)
  }

  function Overlaid(s: Bytes, offset: nat, bytes: Bytes): Bytes {
    var base := if |s| >= offset then s else s + Zeros(offset - |s|);
    base[..offset] + bytes + if |base| > offset + |bytes| then base[offset + |bytes|..] else []
  }

  ghost predicate Progress(partial: (nat, nat) -> nat) {
    forall offset: nat, n: nat {:trigger partial(offset, n)} :: n > 0 ==> 1 <= partial(offset, n) <= n
  }

  lemma OverlaidTwice(s: Bytes, offset: nat, a: Bytes, b: Bytes)
    ensures Overlaid(Overlaid(s, offset, a), offset + |a|, b) == Overlaid(s, offset, a + b)
  {
  }

  /** _write_all */
  method WriteAll(out: Target, bytes: Bytes, offset: nat)
    requires Progress(out.partial)
    modifies out
    ensures out.data == if bytes == [] then old(out.data) else Overlaid(old(out.data), offset, bytes)
    ensures out.written == old(out.written) + Range(offset, offset + |bytes|)
  {
    var done := 0;
    hide Overlaid;
    while done < |bytes|
      invariant 0 <= done <= |bytes|
      invariant out.data == if done == 0 then old(out.data) else Overlaid(old(out.data), offset, bytes[..done])
      invariant out.written == old(out.written) + Range(offset, offset + done)
    {
      ghost var was := done;
      var n := out.Pwrite(bytes[done..], offset + done);
      OverlaidTwice(old(out.data), offset, bytes[..done], bytes[done..][..n]);
      assert bytes[..done] + bytes[done..][..n] == bytes[..done + n];
      done := done + n;
    }
    assert bytes[..done] == bytes;
  }

  // -------------------------------------------------------------------------
  // _data_extents
  // -------------------------------------------------------------------------

  datatype Extent = Extent(start: nat, end: nat)

  ghost predicate Within(es: seq<Extent>, i: nat) {
    exists k :: 0 <= k < |es| && es[k].start <= i < es[k].end
  }

  /** In order, apart, none empty, none past the end. */
  ghost predicate Apart(es: seq<Extent>, size: nat) {
    && (forall k :: 0 <= k < |es| ==> es[k].start < es[k].end <= size)
    && (forall j, k :: 0 <= j < k < |es| ==> es[j].end <= es[k].start)
  }

  /** With a filesystem that keeps track, the extents are what is stored and
      nothing else, unless it is scattered over too many. */
  method DataExtents(src: Source, size: nat, ghost d: set<nat>) returns (r: Option<seq<Extent>>)
    requires src.Valid() && size == |src.data|
    ensures r.Some? ==> Apart(r.value, size)
    ensures r.Some? ==> forall i :: 0 <= i < size && !Within(r.value, i) ==> src.data[i] == 0
    ensures r.Some? && src.Follows(d) ==> forall i: nat :: Within(r.value, i) <==> i in d
    ensures r.None? && src.Follows(d) ==> Scattered(d, size)
  {
    var extents: seq<Extent> := [];
    var offset := 0;
    while offset < size
      invariant Apart(extents, size)
      invariant forall k :: 0 <= k < |extents| ==> extents[k].end <= offset
      invariant forall i :: 0 <= i < offset && i < size && !Within(extents, i) ==> src.data[i] == 0
      invariant src.Follows(d) ==> forall i: nat :: Within(extents, i) <==> i in d && i < offset
      decreases size - offset
    {
      var from := src.nextData(offset);
      if from.NoData? {
        break;
      }
      if from.Fails? {
        return None;
      }
      if from.pos >= size {
        break;
      }
      var to := src.nextHole(from.pos);
      if !to.At? || to.pos <= from.pos {
        return None;
      }
      var e := Extent(from.pos, if to.pos < size then to.pos else size);
      OneMoreExtent(extents, e);
      extents := extents + [e];
      offset := to.pos;
      if |extents| > MAX_EXTENTS {
        return None;
      }
    }
    r := Some(extents);
  }

  /** More stretches than the program keeps a list of. */
  ghost predicate Scattered(d: set<nat>, size: nat) {
    exists es :: Apart(es, size) && |es| > MAX_EXTENTS && forall i: nat :: Within(es, i) ==> i in d
  }

  lemma OneMoreExtent(es: seq<Extent>, e: Extent)
    ensures forall i: nat :: Within(es + [e], i) <==> Within(es, i) || e.start <= i < e.end
  {
    forall i: nat
      ensures Within(es + [e], i) <==> Within(es, i) || e.start <= i < e.end
    {
      if Within(es, i) {
        var k :| 0 <= k < |es| && es[k].start <= i < es[k].end;
        assert (es + [e])[k] == es[k];
      }
      if e.start <= i < e.end {
        assert (es + [e])[|es|] == e;
      }
    }
  }

  // -------------------------------------------------------------------------
  // The three ways to copy
  // -------------------------------------------------------------------------

  /** Right wherever written, and nothing but zeros elsewhere. */
  ghost predicate Faithful(out: Bytes, src: Bytes, done: nat) {
    |out| <= done <= |src| && (forall i :: 0 <= i < |out| ==> out[i] == src[i]) && (forall i :: |out| <= i < done ==> src[i] == 0)
  }

  lemma ChunkIsFaithful(out: Bytes, src: Bytes, pos: nat, chunk: Bytes)
    requires Faithful(out, src, pos) && pos + |chunk| <= |src| && chunk == src[pos..pos + |chunk|] && chunk != []
    ensures Faithful(Overlaid(out, pos, chunk), src, pos + |chunk|)
  {
  }

  /** A stretch that holds zeros only need not be written. */
  lemma ZerosAreFaithful(out: Bytes, src: Bytes, pos: nat, next: nat)
    requires Faithful(out, src, pos) && pos <= next <= |src| && AllZero(src[pos..next])
    ensures Faithful(out, src, next)
  {
    forall i | pos <= i < next
      ensures src[i] == 0
    {
      assert src[pos..next][i - pos] == 0;
    }
  }

  lemma CutIsExact(out: Bytes, src: Bytes)
    requires Faithful(out, src, |src|)
    ensures Cut(out, |src|) == src
  {
  }

  /** One extent's bytes, in as many reads as it takes. */
  method CopyRange(src: Source, out: Target, start: nat, end: nat)
    requires src.Valid() && Progress(out.partial) && start <= end <= |src.data| && Faithful(out.data, src.data, start)
    modifies out
    ensures Faithful(out.data, src.data, end) && out.written == old(out.written) + Range(start, end)
  {
    var pos := start;
    while pos < end
      invariant start <= pos <= end && Faithful(out.data, src.data, pos) && out.written == old(out.written) + Range(start, pos)
      decreases end - pos
    {
      var chunk := src.Pread(if BUFSIZE < end - pos then BUFSIZE else end - pos, pos);
      if chunk == [] {
        break;
      }
      ChunkIsFaithful(out.data, src.data, pos, chunk);
      WriteAll(out, chunk, pos);
      pos := pos + |chunk|;
    }
  }

  method CopyExtents(src: Source, out: Target, es: seq<Extent>, size: nat)
    requires src.Valid() && Progress(out.partial) && size == |src.data| && Apart(es, size) && out.data == [] && out.written == {}
    requires forall i :: 0 <= i < size && !Within(es, i) ==> src.data[i] == 0
    modifies out
    ensures out.data == src.data
    ensures forall i :: i in out.written <==> Within(es, i)
  {
    var k := 0;
    ghost var done := 0;
    while k < |es|
      invariant 0 <= k <= |es| && done == (if k == 0 then 0 else es[k - 1].end)
      invariant Faithful(out.data, src.data, done)
      invariant forall i :: i in out.written <==> Within(es[..k], i)
    {
      BetweenExtents(src.data, es, k, done);
      ZerosAreFaithful(out.data, src.data, done, es[k].start);
      assert es[..k + 1] == es[..k] + [es[k]];
      OneMoreExtent(es[..k], es[k]);
      CopyRange(src, out, es[k].start, es[k].end);
      done := es[k].end;
      k := k + 1;
    }
    assert es[..k] == es;
    AfterExtents(src.data, es, done);
    ZerosAreFaithful(out.data, src.data, done, size);
    CutIsExact(out.data, src.data);
    out.Truncate(size);
  }

  lemma BetweenExtents(data: Bytes, es: seq<Extent>, k: nat, done: nat)
    requires Apart(es, |data|) && k < |es| && done == (if k == 0 then 0 else es[k - 1].end)
    requires forall i :: 0 <= i < |data| && !Within(es, i) ==> data[i] == 0
    ensures done <= es[k].start && AllZero(data[done..es[k].start])
  {
    forall i | done <= i < es[k].start
      ensures !Within(es, i)
    {
      forall j | 0 <= j < |es|
        ensures !(es[j].start <= i < es[j].end)
      {
        assert j < k ==> es[j].end <= done;
      }
    }
  }

  lemma AfterExtents(data: Bytes, es: seq<Extent>, done: nat)
    requires Apart(es, |data|) && done == (if es == [] then 0 else es[|es| - 1].end)
    requires forall i :: 0 <= i < |data| && !Within(es, i) ==> data[i] == 0
    ensures done <= |data| && AllZero(data[done..])
  {
    forall i | done <= i < |data|
      ensures !Within(es, i)
    {
    }
    assert data[done..] == data[done..|data|];
  }

  /** Something other than zeros is this near. */
  ghost predicate NearData(data: Bytes, i: int) {
    exists j :: 0 <= j < |data| && i - BUFSIZE < j < i + BUFSIZE && data[j] != 0
  }

  /** Nothing is written but what was read together with such a byte. */
  method CopySkippingZeros(src: Source, out: Target)
    requires src.Valid() && Progress(out.partial) && out.data == [] && out.written == {}
    modifies out
    ensures out.data == src.data
    ensures forall i :: i in out.written ==> NearData(src.data, i)
  {
    var pos := 0;
    while true
      invariant pos <= |src.data| && Faithful(out.data, src.data, pos)
      invariant forall i :: i in out.written ==> NearData(src.data, i)
      decreases |src.data| - pos
    {
      var chunk := src.Pread(BUFSIZE, pos);
      if chunk == [] {
        break;
      }
      if AllZero(chunk) {
        ZerosAreFaithful(out.data, src.data, pos, pos + |chunk|);
      } else {
        ChunkIsFaithful(out.data, src.data, pos, chunk);
        ChunkIsNear(src.data, pos, chunk);
        WriteAll(out, chunk, pos);
      }
      pos := pos + |chunk|;
    }
    CutIsExact(out.data, src.data);
    out.Truncate(pos);
  }

  lemma ChunkIsNear(data: Bytes, pos: nat, chunk: Bytes)
    requires pos + |chunk| <= |data| && chunk == data[pos..pos + |chunk|] && !AllZero(chunk) && |chunk| <= BUFSIZE
    ensures forall i :: pos <= i < pos + |chunk| ==> NearData(data, i)
  {
    var k :| 0 <= k < |chunk| && chunk[k] != 0;
    assert data[pos + k] != 0;
  }

  lemma AppendsChunk(data: Bytes, pos: nat, chunk: Bytes)
    requires pos + |chunk| <= |data| && chunk == data[pos..pos + |chunk|] && chunk != []
    ensures Overlaid(data[..pos], pos, chunk) == data[..pos + |chunk|]
  {
    assert data[..pos][..pos] == data[..pos];
    assert data[..pos + |chunk|] == data[..pos] + chunk;
  }

  method CopyPlain(src: Source, out: Target)
    requires src.Valid() && Progress(out.partial) && out.data == []
    modifies out
    ensures out.data == src.data
  {
    var pos := 0;
    while true
      invariant pos <= |src.data| && out.data == src.data[..pos]
      decreases |src.data| - pos
    {
      var chunk := src.Pread(BUFSIZE, pos);
      if chunk == [] {
        break;
      }
      AppendsChunk(src.data, pos, chunk);
      WriteAll(out, chunk, pos);
      pos := pos + |chunk|;
    }
  }

  function Total(es: seq<Extent>): int {
    if es == [] then 0 else Total(es[..|es| - 1]) + (es[|es| - 1].end - es[|es| - 1].start)
  }

  /** The positions in some extents. */
  ghost function Inside(es: seq<Extent>, size: nat): set<nat> {
    set i | 0 <= i < size && Within(es, i)
  }

  /** The extents' lengths add up to how many positions are in them. */
  lemma {:induction false} TotalIsCount(es: seq<Extent>, size: nat)
    requires Apart(es, size)
    ensures Total(es) == |Inside(es, size)|
    decreases |es|
  {
    if es != [] {
      var init, e := es[..|es| - 1], es[|es| - 1];
      TotalIsCount(init, size);
      assert es == init + [e];
      OneMoreExtent(init, e);
      hide Apart, Within;
      LastApart(init, e, size);
      RangeCounts(e.start, e.end);
    }
  }

  lemma LastApart(init: seq<Extent>, e: Extent, size: nat)
    requires Apart(init + [e], size) && forall i: nat :: Within(init + [e], i) <==> Within(init, i) || e.start <= i < e.end
    ensures Inside(init + [e], size) == Inside(init, size) + Range(e.start, e.end) && Inside(init, size) !! Range(e.start, e.end)
    ensures e.start <= e.end
  {
    var es := init + [e];
    assert es[|init|] == e;
    forall i: nat | Within(init, i)
      ensures i < e.start
    {
      var k :| 0 <= k < |init| && init[k].start <= i < init[k].end;
      assert es[k] == init[k];
    }
    hide Within;
    forall i: nat
      ensures i in Inside(es, size) <==> i in Inside(init, size) || i in Range(e.start, e.end)
    {
    }
  }

  lemma {:induction false} RangeCounts(a: nat, b: nat)
    requires a <= b
    ensures |Range(a, b)| == b - a
    decreases b - a
  {
    if a < b {
      RangeCounts(a + 1, b);
      assert a !in Range(a + 1, b);
    }
  }

  lemma HolesShow(es: seq<Extent>, size: nat)
    requires Apart(es, size)
    ensures Total(es) < size <==> exists i :: 0 <= i < size && !Within(es, i)
  {
    TotalIsCount(es, size);
    RangeCounts(0, size);
    var gaps := Range(0, size) - Inside(es, size);
    assert Inside(es, size) <= Range(0, size);
    assert |gaps| == size - Total(es);
    if i :| 0 <= i < size && !Within(es, i) {
      assert i in gaps;
    }
    if gaps != {} {
      var i :| i in gaps;
      assert !Within(es, i);
    }
  }

  /** copy_data, into a fresh file: the same bytes and the same length, by
      whichever way; and when the hole map is believed, nothing is written
      where the source has a hole. It is, if a filesystem that keeps track of
      its holes has any in a file it does not store in too many pieces; and
      then exactly what is stored is written. Else a sparse copy still writes
      nothing far from any byte that is not zero. */
  method CopyData(src: Source, sparse: bool, out: Target, ghost d: set<nat>) returns (believed: bool, es: seq<Extent>)
    requires src.Valid() && Progress(out.partial) && out.data == [] && out.written == {}
    modifies out
    ensures out.data == src.data
    ensures believed ==> sparse && Apart(es, |src.data|) && forall i :: i in out.written <==> Within(es, i)
    ensures sparse && src.Follows(d) && !Scattered(d, |src.data|) ==> (believed <==> exists i :: 0 <= i < |src.data| && i !in d)
    ensures believed && src.Follows(d) ==> out.written == d
    ensures sparse && !believed ==> forall i :: i in out.written ==> NearData(src.data, i)
  {
    believed, es := false, [];
    if sparse {
      var found := DataExtents(src, |src.data|, d);
      if found.Some? {
        HolesShow(found.value, |src.data|);
      }
      if found.Some? && Total(found.value) < |src.data| {
        believed, es := true, found.value;
        CopyExtents(src, out, es, |src.data|);
      } else {
        CopySkippingZeros(src, out);
      }
    } else {
      CopyPlain(src, out);
    }
  }
}
