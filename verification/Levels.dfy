/** dirfd.Levels: the stack of directories of one walk, with all but the
    deepest few parked, that is, closed and to be reopened through "..". The
    ghost field want is the stack a walk with unlimited descriptors would
    hold, as inodes; everything is stated against it. The tree may be changed
    by others between any two calls. */
module Levels {
  import opened Names
  import opened Trees
  import opened Resolver
  import opened Kernels

  /** A level's two descriptor slots; owned is false for the caller's own. */
  datatype Frame = Frame(fds: seq<Option<nat>>, owned: bool)

  /** The inodes a level stands for, one per slot. */
  type Inodes = seq<Option<nat>>

  const EMPTY: seq<Option<nat>> := [None, None]

  /** The directory with inode child is directly inside the one with inode up. */
  ghost predicate Inside(t: FsTree, child: nat, up: nat) {
    var p := PathOf(t, child);
    p.Some? && IsDir(t, Up(p.value)) && t[Up(p.value)].dir.ino == up
  }

  /** Every directory a level stands for is the parent of the one above it. */
  ghost predicate Beneath(t: FsTree, below: Inodes, above: Inodes) {
    |below| == |above| == 2 &&
    forall s :: 0 <= s < 2 && below[s].Some? ==> above[s].Some? && Inside(t, above[s].value, below[s].value)
  }

  /** What others do between two calls leaves a valid tree behind. */
  ghost predicate Tame(between: Fs -> Fs) {
    forall s :: ValidFs(s) ==> ValidFs(between(s))
  }

  predicate AtMost(a: nat, b: nat, c: nat) {
    a <= b || a <= c
  }

  function Max(a: nat, b: nat): nat {
    if a < b then b else a
  }

  // -------------------------------------------------------------------------
  // What the slots hold
  // -------------------------------------------------------------------------

  /** Which level and slot a number belongs to. */
  type Holders = map<nat, (nat, nat)>

  ghost predicate Sized(st: seq<Frame>) {
    forall i :: 0 <= i < |st| ==> |st[i].fds| == 2
  }

  /** An open slot holds a number of its own: no number is in two slots. */
  ghost predicate SlotOwn(st: seq<Frame>, fds: map<nat, nat>, h: Holders, i: nat, s: nat)
    requires i < |st| && s < |st[i].fds|
  {
    match st[i].fds[s]
    case None => true
    case Some(fd) => fd in fds && fd in h && h[fd] == (i, s)
  }

  ghost predicate Own(st: seq<Frame>, fds: map<nat, nat>, h: Holders) {
    Sized(st) && forall i, s :: 0 <= i < |st| && 0 <= s < 2 ==> SlotOwn(st, fds, h, i, s)
  }

  predicate Parked(i: nat, low: nat) {
    1 <= i < low
  }

  /** A parked slot is closed; any other is open on the inode wanted there. */
  ghost predicate SlotRight(st: seq<Frame>, low: nat, want: seq<Inodes>, fds: map<nat, nat>, i: nat, s: nat)
    requires i < |st| && s < |st[i].fds|
  {
    && i < |want| && s < |want[i]|
    && match st[i].fds[s]
       case None => Parked(i, low) || want[i][s].None?
       case Some(fd) => !Parked(i, low) && want[i][s].Some? && fd in fds && fds[fd] == want[i][s].value
  }

  ghost predicate Right(st: seq<Frame>, low: nat, want: seq<Inodes>, fds: map<nat, nat>, h: Holders) {
    && |st| == |want| && (forall i :: 0 <= i < |want| ==> |want[i]| == 2) && Own(st, fds, h)
    && forall i, s :: 0 <= i < |st| && 0 <= s < 2 ==> SlotRight(st, low, want, fds, i, s)
  }

  /** A number none of the levels holds. */
  ghost predicate Unused(st: seq<Frame>, fd: nat) {
    forall i, s :: 0 <= i < |st| && 0 <= s < |st[i].fds| ==> st[i].fds[s] != Some(fd)
  }

  /** A frame that stands for these inodes, with numbers no level holds. */
  ghost predicate Apart(st: seq<Frame>, f: Frame, w: Inodes, fds: map<nat, nat>) {
    && |f.fds| == |w| == 2
    && (f.fds[0].Some? ==> f.fds[0] != f.fds[1])
    && forall s :: 0 <= s < 2 ==>
         match f.fds[s]
         case None => w[s].None?
         case Some(fd) => w[s].Some? && fd in fds && fds[fd] == w[s].value && Unused(st, fd)
  }

  /** What is wanted, if anything, is the parent of what the slot is on. */
  ghost predicate Leads(s: Fs, fds: map<nat, nat>, slot: Option<nat>, key: Option<nat>) {
    key.Some? ==> slot.Some? && slot.value in fds && Inside(s.tree, fds[slot.value], key.value)
  }

  predicate SameOwners(st: seq<Frame>, st': seq<Frame>) {
    |st| == |st'| && forall i :: 0 <= i < |st| ==> st'[i].owned == st[i].owned
  }

  function Numbers(f: Frame): set<nat>
    requires |f.fds| == 2
  {
    (if f.fds[0].Some? then {f.fds[0].value} else {}) + (if f.fds[1].Some? then {f.fds[1].value} else {})
  }

  function Held(h: Holders, i: nat, s: nat, slot: Option<nat>): Holders {
    if slot.Some? then h[slot.value := (i, s)] else h
  }

  /** The open descriptors no level holds, and those a frame holds. */
  ghost function Unheld(st: seq<Frame>, fds: map<nat, nat>): map<nat, nat> {
    map fd | fd in fds && Unused(st, fd) :: fds[fd]
  }

  ghost function HeldBy(f: Frame, fds: map<nat, nat>): map<nat, nat>
    requires |f.fds| == 2
  {
    map fd | fd in fds && fd in Numbers(f) :: fds[fd]
  }

  lemma UnheldAfterPush(st: seq<Frame>, fds: map<nat, nat>, f: Frame)
    requires |f.fds| == 2
    ensures Unheld(st + [f], fds) == Unheld(st, fds) - Numbers(f)
  {
    forall fd
      ensures Unused(st + [f], fd) <==> Unused(st, fd) && fd !in Numbers(f)
    {
      var st' := st + [f];
      if Unused(st', fd) {
        assert forall i :: 0 <= i < |st| ==> st'[i] == st[i];
        assert st'[|st|] == f;
        assert f.fds[0] != Some(fd) && f.fds[1] != Some(fd);
      }
    }
  }

  lemma UnheldAfterPark(st: seq<Frame>, fds: map<nat, nat>, i: nat, f: Frame)
    requires i < |st| && |st[i].fds| == 2 && f.fds == EMPTY
    ensures Unheld(st[i := f], fds - Numbers(st[i])) == Unheld(st, fds)
  {
    var st' := st[i := f];
    forall fd
      ensures Unused(st', fd) && fd !in Numbers(st[i]) <==> Unused(st, fd)
    {
      assert f.fds[0] == f.fds[1] == None;
      if Unused(st', fd) && fd !in Numbers(st[i]) {
        forall j, s | 0 <= j < |st| && 0 <= s < |st[j].fds|
          ensures st[j].fds[s] != Some(fd)
        {
          assert j != i ==> st'[j] == st[j];
        }
      }
      if Unused(st, fd) {
        assert st[i].fds[0] != Some(fd) && st[i].fds[1] != Some(fd);
      }
    }
  }

  /** What a frame held is left over once it is off the stack, and no longer
      once it is closed too. */
  lemma DroppedIsRest(st: seq<Frame>, fds: map<nat, nat>, f: Frame)
    requires |f.fds| == 2 && forall fd :: fd in Numbers(f) && fd in fds ==> Unused(st, fd)
    ensures Unheld(st, fds) == Unheld(st + [f], fds) + HeldBy(f, fds)
  {
    UnheldAfterPush(st, fds, f);
  }

  lemma UnheldAfterClose(st: seq<Frame>, fds: map<nat, nat>, f: Frame)
    requires |f.fds| == 2
    ensures Unheld(st, fds - Numbers(f)) == Unheld(st, fds) - Numbers(f)
  {
  }

  lemma AfterPop(st: seq<Frame>, low: nat, want: seq<Inodes>, fds: map<nat, nat>, h: Holders)
    requires Right(st, low, want, fds, h) && st != [] && !Parked(|st| - 1, low)
    ensures |st| == |want| && Right(st[..|st| - 1], low, want[..|st| - 1], fds, h)
    ensures Apart(st[..|st| - 1], st[|st| - 1], want[|st| - 1], fds) && Own(st[..|st| - 1], fds, h)
    ensures |st[|st| - 1].fds| == 2 && forall i :: 0 <= i < |want| ==> |want[i]| == 2
    ensures Unheld(st[..|st| - 1], fds) == Unheld(st, fds) + HeldBy(st[|st| - 1], fds)
  {
    hide SlotOwn, SlotRight, Unused, Unheld;
    var n := |st| - 1;
    AfterDrop(st, low, want, fds, h);
    assert st == st[..n] + [st[n]];
    DroppedIsRest(st[..n], fds, st[n]);
  }

  /** Slots filled with numbers that are new. */
  lemma UnheldAfterRevive(st: seq<Frame>, fds: map<nat, nat>, st': seq<Frame>, fds': map<nat, nat>)
    requires st != [] && |st'| == |st| && Sized(st) && Sized(st') && st[|st| - 1].fds == EMPTY
    requires forall i :: 0 <= i < |st| - 1 ==> st'[i] == st[i]
    requires forall fd :: fd in fds ==> fd in fds' && fds'[fd] == fds[fd] && Some(fd) !in st'[|st| - 1].fds
    requires forall fd :: fd in fds' ==> fd in fds || Some(fd) in st'[|st| - 1].fds
    ensures Unheld(st', fds') == Unheld(st, fds)
  {
    var n := |st| - 1;
    forall fd | fd in fds
      ensures Unused(st', fd) <==> Unused(st, fd)
    {
      assert st[n].fds[0] == st[n].fds[1] == None;
      assert Some(fd) !in st'[n].fds;
      forall i, s | 0 <= i < |st| && 0 <= s < 2
        ensures st'[i].fds[s] != Some(fd) <==> st[i].fds[s] != Some(fd)
      {
        if i == n {
          assert st'[n].fds[s] in st'[n].fds;
        }
      }
    }
    forall fd | fd in fds' && fd !in fds
      ensures !Unused(st', fd)
    {
      assert Some(fd) in st'[n].fds;
    }
  }

  lemma FreshIsUnused(st: seq<Frame>, fds: map<nat, nat>, h: Holders, fd: nat)
    requires Own(st, fds, h) && fd !in fds
    ensures Unused(st, fd)
  {
    forall i, s | 0 <= i < |st| && 0 <= s < |st[i].fds|
      ensures st[i].fds[s] != Some(fd)
    {
      assert SlotOwn(st, fds, h, i, s);
    }
  }

  lemma AfterPush(st: seq<Frame>, low: nat, want: seq<Inodes>, fds: map<nat, nat>, h: Holders, f: Frame, w: Inodes)
    requires Right(st, low, want, fds, h) && Apart(st, f, w, fds) && !Parked(|st|, low)
    ensures Right(st + [f], low, want + [w], fds, Held(Held(h, |st|, 0, f.fds[0]), |st|, 1, f.fds[1]))
  {
    var st', want', h' := st + [f], want + [w], Held(Held(h, |st|, 0, f.fds[0]), |st|, 1, f.fds[1]);
    forall i, s | 0 <= i < |st'| && 0 <= s < 2
      ensures SlotOwn(st', fds, h', i, s) && SlotRight(st', low, want', fds, i, s)
    {
      if i < |st| {
        assert SlotOwn(st, fds, h, i, s) && SlotRight(st, low, want, fds, i, s);
      }
    }
  }

  lemma AfterPark(st: seq<Frame>, low: nat, want: seq<Inodes>, fds: map<nat, nat>, h: Holders)
    requires Right(st, low, want, fds, h) && 1 <= low < |st|
    ensures Right(st[low := Frame(EMPTY, st[low].owned)], low + 1, want, fds - Numbers(st[low]), h)
  {
    var st', low', fds' := st[low := Frame(EMPTY, st[low].owned)], low + 1, fds - Numbers(st[low]);
    assert SlotOwn(st, fds, h, low, 0) && SlotOwn(st, fds, h, low, 1);
    assert Sized(st') && EMPTY[0] == EMPTY[1] == None;
    forall i, s | 0 <= i < |st'| && 0 <= s < 2
      ensures SlotOwn(st', fds', h, i, s)
      ensures SlotRight(st', low', want, fds', i, s)
    {
      assert SlotOwn(st, fds, h, i, s) && SlotRight(st, low, want, fds, i, s);
    }
    assert Right(st', low', want, fds', h);
  }

  lemma AfterDrop(st: seq<Frame>, low: nat, want: seq<Inodes>, fds: map<nat, nat>, h: Holders)
    requires Right(st, low, want, fds, h) && st != [] && !Parked(|st| - 1, low)
    ensures Right(st[..|st| - 1], low, want[..|st| - 1], fds, h)
    ensures Apart(st[..|st| - 1], st[|st| - 1], want[|st| - 1], fds)
  {
    var n := |st| - 1;
    var st', want' := st[..n], want[..n];
    assert SlotOwn(st, fds, h, n, 0) && SlotOwn(st, fds, h, n, 1);
    assert SlotRight(st, low, want, fds, n, 0) && SlotRight(st, low, want, fds, n, 1);
    forall i, s | 0 <= i < n && 0 <= s < 2
      ensures SlotOwn(st', fds, h, i, s) && SlotRight(st', low, want', fds, i, s)
      ensures st[n].fds[0].Some? ==> st'[i].fds[s] != st[n].fds[0]
      ensures st[n].fds[1].Some? ==> st'[i].fds[s] != st[n].fds[1]
    {
      assert SlotOwn(st, fds, h, i, s) && SlotRight(st, low, want, fds, i, s);
    }
  }

  /** One slot of the level i filled with a newly opened number. */
  lemma AfterHold(st: seq<Frame>, fds: map<nat, nat>, h: Holders, i: nat, s: nat, up: Option<nat>, fds': map<nat, nat>)
    requires Own(st, fds, h) && i < |st| && s < 2 && st[i].fds[s].None?
    requires up.Some? ==> Unused(st, up.value) && up.value in fds'
    requires forall fd :: fd in fds ==> fd in fds'
    ensures Own(st[i := st[i].(fds := st[i].fds[s := up])], fds', Held(h, i, s, up))
  {
    var st', h' := st[i := st[i].(fds := st[i].fds[s := up])], Held(h, i, s, up);
    forall j, u | 0 <= j < |st'| && 0 <= u < 2
      ensures SlotOwn(st', fds', h', j, u)
    {
      assert SlotOwn(st, fds, h, j, u);
    }
  }

  /** The parked top level reopened on the inodes wanted there. */
  lemma AfterRevive(st: seq<Frame>, want: seq<Inodes>, fds: map<nat, nat>, h: Holders,
                    ups: seq<Option<nat>>, fds': map<nat, nat>, h': Holders)
    requires Right(st, |st|, want, fds, h) && |st| > 1 && |ups| == 2
    requires var st' := st[|st| - 1 := Frame(ups, st[|st| - 1].owned)]; Own(st', fds', h')
    requires forall s :: 0 <= s < 2 ==>
      (ups[s].Some? <==> want[|st| - 1][s].Some?) &&
      (ups[s].Some? ==> ups[s].value in fds' && fds'[ups[s].value] == want[|st| - 1][s].value)
    requires forall fd :: fd in fds ==> fd in fds' && fds'[fd] == fds[fd]
    ensures Right(st[|st| - 1 := Frame(ups, st[|st| - 1].owned)], |st| - 1, want, fds', h')
  {
    var i := |st| - 1;
    var st' := st[i := Frame(ups, st[i].owned)];
    forall j, u | 0 <= j < |st'| && 0 <= u < 2
      ensures SlotRight(st', i, want, fds', j, u)
    {
      assert SlotRight(st, |st|, want, fds, j, u);
    }
  }

  lemma ParkedIsEmpty(st: seq<Frame>, low: nat, want: seq<Inodes>, fds: map<nat, nat>, h: Holders, i: nat)
    requires Right(st, low, want, fds, h) && i < |st| && Parked(i, low)
    ensures st[i].fds == EMPTY && Own(st, fds, h) && |st| == |want| && |want[i]| == 2
  {
    assert SlotRight(st, low, want, fds, i, 0) && SlotRight(st, low, want, fds, i, 1);
  }

  lemma ApartAfterRevive(st: seq<Frame>, f: Frame, w: Inodes, fds: map<nat, nat>, i: nat, ups: seq<Option<nat>>, fds': map<nat, nat>)
    requires Apart(st, f, w, fds) && i < |st| && |ups| == 2
    requires forall s :: 0 <= s < 2 && ups[s].Some? ==> ups[s].value !in fds
    requires forall fd :: fd in fds ==> fd in fds' && fds'[fd] == fds[fd]
    ensures Apart(st[i := Frame(ups, st[i].owned)], f, w, fds')
  {
  }

  /** One more number is open. */
  lemma AfterOpen(st: seq<Frame>, low: nat, want: seq<Inodes>, fds: map<nat, nat>, h: Holders, fd: nat, ino: nat)
    requires Right(st, low, want, fds, h) && fd !in fds
    ensures Right(st, low, want, fds[fd := ino], h)
    ensures Apart(st, Frame([Some(fd), None], true), [Some(ino), None], fds[fd := ino])
    ensures Unheld(st, fds[fd := ino]) == Unheld(st, fds)[fd := ino]
  {
    FreshIsUnused(st, fds, h, fd);
    var fds' := fds[fd := ino];
    forall i, s | 0 <= i < |st| && 0 <= s < 2
      ensures SlotOwn(st, fds', h, i, s) && SlotRight(st, low, want, fds', i, s)
    {
      assert SlotOwn(st, fds, h, i, s) && SlotRight(st, low, want, fds, i, s);
    }
  }

  // -------------------------------------------------------------------------
  // How many descriptors are open
  // -------------------------------------------------------------------------

  ghost function Holding(st: seq<Frame>): nat
    requires Sized(st)
  {
    if st == [] then 0 else Holding(st[..|st| - 1]) + |Numbers(st[|st| - 1])|
  }

  lemma {:induction false} OpenInAll(st: seq<Frame>, fds: map<nat, nat>)
    requires Sized(st)
    ensures |fds| <= |Unheld(st, fds)| + Holding(st)
  {
    if st == [] {
      assert Unheld(st, fds) == fds;
    } else {
      var below, f := st[..|st| - 1], st[|st| - 1];
      assert st == below + [f];
      OpenInAll(below, fds);
      UnheldAfterPush(below, fds, f);
      FewerKeys(Unheld(below, fds), Numbers(f));
    }
  }

  lemma FewerKeys(m: map<nat, nat>, gone: set<nat>)
    ensures |m| <= |m - gone| + |gone|
  {
    assert m.Keys <= (m - gone).Keys + gone;
    var rest := (m - gone).Keys + gone - m.Keys;
    assert m.Keys + rest == (m - gone).Keys + gone;
    assert |m.Keys + rest| == |m.Keys| + |rest|;
  }

  /** Levels with one descriptor each, unless they are parked. */
  lemma {:induction false} OnePerLevel(st: seq<Frame>, low: nat)
    requires Sized(st) && 1 <= low
    requires forall i :: 0 <= i < |st| ==> |Numbers(st[i])| <= if Parked(i, low) then 0 else 1
    ensures Holding(st) <= 1 + if |st| <= low then 0 else |st| - low
  {
    if |st| > 1 {
      OnePerLevel(st[..|st| - 1], low);
    }
  }

  // -------------------------------------------------------------------------
  // The stack
  // -------------------------------------------------------------------------

  class Stack {
    const k: Kernel
    const budget: nat
    var stack: seq<Frame>
    /** Per level: None while it holds its descriptors, or what it was parked with. */
    var keys: seq<Option<Inodes>>
    /** The shallowest level, above the caller's, that holds descriptors. */
    var low: nat
    ghost var want: seq<Inodes>
    ghost var holder: Holders

    /** The parked levels are those from 1 up to low, and they are the ones
        with keys, which are what is wanted there. */
    ghost predicate Loose()
      reads this, k`fds
    {
      LooseAt(k.fds)
    }

    ghost predicate LooseAt(fds: map<nat, nat>)
      reads this
    {
      && Right(stack, low, want, fds, holder)
      && |keys| == |stack| && 1 <= low && (if |stack| > 1 then low <= |stack| else low == 1)
      && forall i :: 0 <= i < |stack| ==> keys[i] == if Parked(i, low) then Some(want[i]) else None
    }

    /** Between calls the top level is never parked. */
    ghost predicate Valid()
      reads this, k`fds
    {
      ValidAt(k.fds)
    }

    ghost predicate ValidAt(fds: map<nat, nat>)
      reads this
    {
      LooseAt(fds) && (|stack| > 1 ==> low < |stack|)
    }

    /** The open descriptors that are no level's. */
    ghost function Rest(): map<nat, nat>
      reads this, k`fds
    {
      Unheld(stack, k.fds)
    }

    /** At most max(budget, 2) levels hold descriptors beside the caller's. */
    predicate Within()
      reads this
    {
      |stack| - low <= Max(budget, 2)
    }

    constructor (k: Kernel, budget: nat)
      ensures Valid() && Rest() == k.fds && this.k == k && this.budget == budget && stack == [] && want == []
    {
      this.k, this.budget := k, budget;
      stack, keys, low, want, holder := [], [], 1, [], map[];
    }

    function Top(): Frame
      reads this
      requires stack != []
    {
      stack[|stack| - 1]
    }

    method CloseSlot(slot: Option<nat>)
      requires slot.Some? ==> slot.value in k.fds
      modifies k`fds
      ensures k.fds == if slot.Some? then old(k.fds) - {slot.value} else old(k.fds)
    {
      if slot.Some? {
        k.Close(slot.value);
      }
    }

    /** _park, for the level low: both identities are taken before either
        descriptor is closed. unreadable holds the descriptors whose fstat
        fails. */
    method Park(unreadable: set<nat>) returns (ok: bool)
      requires Valid() && low < |stack| - 1
      modifies this, k`fds
      ensures Valid() && want == old(want) && |stack| == |old(stack)| && Top() == old(Top())
      ensures Rest() == old(Rest()) && SameOwners(old(stack), stack)
      ensures if ok then low == old(low) + 1 else low == old(low) && unreadable != {}
    {
      var frame := stack[low];
      var key: Inodes := [];
      var slot := 0;
      while slot < 2
        invariant 0 <= slot <= 2 && |key| == slot && key == want[low][..slot]
        decreases 2 - slot
      {
        assert SlotRight(stack, low, want, k.fds, low, slot);
        if frame.fds[slot].None? {
          key := key + [None];
        } else {
          var fd := frame.fds[slot].value;
          if fd in unreadable {
            return false;
          }
          key := key + [Some(k.fds[fd])];
        }
        slot := slot + 1;
      }
      assert key == want[low];
      assert SlotOwn(stack, k.fds, holder, low, 0) && SlotOwn(stack, k.fds, holder, low, 1);
      AfterPark(stack, low, want, k.fds, holder);
      UnheldAfterPark(stack, k.fds, low, Frame(EMPTY, frame.owned));
      CloseSlot(frame.fds[0]);
      CloseSlot(frame.fds[1]);
      assert k.fds == old(k.fds) - Numbers(frame);
      stack := stack[low := Frame(EMPTY, frame.owned)];
      keys := keys[low := Some(key)];
      low := low + 1;
      ok := true;
    }

    /** push: add a level, then park the shallowest beyond the budget. When
        no fstat fails, at most max(budget, 2) levels hold descriptors beside
        the caller's. */
    method Push(frame: Frame, unreadable: set<nat>, ghost w: Inodes)
      requires Valid() && Apart(stack, frame, w, k.fds)
      modifies this, k`fds
      ensures Valid() && want == old(want) + [w] && Top() == frame
      ensures Rest() == old(Rest()) - Numbers(frame) && SameOwners(old(stack) + [frame], stack)
      ensures |stack| > 2 ==> low < |stack| - 1
      ensures unreadable == {} ==> Within()
    {
      AfterPush(stack, low, want, k.fds, holder, frame, w);
      UnheldAfterPush(stack, k.fds, frame);
      holder := Held(Held(holder, |stack|, 0, frame.fds[0]), |stack|, 1, frame.fds[1]);
      stack, keys, want := stack + [frame], keys + [None], want + [w];
      var limit := |stack| - 2;
      while |stack| - low > budget && low < limit
        invariant Valid() && want == old(want) + [w] && |stack| == limit + 2 && Top() == frame
        invariant Rest() == old(Rest()) - Numbers(frame) && SameOwners(old(stack) + [frame], stack)
        invariant limit > 0 ==> low <= limit
        decreases limit - low
      {
        var parked := Park(unreadable);
        if !parked {
          break;
        }
      }
    }

    /** push, of a level whose one descriptor has just been opened. */
    method PushOpened(fd: nat, unreadable: set<nat>, ghost was: map<nat, nat>)
      requires ValidAt(was) && fd !in was && fd in k.fds && k.fds == was[fd := k.fds[fd]]
      modifies this, k`fds
      ensures Valid() && want == old(want) + [[Some(old(k.fds)[fd]), None]]
      ensures Rest() == Unheld(old(stack), was) && SameOwners(old(stack) + [Frame([Some(fd), None], true)], stack)
      ensures |stack| > 2 ==> low < |stack| - 1
      ensures unreadable == {} ==> Within()
    {
      ghost var ino := k.fds[fd];
      AfterOpen(stack, low, want, was, holder, fd, ino);
      assert Rest() == Unheld(stack, was)[fd := ino];
      Push(Frame([Some(fd), None], true), unreadable, [Some(ino), None]);
    }

    /** The walk fills the second slot of the level it has just pushed. */
    method SetSecond(fd: nat)
      requires Valid() && stack != [] && |Top().fds| == 2 && Top().fds[1].None?
      requires fd in k.fds && Unused(stack, fd)
      modifies this
      ensures Valid() && low == old(low)
      ensures stack == old(stack)[..|old(stack)| - 1] + [old(Top()).(fds := old(Top()).fds[1 := Some(fd)])]
      ensures want == old(want)[..|old(want)| - 1] + [old(want)[|old(want)| - 1][1 := Some(k.fds[fd])]]
    {
      var i := |stack| - 1;
      AfterHold(stack, k.fds, holder, i, 1, Some(fd), k.fds);
      holder := holder[fd := (i, 1)];
      stack := stack[i := Top().(fds := Top().fds[1 := Some(fd)])];
      want := want[i := want[i][1 := Some(k.fds[fd])]];
      forall j, s | 0 <= j < |stack| && 0 <= s < 2
        ensures SlotRight(stack, low, want, k.fds, j, s)
      {
        assert SlotRight(old(stack), low, old(want), k.fds, j, s);
      }
    }

    /** _revive_level, one slot: through the child's descriptor, and only if
        what it leads to is the directory that was parked. */
    method ReviveSlot(key: Option<nat>, below: Option<nat>) returns (ok: bool, up: Option<nat>)
      requires ValidFs(k.fs) && (below.Some? ==> below.value in k.fds)
      modifies k`fds, k`most
      ensures AtMost(k.most, old(k.most), |old(k.fds)| + 1)
      ensures ok ==> (up.Some? <==> key.Some?)
      ensures up.Some? ==> ok && up.value !in old(k.fds) && k.fds == old(k.fds)[up.value := key.value]
      ensures up.None? ==> k.fds == old(k.fds)
      ensures key.None? || (below.Some? && Inside(k.fs.tree, k.fds[below.value], key.value)) ==> ok
    {
      if key.None? {
        return true, None;
      }
      if below.None? {
        return false, None;
      }
      var higher := k.OpenParentAt(below.value);
      if !higher.Opened? {
        return false, None;
      }
      if k.fds[higher.fd] != key.value {
        k.Close(higher.fd);
        return false, None;
      }
      return true, Some(higher.fd);
    }

    /** The slot of the level is filled with what was reopened for it. */
    method ReviveInto(i: nat, s: nat, key: Option<nat>, below: Option<nat>) returns (ok: bool, up: Option<nat>)
      requires Own(stack, k.fds, holder) && i < |stack| && s < 2 && stack[i].fds[s].None?
      requires ValidFs(k.fs) && (below.Some? ==> below.value in k.fds)
      modifies this, k`fds, k`most
      ensures Own(stack, k.fds, holder) && AtMost(k.most, old(k.most), |old(k.fds)| + 1)
      ensures stack == old(stack)[i := old(stack)[i].(fds := old(stack)[i].fds[s := up])]
      ensures keys == old(keys) && low == old(low) && want == old(want)
      ensures ok ==> (up.Some? <==> key.Some?)
      ensures up.Some? ==> ok && up.value !in old(k.fds) && k.fds == old(k.fds)[up.value := key.value]
      ensures up.None? ==> k.fds == old(k.fds)
      ensures key.None? || (below.Some? && Inside(k.fs.tree, k.fds[below.value], key.value)) ==> ok
    {
      hide Inside, ValidFs;
      ghost var was := k.fds;
      ok, up := ReviveSlot(key, below);
      if up.Some? {
        FreshIsUnused(stack, was, holder, up.value);
      }
      AfterHold(stack, was, holder, i, s, up, k.fds);
      if up.Some? {
        holder := holder[up.value := (i, s)];
      }
      stack := stack[i := stack[i].(fds := stack[i].fds[s := up])];
    }

    /** Both slots of the top level; the first stays open if the second
        cannot be had. Others may act between the two. */
    method ReviveSlots(child: Frame, key: Inodes, between: Fs -> Fs) returns (ok: bool, ups: seq<Option<nat>>)
      requires Tame(between)
      requires Own(stack, k.fds, holder) && stack != [] && Top().fds == EMPTY && ValidFs(k.fs)
      requires |key| == |child.fds| == 2 && forall s :: 0 <= s < 2 && child.fds[s].Some? ==> child.fds[s].value in k.fds
      modifies this, k`fds, k`most, k`fs
      ensures ValidFs(k.fs) && (k.fs == old(k.fs) || (key[1].Some? && k.fs == between(old(k.fs))))
      ensures AtMost(k.most, old(k.most), |old(k.fds)| + 2)
      ensures keys == old(keys) && low == old(low) && want == old(want)
      ensures |ups| == 2 && stack == old(stack)[|old(stack)| - 1 := Frame(ups, old(Top()).owned)]
      ensures Own(stack, k.fds, holder)
      ensures forall fd :: fd in old(k.fds) ==> fd in k.fds && k.fds[fd] == old(k.fds)[fd]
      ensures forall fd :: fd in k.fds ==> fd in old(k.fds) || Some(fd) in ups
      ensures forall s :: 0 <= s < 2 && ups[s].Some? ==> ups[s].value !in old(k.fds)
      ensures ok ==> forall s :: 0 <= s < 2 ==>
        (ups[s].Some? <==> key[s].Some?) && (ups[s].Some? ==> ups[s].value in k.fds && k.fds[ups[s].value] == key[s].value)
      ensures Leads(old(k.fs), old(k.fds), child.fds[0], key[0]) && Leads(between(old(k.fs)), old(k.fds), child.fds[1], key[1]) ==> ok
    {
      hide Inside, ValidFs, Own;
      var i := |stack| - 1;
      var ok0, up0 := ReviveInto(i, 0, key[0], child.fds[0]);
      if !ok0 {
        ok, ups := false, [up0, None];
        assert stack[i].fds == ups;
        return;
      }
      if key[1].Some? {
        k.fs := between(k.fs);
      }
      var ok1, up1 := ReviveInto(i, 1, key[1], child.fds[1]);
      ok, ups := ok1, [up0, up1];
      assert stack[i].fds == ups;
    }

    /** Reopen what is now the top level through the one just popped. */
    method Revive(child: Frame, between: Fs -> Fs, ghost above: Inodes) returns (ok: bool)
      requires Tame(between)
      requires Loose() && low == |stack| > 1 && ValidFs(k.fs) && Apart(stack, child, above, k.fds)
      modifies this, k`fds, k`most, k`fs
      ensures want == old(want) && |stack| == |old(stack)| && |want| == |stack| && |want[|stack| - 1]| == 2
      ensures ValidFs(k.fs) && (k.fs == old(k.fs) || (want[|stack| - 1][1].Some? && k.fs == between(old(k.fs))))
      ensures AtMost(k.most, old(k.most), |old(k.fds)| + 2)
      ensures Rest() == old(Rest()) && SameOwners(old(stack), stack)
      ensures Own(stack, k.fds, holder) && (ok ==> Valid() && low == |stack| - 1) && Apart(stack, child, above, k.fds)
      ensures forall fd :: fd in old(k.fds) ==> fd in k.fds && k.fds[fd] == old(k.fds)[fd]
      ensures forall fd :: fd in k.fds ==> fd in old(k.fds) || Some(fd) in Top().fds
      ensures Beneath(old(k.fs).tree, want[|stack| - 1], above) && Beneath(between(old(k.fs)).tree, want[|stack| - 1], above) ==> ok
    {
      hide Inside, ValidFs, SlotOwn, SlotRight, Unused, Unheld, Own, Right;
      ghost var st0, fds0, h0 := stack, k.fds, holder;
      var i := |stack| - 1;
      ParkedIsEmpty(stack, low, want, k.fds, holder, i);
      var ups;
      ok, ups := ReviveSlots(child, keys[i].value, between);
      ApartAfterRevive(st0, child, above, fds0, i, ups, k.fds);
      UnheldAfterRevive(st0, fds0, stack, k.fds);
      if ok {
        AfterRevive(st0, want, fds0, h0, ups, k.fds, holder);
        keys, low := keys[i := None], i;
      }
    }

    /** pop: the level below comes back on the very inodes it was parked
        with, or the pop raises, whatever has been moved meanwhile; and on a
        tree where every directory is still inside its parent it does not
        raise. A level with two descriptors takes two calls, and others may
        act between them. The popped frame's descriptors stay open, for the caller to
        close; no other is lost or left behind. */
    method Pop(between: Fs -> Fs) returns (frame: Frame, ok: bool)
      requires Valid() && stack != [] && ValidFs(k.fs) && Tame(between)
      modifies this, k`fds, k`most, k`fs
      ensures ValidFs(k.fs) && (k.fs == old(k.fs) || k.fs == between(old(k.fs)))
      ensures AtMost(k.most, old(k.most), |old(k.fds)| + 2)
      ensures frame == old(Top()) && |stack| == |old(stack)| - 1 == |want|
      ensures forall i :: 0 <= i < |want| ==> |want[i]| == 2
      ensures (stack == [] || want[|stack| - 1][1].None?) ==> k.fs == old(k.fs)
      ensures want == old(want)[..|old(want)| - 1]
      ensures ok ==> Valid()
      ensures |frame.fds| == 2 && Rest() == old(Rest()) + HeldBy(frame, old(k.fds))
      ensures SameOwners(old(stack)[..|stack|], stack)
      ensures ok && old(Within()) ==> Within()
      ensures Own(stack, k.fds, holder) && Apart(stack, frame, old(want)[|old(want)| - 1], k.fds)
      ensures forall fd :: fd in old(k.fds) ==> fd in k.fds && k.fds[fd] == old(k.fds)[fd]
      ensures forall fd :: fd in k.fds ==> fd in old(k.fds) || (stack != [] && Some(fd) in Top().fds)
      ensures stack == [] ==> ok
      ensures stack != [] ==>
        var below, above := old(want)[|stack| - 1], old(want)[|stack|];
        Beneath(old(k.fs).tree, below, above) && Beneath(between(old(k.fs)).tree, below, above) ==> ok
    {
      hide Inside, ValidFs, SlotOwn, Right, Unused, Own, Apart, Unheld, HeldBy;
      AfterPop(stack, low, want, k.fds, holder);
      ghost var above := want[|want| - 1];
      frame, ok := Top(), true;
      var n := |stack| - 1;
      stack, keys, want := stack[..n], keys[..n], want[..n];
      if stack != [] && keys[n - 1].Some? {
        ok := Revive(frame, between, above);
      }
    }

    /** os.close of a number no level holds. */
    method CloseApart(fd: nat)
      requires Own(stack, k.fds, holder) && fd in k.fds && Unused(stack, fd)
      modifies k`fds
      ensures k.fds == old(k.fds) - {fd} && Own(stack, k.fds, holder) && Rest() == old(Rest()) - {fd}
      ensures old(Valid()) ==> Valid()
    {
      ghost var fds := k.fds;
      k.Close(fd);
      OwnAfterClose(stack, fds, holder, fd);
      if old(Valid()) {
        ghost var f := Frame([Some(fd), None], true);
        AfterClose(stack, low, want, fds, holder, f);
        assert k.fds == fds - Numbers(f);
      }
    }

    /** truncate(|stack| - 1): drop a half-opened level, closing what it
        holds; the level under it was never parked. */
    method DropHalfOpened()
      requires Valid() && |stack| > 1 && (|stack| > 2 ==> low < |stack| - 1)
      modifies this, k`fds
      ensures Valid() && want == old(want)[..|old(want)| - 1] && stack == old(stack)[..|old(stack)| - 1]
      ensures |old(Top()).fds| == 2 && (old(Top()).owned ==> Rest() == old(Rest()))
      ensures k.fds == if old(Top()).owned then old(k.fds) - Numbers(old(Top())) else old(k.fds)
    {
      hide SlotOwn, SlotRight, Unused, Own;
      var frame := Top();
      AfterDrop(stack, low, want, k.fds, holder);
      assert stack == stack[..|stack| - 1] + [frame];
      UnheldAfterPush(stack[..|stack| - 1], k.fds, frame);
      UnheldAfterClose(stack[..|stack| - 1], k.fds, frame);
      stack, keys, want := stack[..|stack| - 1], keys[..|stack| - 1], want[..|stack| - 1];
      if frame.owned {
        AfterClose(stack, low, want, k.fds, holder, frame);
        CloseSlot(frame.fds[1]);
        CloseSlot(frame.fds[0]);
        assert k.fds == old(k.fds) - Numbers(frame);
      }
    }

    /** close_frames: after an error, whatever state it left the levels in,
        every number an owned level holds is closed, once. */
    method CloseFrames()
      requires Own(stack, k.fds, holder)
      modifies k`fds
      ensures forall fd :: fd in k.fds ==> fd in old(k.fds) && k.fds[fd] == old(k.fds)[fd]
      ensures forall fd :: fd in old(k.fds) ==>
        (fd in k.fds <==> forall i :: 0 <= i < |stack| && stack[i].owned ==> Some(fd) !in stack[i].fds)
      ensures (forall i :: 0 <= i < |stack| ==> stack[i].owned) ==> k.fds == old(Rest())
    {
      var n := 0;
      while n < |stack|
        invariant 0 <= n <= |stack|
        invariant forall fd :: fd in k.fds ==> fd in old(k.fds) && k.fds[fd] == old(k.fds)[fd]
        invariant forall fd :: fd in old(k.fds) ==>
          (fd in k.fds <==> forall i :: 0 <= i < n && stack[i].owned ==> Some(fd) !in stack[i].fds)
        decreases |stack| - n
      {
        var frame := stack[n];
        if frame.owned {
          StillOpen(old(k.fds), n, 0);
          StillOpen(old(k.fds), n, 1);
          CloseSlot(frame.fds[1]);
          CloseSlot(frame.fds[0]);
        }
        n := n + 1;
      }
    }

    lemma StillOpen(was: map<nat, nat>, n: nat, s: nat)
      requires Own(stack, was, holder) && n < |stack| && s < 2
      ensures var slot := stack[n].fds[s];
        slot.Some? ==>
          && slot.value in was && slot != stack[n].fds[1 - s]
          && forall i :: 0 <= i < n ==> slot !in stack[i].fds
    {
      assert SlotOwn(stack, was, holder, n, s) && SlotOwn(stack, was, holder, n, 1 - s);
      forall i, u | 0 <= i < n && 0 <= u < 2
        ensures stack[n].fds[s].Some? ==> stack[i].fds[u] != stack[n].fds[s]
      {
        assert SlotOwn(stack, was, holder, i, u);
      }
    }
  }

  lemma OwnAfterClose(st: seq<Frame>, fds: map<nat, nat>, h: Holders, fd: nat)
    requires Own(st, fds, h) && Unused(st, fd)
    ensures Own(st, fds - {fd}, h)
  {
    forall i, s | 0 <= i < |st| && 0 <= s < 2
      ensures SlotOwn(st, fds - {fd}, h, i, s)
    {
      assert SlotOwn(st, fds, h, i, s);
    }
  }

  /** Closing numbers no level holds. */
  lemma AfterClose(st: seq<Frame>, low: nat, want: seq<Inodes>, fds: map<nat, nat>, h: Holders, f: Frame)
    requires Right(st, low, want, fds, h) && |f.fds| == 2
    requires forall s :: 0 <= s < 2 && f.fds[s].Some? ==> Unused(st, f.fds[s].value)
    ensures Right(st, low, want, fds - Numbers(f), h)
  {
    forall i, s | 0 <= i < |st| && 0 <= s < 2
      ensures SlotOwn(st, fds - Numbers(f), h, i, s) && SlotRight(st, low, want, fds - Numbers(f), i, s)
    {
      assert SlotOwn(st, fds, h, i, s) && SlotRight(st, low, want, fds, i, s);
    }
  }
}
