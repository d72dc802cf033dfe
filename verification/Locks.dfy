/** The lock protocol: flock(2) on open file descriptions that fork and exec
    share, taken and left by program steps that interleave in any order. One
    event is one system call, or one assignment between two of them. */
module Locks {
  import opened Resolver

  datatype Mode = Shared | Exclusive

  /** An open file description on a lock file, and whether the lock it was
      opened for is on it. */
  datatype Ofd = Ofd(path: string, want: Mode, locked: bool)

  /** A descriptor: whose, on what, and whether it survives exec. */
  datatype Fd = Fd(pid: nat, ofd: nat, inherit: bool)

  /** An entry of some process's _held_exclusive. */
  datatype Mark = Mark(pid: nat, path: string)

  /** How far a guard has got through acquire() and release(). */
  datatype Phase = Opened | Granted | Written | Held | Leaving | Unlocked | Done

  /** _FlockBase, in the process pid. A re-entrant guard has no description. */
  datatype Guard = Guard(pid: nat, path: string, mode: Mode, ofd: nat, phase: Phase, reentrant: bool, disowned: bool)

  /** procs: running, and whether it runs this program's code (a forked child
      only execs or exits). lines: which process wrote a lock file's holder
      line last. */
  datatype World = World(procs: map<nat, bool>, guards: map<nat, Guard>, held: set<Mark>, fds: set<Fd>,
                         ofds: map<nat, Ofd>, lines: map<string, nat>, next: nat)

  datatype Event =
    | Start(pid: nat)
    | Begin(pid: nat, g: nat, path: string, mode: Mode, inheritable: bool)
    | Flock(g: nat)
    | WriteLine(g: nat)
    | Register(g: nat)
    | Disown(g: nat)
    | Unregister(g: nat)
    | Unlock(g: nat)
    | Close(g: nat)
    | Fork(pid: nat, child: nat)
    | Exec(pid: nat)
    | Exit(pid: nat)

  // -------------------------------------------------------------------------
  // The kernel
  // -------------------------------------------------------------------------

  predicate Referenced(fds: set<Fd>, o: nat) {
    exists f :: f in fds && f.ofd == o
  }

  /** A description goes, lock and all, with its last descriptor. */
  function Reaped(ofds: map<nat, Ofd>, fds: set<Fd>): map<nat, Ofd> {
    map o | o in ofds && Referenced(fds, o) :: ofds[o]
  }

  predicate Rivals(a: Ofd, b: Ofd) {
    a.path == b.path && a.locked && (a.want.Exclusive? || b.want.Exclusive?)
  }

  /** Would flock(2) block? */
  predicate Conflicts(w: World, o: nat)
    requires o in w.ofds
  {
    exists other :: other in w.ofds && other != o && Rivals(w.ofds[other], w.ofds[o])
  }

  function Closed(fds: set<Fd>, pid: nat, o: nat): set<Fd> {
    set f | f in fds && !(f.pid == pid && f.ofd == o)
  }

  // -------------------------------------------------------------------------
  // The program's steps
  // -------------------------------------------------------------------------

  predicate Stands(w: World, g: nat, phase: Phase) {
    g in w.guards && !w.guards[g].reentrant && w.guards[g].phase == phase && w.guards[g].ofd in w.ofds
  }

  function Moved(w: World, g: nat, phase: Phase): World
    requires g in w.guards
  {
    w.(guards := w.guards[g := w.guards[g].(phase := phase)])
  }

  /** acquire(), up to the open: a path held exclusively already is enough.
      Only shared locks are made inheritable. */
  function DoBegin(w: World, pid: nat, g: nat, path: string, mode: Mode, inheritable: bool): Option<World> {
    if pid !in w.procs || !w.procs[pid] || g in w.guards || (inheritable && mode.Exclusive?) then None
    else if Mark(pid, path) in w.held then Some(w.(guards := w.guards[g := Guard(pid, path, mode, w.next, Held, true, false)]))
    else
      Some(w.(guards := w.guards[g := Guard(pid, path, mode, w.next, Opened, false, false)],
              fds := w.fds + {Fd(pid, w.next, inheritable)},
              ofds := w.ofds[w.next := Ofd(path, mode, false)],
              next := w.next + 1))
  }

  /** flock(LOCK_NB): refused, the descriptor is closed again. */
  function DoFlock(w: World, g: nat): Option<World> {
    if !Stands(w, g, Opened) then None
    else
      var x := w.guards[g];
      if Conflicts(w, x.ofd) then
        var fds := Closed(w.fds, x.pid, x.ofd);
        Some(Moved(w, g, Done).(fds := fds, ofds := Reaped(w.ofds, fds)))
      else
        Some(Moved(w, g, Granted).(ofds := w.ofds[x.ofd := w.ofds[x.ofd].(locked := true)]))
  }

  /** The holder line, truncated and written only once the lock is held. */
  function DoWriteLine(w: World, g: nat): Option<World> {
    if !Stands(w, g, Granted) then None
    else Some(Moved(w, g, Written).(lines := w.lines[w.guards[g].path := w.guards[g].pid]))
  }

  function MarkOf(x: Guard): set<Mark> {
    if x.mode.Exclusive? then {Mark(x.pid, x.path)} else {}
  }

  function DoRegister(w: World, g: nat): Option<World> {
    if !Stands(w, g, Written) then None
    else Some(Moved(w, g, Held).(held := w.held + MarkOf(w.guards[g])))
  }

  function DoDisown(w: World, g: nat): Option<World> {
    if !Stands(w, g, Held) then None
    else Some(w.(guards := w.guards[g := w.guards[g].(disowned := true)]))
  }

  /** Scopes nest: an outer one is not left before the inner ones. */
  predicate InnerScope(w: World, x: Guard) {
    exists h :: h in w.guards && w.guards[h].reentrant && w.guards[h].phase.Held? && w.guards[h].pid == x.pid && w.guards[h].path == x.path
  }

  /** release(), first half: a re-entrant guard does nothing at all. */
  function DoUnregister(w: World, g: nat): Option<World> {
    if g in w.guards && w.guards[g].reentrant && w.guards[g].phase.Held? then Some(Moved(w, g, Done))
    else if !Stands(w, g, Held) || (w.guards[g].mode.Exclusive? && InnerScope(w, w.guards[g])) then None
    else Some(Moved(w, g, Leaving).(held := w.held - MarkOf(w.guards[g])))
  }

  /** LOCK_UN, which frees the description for every descriptor on it; a
      disowned lock skips it. */
  function DoUnlock(w: World, g: nat): Option<World> {
    if !Stands(w, g, Leaving) then None
    else
      var x := w.guards[g];
      Some(Moved(w, g, Unlocked).(ofds := if x.disowned then w.ofds else w.ofds[x.ofd := w.ofds[x.ofd].(locked := false)]))
  }

  function DoClose(w: World, g: nat): Option<World> {
    if !Stands(w, g, Unlocked) then None
    else
      var fds := Closed(w.fds, w.guards[g].pid, w.guards[g].ofd);
      Some(Moved(w, g, Done).(fds := fds, ofds := Reaped(w.ofds, fds)))
  }

  function DoFork(w: World, pid: nat, child: nat): Option<World> {
    if pid !in w.procs || child in w.procs then None
    else Some(w.(procs := w.procs[child := false], fds := w.fds + (set f | f in w.fds && f.pid == pid :: f.(pid := child))))
  }

  /** The memory of a process goes, and those of its descriptors. */
  function Forget(w: World, pid: nat, fds: set<Fd>, procs: map<nat, bool>): World {
    World(procs, map g | g in w.guards && w.guards[g].pid != pid :: w.guards[g],
          (set m | m in w.held && m.pid != pid), fds, Reaped(w.ofds, fds), w.lines, w.next)
  }

  function Do(w: World, e: Event): Option<World> {
    match e
    case Start(pid) => if pid in w.procs then None else Some(w.(procs := w.procs[pid := true]))
    case Begin(pid, g, path, mode, inheritable) => DoBegin(w, pid, g, path, mode, inheritable)
    case Flock(g) => DoFlock(w, g)
    case WriteLine(g) => DoWriteLine(w, g)
    case Register(g) => DoRegister(w, g)
    case Disown(g) => DoDisown(w, g)
    case Unregister(g) => DoUnregister(w, g)
    case Unlock(g) => DoUnlock(w, g)
    case Close(g) => DoClose(w, g)
    case Fork(pid, child) => DoFork(w, pid, child)
    case Exec(pid) =>
      if pid !in w.procs then None
      else Some(Forget(w, pid, (set f | f in w.fds && (f.pid != pid || f.inherit)), w.procs[pid := false]))
    case Exit(pid) =>
      if pid !in w.procs then None
      else Some(Forget(w, pid, (set f | f in w.fds && f.pid != pid), w.procs - {pid}))
  }

  const BOOT := World(map[], map[], {}, {}, map[], map[], 0)

  /** The state after a run, if every event of it could happen. */
  function Run(w: World, es: seq<Event>): Option<World> {
    if es == [] then Some(w)
    else
      var up := Run(w, es[..|es| - 1]);
      if up.None? then None else Do(up.value, es[|es| - 1])
  }

  // -------------------------------------------------------------------------
  // What every step keeps
  // -------------------------------------------------------------------------

  /** Phases in which a guard of its own has its description open. */
  predicate IsOpen(x: Guard) {
    !x.reentrant && !x.phase.Done?
  }

  predicate IsLocking(x: Guard) {
    !x.phase.Opened? && (x.phase.Unlocked? ==> x.disowned)
  }

  /** A guard, its descriptor, and the lock on its description. */
  ghost predicate GuardOk(w: World, g: nat)
    requires g in w.guards
  {
    var x := w.guards[g];
    && x.pid in w.procs && x.ofd <= w.next
    && (x.reentrant ==> x.phase.Held? || x.phase.Done?)
    && (IsOpen(x) ==>
          && (Fd(x.pid, x.ofd, true) in w.fds || Fd(x.pid, x.ofd, false) in w.fds)
          && x.ofd in w.ofds && w.ofds[x.ofd] == Ofd(x.path, x.mode, IsLocking(x)))
  }

  /** Its traces: the mark, and the holder line. */
  ghost predicate TraceOk(w: World, g: nat)
    requires g in w.guards
  {
    var x := w.guards[g];
    && (x.phase.Held? && (x.reentrant || x.mode.Exclusive?) ==> Mark(x.pid, x.path) in w.held)
    && (IsOpen(x) && x.mode.Exclusive? && (x.phase.Written? || x.phase.Held?) ==> x.path in w.lines && w.lines[x.path] == x.pid)
  }

  /** The guard behind a mark. */
  ghost predicate Behind(w: World, m: Mark, g: nat) {
    && g in w.guards && w.guards[g].pid == m.pid && w.guards[g].path == m.path
    && !w.guards[g].reentrant && w.guards[g].mode.Exclusive? && w.guards[g].phase.Held?
  }

  ghost predicate FdOk(w: World, f: Fd) {
    f.pid in w.procs && f.ofd in w.ofds && (f.inherit ==> w.ofds[f.ofd].want.Shared?)
  }

  /** Two guards never share a description. */
  ghost predicate Apart(w: World, g: nat, h: nat)
    requires g in w.guards && h in w.guards
  {
    IsOpen(w.guards[g]) && IsOpen(w.guards[h]) && w.guards[g].ofd == w.guards[h].ofd ==> g == h
  }

  ghost predicate Guards(w: World) {
    && (forall g :: g in w.guards ==> GuardOk(w, g))
    && (forall g, h :: g in w.guards && h in w.guards ==> Apart(w, g, h))
  }

  ghost predicate Traces(w: World) {
    && (forall g :: g in w.guards ==> TraceOk(w, g))
    && (forall m :: m in w.held ==> exists g :: Behind(w, m, g))
  }

  /** A mark stays good as long as the guard behind it does. */
  lemma MarksStay(w: World, w': World)
    requires forall m :: m in w.held ==> exists g :: Behind(w, m, g)
    requires forall m, g :: m in w'.held && Behind(w, m, g) ==> Behind(w', m, g)
    requires forall m :: m in w'.held && m !in w.held ==> exists g :: Behind(w', m, g)
    ensures forall m :: m in w'.held ==> exists g :: Behind(w', m, g)
  {
    forall m | m in w'.held
      ensures exists g :: Behind(w', m, g)
    {
      if m in w.held {
        var g :| Behind(w, m, g);
        assert Behind(w', m, g);
      }
    }
  }

  /** flock's own promise, and no description outlives its descriptors. */
  ghost predicate Descriptions(w: World) {
    && (forall f :: f in w.fds ==> FdOk(w, f))
    && (forall o :: o in w.ofds ==> o < w.next && Referenced(w.fds, o))
    && (forall a, b :: a in w.ofds && b in w.ofds && a != b && w.ofds[b].locked ==> !Rivals(w.ofds[a], w.ofds[b]))
  }

  ghost predicate Inv(w: World) {
    Guards(w) && Traces(w) && Descriptions(w)
  }

  /** A step that neither opens, locks nor closes anything. */
  lemma PaperworkKeeps(w: World, w': World)
    requires Guards(w) && Descriptions(w) && w'.fds == w.fds && w'.ofds == w.ofds && w'.next == w.next
    requires forall p :: p in w.procs ==> p in w'.procs
    requires w'.guards.Keys == w.guards.Keys
    requires forall g :: g in w.guards ==>
      var x, y := w.guards[g], w'.guards[g];
      && y.pid == x.pid && y.path == x.path && y.mode == x.mode && y.ofd == x.ofd && y.reentrant == x.reentrant
      && IsOpen(y) == IsOpen(x) && (IsOpen(x) ==> IsLocking(y) == IsLocking(x))
      && (x.reentrant ==> y.phase.Held? || y.phase.Done?)
    ensures Guards(w') && Descriptions(w')
  {
    forall g | g in w'.guards
      ensures GuardOk(w', g)
    {
      assert GuardOk(w, g);
    }
    forall g, h | g in w'.guards && h in w'.guards
      ensures Apart(w', g, h)
    {
      assert Apart(w, g, h);
    }
    forall f | f in w'.fds
      ensures FdOk(w', f)
    {
      assert FdOk(w, f);
    }
  }

  lemma StartKeeps(w: World, pid: nat)
    requires Inv(w) && pid !in w.procs
    ensures Inv(w.(procs := w.procs[pid := true]))
  {
    var w' := w.(procs := w.procs[pid := true]);
    MarksStay(w, w');
    PaperworkKeeps(w, w');
  }

  lemma WriteLineKeeps(w: World, g: nat)
    requires Inv(w) && DoWriteLine(w, g).Some?
    ensures Inv(DoWriteLine(w, g).value)
  {
    WriteLineKeepsTraces(w, g);
    PaperworkKeeps(w, DoWriteLine(w, g).value);
  }

  lemma WriteLineKeepsTraces(w: World, g: nat)
    requires Inv(w) && DoWriteLine(w, g).Some?
    ensures Traces(DoWriteLine(w, g).value)
  {
    MarksStay(w, DoWriteLine(w, g).value);
  }

  lemma RegisterKeeps(w: World, g: nat)
    requires Inv(w) && DoRegister(w, g).Some?
    ensures Inv(DoRegister(w, g).value)
  {
    var w' := DoRegister(w, g).value;
    if w.guards[g].mode.Exclusive? {
      assert Behind(w', Mark(w.guards[g].pid, w.guards[g].path), g);
    }
    MarksStay(w, w');
    PaperworkKeeps(w, w');
  }

  lemma DisownKeeps(w: World, g: nat)
    requires Inv(w) && DoDisown(w, g).Some?
    ensures Inv(DoDisown(w, g).value)
  {
    var w' := DoDisown(w, g).value;
    MarksStay(w, w');
    PaperworkKeeps(w, w');
  }

  lemma UnregisterKeeps(w: World, g: nat)
    requires Inv(w) && DoUnregister(w, g).Some?
    ensures Inv(DoUnregister(w, g).value)
  {
    UnregisterKeepsTraces(w, g);
    PaperworkKeeps(w, DoUnregister(w, g).value);
  }

  lemma UnregisterKeepsTraces(w: World, g: nat)
    requires Inv(w) && DoUnregister(w, g).Some?
    ensures Traces(DoUnregister(w, g).value)
  {
    var w' := DoUnregister(w, g).value;
    MarksStay(w, w');
    forall h | h in w'.guards
      ensures TraceOk(w', h)
    {
      assert TraceOk(w, h);
      if h != g && w.guards[g].mode.Exclusive? && !w.guards[g].reentrant && IsOpen(w.guards[h]) && w.guards[h].phase.Held? && w.guards[h].path == w.guards[g].path {
        ExclusiveIsAlone(w, g, h);
      }
    }
  }

  /** An exclusive lock is the only lock on its file, whoever asks. */
  lemma ExclusiveIsAlone(w: World, g: nat, h: nat)
    requires Inv(w) && g in w.guards && h in w.guards && w.guards[g].path == w.guards[h].path
    requires IsOpen(w.guards[g]) && IsLocking(w.guards[g]) && w.guards[g].mode.Exclusive?
    requires IsOpen(w.guards[h]) && IsLocking(w.guards[h])
    ensures g == h
  {
    assert GuardOk(w, g) && GuardOk(w, h) && Apart(w, g, h);
    assert g != h ==> Rivals(w.ofds[w.guards[g].ofd], w.ofds[w.guards[h].ofd]);
  }

  lemma BeginKeepsGuards(w: World, pid: nat, g: nat, path: string, mode: Mode, inheritable: bool)
    requires Inv(w) && DoBegin(w, pid, g, path, mode, inheritable).Some?
    ensures Guards(DoBegin(w, pid, g, path, mode, inheritable).value)
  {
    var w' := DoBegin(w, pid, g, path, mode, inheritable).value;
    forall h | h in w'.guards
      ensures GuardOk(w', h)
    {
      assert h in w.guards ==> GuardOk(w, h);
    }
    forall h, i | h in w'.guards && i in w'.guards
      ensures Apart(w', h, i)
    {
      assert h in w.guards && i in w.guards ==> Apart(w, h, i);
    }
  }

  lemma BeginKeeps(w: World, pid: nat, g: nat, path: string, mode: Mode, inheritable: bool)
    requires Inv(w) && DoBegin(w, pid, g, path, mode, inheritable).Some?
    ensures Inv(DoBegin(w, pid, g, path, mode, inheritable).value)
  {
    BeginKeepsGuards(w, pid, g, path, mode, inheritable);
    BeginKeepsTraces(w, pid, g, path, mode, inheritable);
  }

  lemma BeginKeepsTraces(w: World, pid: nat, g: nat, path: string, mode: Mode, inheritable: bool)
    requires Inv(w) && DoBegin(w, pid, g, path, mode, inheritable).Some?
    ensures Traces(DoBegin(w, pid, g, path, mode, inheritable).value)
  {
    MarksStay(w, DoBegin(w, pid, g, path, mode, inheritable).value);
  }

  lemma FlockKeepsGuards(w: World, g: nat)
    requires Inv(w) && DoFlock(w, g).Some?
    ensures Guards(DoFlock(w, g).value)
  {
    var w' := DoFlock(w, g).value;
    forall h | h in w'.guards
      ensures GuardOk(w', h)
    {
      assert GuardOk(w, h) && Apart(w, g, h);
    }
    forall h, i | h in w'.guards && i in w'.guards
      ensures Apart(w', h, i)
    {
      assert h in w.guards && i in w.guards ==> Apart(w, h, i);
    }
  }

  lemma FlockKeeps(w: World, g: nat)
    requires Inv(w) && DoFlock(w, g).Some?
    ensures Inv(DoFlock(w, g).value)
  {
    FlockKeepsGuards(w, g);
    FlockKeepsTraces(w, g);
  }

  lemma FlockKeepsTraces(w: World, g: nat)
    requires Inv(w) && DoFlock(w, g).Some?
    ensures Traces(DoFlock(w, g).value)
  {
    MarksStay(w, DoFlock(w, g).value);
  }

  lemma UnlockKeepsGuards(w: World, g: nat)
    requires Inv(w) && DoUnlock(w, g).Some?
    ensures Guards(DoUnlock(w, g).value)
  {
    var w' := DoUnlock(w, g).value;
    forall h | h in w'.guards
      ensures GuardOk(w', h)
    {
      assert GuardOk(w, h) && Apart(w, g, h);
    }
    forall h, i | h in w'.guards && i in w'.guards
      ensures Apart(w', h, i)
    {
      assert h in w.guards && i in w.guards ==> Apart(w, h, i);
    }
  }

  lemma UnlockKeeps(w: World, g: nat)
    requires Inv(w) && DoUnlock(w, g).Some?
    ensures Inv(DoUnlock(w, g).value)
  {
    UnlockKeepsGuards(w, g);
    UnlockKeepsTraces(w, g);
  }

  lemma UnlockKeepsTraces(w: World, g: nat)
    requires Inv(w) && DoUnlock(w, g).Some?
    ensures Traces(DoUnlock(w, g).value)
  {
    MarksStay(w, DoUnlock(w, g).value);
  }

  lemma CloseKeepsGuards(w: World, g: nat)
    requires Inv(w) && DoClose(w, g).Some?
    ensures Guards(DoClose(w, g).value)
  {
    var w' := DoClose(w, g).value;
    forall h | h in w'.guards
      ensures GuardOk(w', h)
    {
      assert GuardOk(w, h) && Apart(w, g, h);
    }
    forall h, i | h in w'.guards && i in w'.guards
      ensures Apart(w', h, i)
    {
      assert h in w.guards && i in w.guards ==> Apart(w, h, i);
    }
  }

  lemma CloseKeeps(w: World, g: nat)
    requires Inv(w) && DoClose(w, g).Some?
    ensures Inv(DoClose(w, g).value)
  {
    CloseKeepsGuards(w, g);
    CloseKeepsTraces(w, g);
  }

  lemma CloseKeepsTraces(w: World, g: nat)
    requires Inv(w) && DoClose(w, g).Some?
    ensures Traces(DoClose(w, g).value)
  {
    MarksStay(w, DoClose(w, g).value);
  }

  lemma ForkKeeps(w: World, pid: nat, child: nat)
    requires Inv(w) && DoFork(w, pid, child).Some?
    ensures Inv(DoFork(w, pid, child).value)
  {
    MarksStay(w, DoFork(w, pid, child).value);
  }

  /** exec and exit: a process's memory goes, and some of its descriptors. */
  lemma ForgetKeeps(w: World, pid: nat, fds: set<Fd>, procs: map<nat, bool>)
    requires Inv(w) && fds <= w.fds && (forall f :: f in w.fds && f.pid != pid ==> f in fds)
    requires forall p :: p in w.procs && p != pid ==> p in procs
    requires forall f :: f in fds ==> f.pid in procs
    ensures Inv(Forget(w, pid, fds, procs))
  {
    MarksStay(w, Forget(w, pid, fds, procs));
  }

  lemma StepKeeps(w: World, e: Event)
    requires Inv(w) && Do(w, e).Some?
    ensures Inv(Do(w, e).value)
  {
    match e
    case Start(pid) => StartKeeps(w, pid);
    case Begin(pid, g, path, mode, inheritable) => BeginKeeps(w, pid, g, path, mode, inheritable);
    case Flock(g) => FlockKeeps(w, g);
    case WriteLine(g) => WriteLineKeeps(w, g);
    case Register(g) => RegisterKeeps(w, g);
    case Disown(g) => DisownKeeps(w, g);
    case Unregister(g) => UnregisterKeeps(w, g);
    case Unlock(g) => UnlockKeeps(w, g);
    case Close(g) => CloseKeeps(w, g);
    case Fork(pid, child) => ForkKeeps(w, pid, child);
    case Exec(pid) => ForgetKeeps(w, pid, (set f | f in w.fds && (f.pid != pid || f.inherit)), w.procs[pid := false]);
    case Exit(pid) => ForgetKeeps(w, pid, (set f | f in w.fds && f.pid != pid), w.procs - {pid});
  }

  /** Over every run, however its events interleave. */
  lemma {:induction false} RunKeeps(es: seq<Event>)
    requires Run(BOOT, es).Some?
    ensures Inv(Run(BOOT, es).value)
    decreases |es|
  {
    if es != [] {
      RunKeeps(es[..|es| - 1]);
      StepKeeps(Run(BOOT, es[..|es| - 1]).value, es[|es| - 1]);
    }
  }

  // -------------------------------------------------------------------------
  // What the locks promise
  // -------------------------------------------------------------------------

  /** Process pid relies on the lock: it is between acquire() and release(),
      or is a session that was handed the descriptor. */
  ghost predicate Relies(w: World, pid: nat, path: string, mode: Mode) {
    || (exists g :: InScope(w, g, pid, path, mode))
    || (mode.Shared? && pid in w.procs && !w.procs[pid] && exists o :: HandedOver(w, pid, o, path))
  }

  ghost predicate InScope(w: World, g: nat, pid: nat, path: string, mode: Mode) {
    && g in w.guards && w.guards[g].pid == pid && w.guards[g].path == path && w.guards[g].phase.Held?
    && mode == if w.guards[g].reentrant then Exclusive else w.guards[g].mode
  }

  /** A descriptor that survived an exec, its lock still on. */
  ghost predicate HandedOver(w: World, pid: nat, o: nat, path: string) {
    Fd(pid, o, true) in w.fds && o in w.ofds && w.ofds[o].path == path && w.ofds[o].locked
  }

  /** Whatever relies on an exclusive lock has a live description with it. */
  lemma ExclusiveScope(w: World, pid: nat, path: string) returns (g: nat)
    requires Inv(w) && Relies(w, pid, path, Exclusive)
    ensures Behind(w, Mark(pid, path), g) && IsOpen(w.guards[g]) && IsLocking(w.guards[g])
  {
    var h :| InScope(w, h, pid, path, Exclusive);
    assert TraceOk(w, h);
    if w.guards[h].reentrant {
      g :| Behind(w, Mark(pid, path), g);
    } else {
      g := h;
    }
  }

  /** No two processes are in conflicting critical sections, in any state of
      any run. */
  lemma MutualExclusion(es: seq<Event>, p: nat, q: nat, path: string, mode: Mode)
    requires Run(BOOT, es).Some?
    requires Relies(Run(BOOT, es).value, p, path, Exclusive) && Relies(Run(BOOT, es).value, q, path, mode)
    ensures p == q
  {
    var w := Run(BOOT, es).value;
    RunKeeps(es);
    var g := ExclusiveScope(w, p, path);
    assert GuardOk(w, g);
    if mode.Exclusive? {
      var h := ExclusiveScope(w, q, path);
      ExclusiveIsAlone(w, g, h);
    } else if exists h :: InScope(w, h, q, path, mode) {
      var h :| InScope(w, h, q, path, mode);
      ExclusiveIsAlone(w, g, h);
    } else {
      var o :| HandedOver(w, q, o, path);
      assert FdOk(w, Fd(q, o, true));
      assert o != w.guards[g].ofd ==> Rivals(w.ofds[o], w.ofds[w.guards[g].ofd]);
      assert false;
    }
  }

  /** A path recorded in _held_exclusive means a live exclusive description
      with the lock on it; the recorded process wrote the holder line. */
  lemma RecordedMeansHeld(es: seq<Event>, m: Mark)
    requires Run(BOOT, es).Some? && m in Run(BOOT, es).value.held
    ensures var w := Run(BOOT, es).value;
      && (exists o :: o in w.ofds && w.ofds[o] == Ofd(m.path, Exclusive, true)
            && (Fd(m.pid, o, true) in w.fds || Fd(m.pid, o, false) in w.fds))
      && m.path in w.lines && w.lines[m.path] == m.pid
  {
    var w := Run(BOOT, es).value;
    RunKeeps(es);
    var g :| Behind(w, m, g);
    assert GuardOk(w, g) && TraceOk(w, g);
  }

  /** What ends the scope of g, a guard of process pid: its own release, or
      the end of the process as it is. */
  predicate EndsScope(e: Event, g: nat, pid: nat) {
    e == Unregister(g) || e == Exec(pid) || e == Exit(pid)
  }

  /** The guard, but for having been disowned. */
  predicate SameGuard(x: Guard, y: Guard) {
    x.(disowned := y.disowned) == y
  }

  lemma ScopeSurvivesStep(w: World, e: Event, g: nat)
    requires Do(w, e).Some? && g in w.guards && !w.guards[g].reentrant && w.guards[g].phase.Held?
    requires !EndsScope(e, g, w.guards[g].pid)
    ensures var w' := Do(w, e).value; g in w'.guards && SameGuard(w'.guards[g], w.guards[g])
  {
  }

  lemma {:induction false} ScopeSurvives(w: World, es: seq<Event>, g: nat)
    requires g in w.guards && !w.guards[g].reentrant && w.guards[g].phase.Held? && Run(w, es).Some?
    requires forall i :: 0 <= i < |es| ==> !EndsScope(es[i], g, w.guards[g].pid)
    ensures var w' := Run(w, es).value; g in w'.guards && SameGuard(w'.guards[g], w.guards[g])
    decreases |es|
  {
    if es != [] {
      hide Do;
      ScopeSurvives(w, es[..|es| - 1], g);
      ScopeSurvivesStep(Run(w, es[..|es| - 1]).value, es[|es| - 1], g);
    }
  }

  lemma {:induction false} RunOn(w: World, a: seq<Event>, b: seq<Event>)
    ensures Run(w, a + b) == if Run(w, a).None? then None else Run(Run(w, a).value, b)
    decreases |b|
  {
    if b == [] {
      assert a + b == a;
    } else {
      hide Do;
      assert (a + b)[..|a + b| - 1] == a + b[..|b| - 1];
      RunOn(w, a, b[..|b| - 1]);
    }
  }

  /** The guard's lock: its description is locked and open in its process,
      the path is on record, and the process may count on it. */
  ghost predicate StillHolds(w: World, x: Guard) {
    && x.ofd in w.ofds && w.ofds[x.ofd] == Ofd(x.path, Exclusive, true)
    && (Fd(x.pid, x.ofd, true) in w.fds || Fd(x.pid, x.ofd, false) in w.fds)
    && Mark(x.pid, x.path) in w.held && Relies(w, x.pid, x.path, Exclusive)
  }

  lemma HeldGuardHolds(w: World, x: Guard, g: nat)
    requires Inv(w) && g in w.guards && SameGuard(w.guards[g], x) && !x.reentrant && x.mode.Exclusive? && x.phase.Held?
    ensures StillHolds(w, x)
  {
    assert GuardOk(w, g) && TraceOk(w, g);
    assert InScope(w, g, x.pid, x.path, Exclusive);
  }

  /** Whenever a re-entrant scope is left, and whatever happens afterwards,
      the scope around it, which there is, keeps its lock until its own
      release or the end of its process. */
  lemma InnerScopeReleasesNothing(es: seq<Event>, inner: nat, rest: seq<Event>) returns (outer: nat)
    requires Run(BOOT, es).Some?
    requires var w := Run(BOOT, es).value; inner in w.guards && w.guards[inner].reentrant && w.guards[inner].phase.Held?
    ensures var w := Run(BOOT, es).value;
      var x := w.guards[inner];
      && outer != inner && Behind(w, Mark(x.pid, x.path), outer) && Run(BOOT, es + [Unregister(inner)]).Some?
      && (Run(BOOT, es + ([Unregister(inner)] + rest)).Some?
          && (forall i :: 0 <= i < |rest| ==> !EndsScope(rest[i], outer, x.pid)) ==>
            StillHolds(Run(BOOT, es + ([Unregister(inner)] + rest)).value, w.guards[outer]))
  {
    var w := Run(BOOT, es).value;
    var x := w.guards[inner];
    RunKeeps(es);
    assert TraceOk(w, inner);
    outer :| Behind(w, Mark(x.pid, x.path), outer);
    assert (es + [Unregister(inner)])[..|es|] == es;
    assert Do(w, Unregister(inner)).Some?;
    var on := [Unregister(inner)] + rest;
    if Run(BOOT, es + on).Some? && forall i :: 0 <= i < |rest| ==> !EndsScope(rest[i], outer, x.pid) {
      hide Do, Inv;
      RunOn(BOOT, es, on);
      ScopeSurvives(w, on, outer);
      RunKeeps(es + on);
      HeldGuardHolds(Run(BOOT, es + on).value, w.guards[outer], outer);
    }
  }

  /** Only the holder of a lock writes a holder line. */
  lemma OnlyHoldersWrite(es: seq<Event>, e: Event, path: string)
    requires Run(BOOT, es).Some? && Do(Run(BOOT, es).value, e).Some?
    requires var w, w' := Run(BOOT, es).value, Do(Run(BOOT, es).value, e).value;
      path in w'.lines && (path !in w.lines || w'.lines[path] != w.lines[path])
    ensures var w, w' := Run(BOOT, es).value, Do(Run(BOOT, es).value, e).value;
      && e.WriteLine? && w.guards[e.g].path == path && w'.lines[path] == w.guards[e.g].pid
      && w.guards[e.g].ofd in w.ofds && w.ofds[w.guards[e.g].ofd].locked && w.ofds[w.guards[e.g].ofd].path == path
  {
    RunKeeps(es);
    var w := Run(BOOT, es).value;
    if e.WriteLine? {
      assert GuardOk(w, e.g);
    }
  }

  // -------------------------------------------------------------------------
  // How long a lock lasts
  // -------------------------------------------------------------------------

  /** A step takes the lock off a description exactly when it is the LOCK_UN
      of a guard that was not disowned, or closes its last descriptor. */
  lemma LockEndsExactly(es: seq<Event>, e: Event, o: nat)
    requires Run(BOOT, es).Some? && Do(Run(BOOT, es).value, e).Some?
    requires o in Run(BOOT, es).value.ofds && Run(BOOT, es).value.ofds[o].locked
    ensures var w, w' := Run(BOOT, es).value, Do(Run(BOOT, es).value, e).value;
      !(o in w'.ofds && w'.ofds[o].locked) <==>
        (e.Unlock? && w.guards[e.g].ofd == o && !w.guards[e.g].disowned) || !Referenced(w'.fds, o)
  {
    RunKeeps(es);
    StepKeeps(Run(BOOT, es).value, e);
    var w, w' := Run(BOOT, es).value, Do(Run(BOOT, es).value, e).value;
    if e.Unlock? {
      assert Referenced(w.fds, o);
    }
  }

  /** A lock that is asked for in any run, by a process that runs the program
      and has no exclusive one on the path: it is granted exactly when no lock
      on that path is in force, or all that are, and it, are shared. */
  lemma GrantedIff(es: seq<Event>, pid: nat, g: nat, path: string, mode: Mode, inheritable: bool)
    requires Run(BOOT, es).Some? && (inheritable ==> mode.Shared?)
    requires var w := Run(BOOT, es).value;
      pid in w.procs && w.procs[pid] && g !in w.guards && Mark(pid, path) !in w.held
    ensures var w, r := Run(BOOT, es).value, Run(BOOT, es + [Begin(pid, g, path, mode, inheritable), Flock(g)]);
      && r.Some? && g in r.value.guards
      && (if AllShared(w, path, mode)
          then r.value.guards[g].phase.Granted? && r.value.ofds == w.ofds[w.next := Ofd(path, mode, true)]
          else r.value.guards[g].phase.Done? && r.value.ofds == w.ofds && r.value.fds == w.fds)
  {
    var w := Run(BOOT, es).value;
    var begin, lock := Begin(pid, g, path, mode, inheritable), Flock(g);
    RunKeeps(es);
    assert (es + [begin, lock])[..|es| + 1] == es + [begin] && (es + [begin])[..|es|] == es;
    TakenIff(w, pid, g, path, mode, inheritable);
    hide Inv, DoBegin, DoFlock, AllShared;
  }

  /** No lock on the path is in force, or they are all shared, and so is the
      one asked for. */
  ghost predicate AllShared(w: World, path: string, mode: Mode) {
    forall o :: o in w.ofds && w.ofds[o].path == path && w.ofds[o].locked ==> mode.Shared? && w.ofds[o].want.Shared?
  }

  lemma BlockedUnlessShared(w: World, path: string, mode: Mode)
    ensures Blocked(w, path, mode) <==> !AllShared(w, path, mode)
  {
    if !AllShared(w, path, mode) {
      var o :| o in w.ofds && w.ofds[o].path == path && w.ofds[o].locked && !(mode.Shared? && w.ofds[o].want.Shared?);
      assert Rivals(w.ofds[o], Ofd(path, mode, false));
    }
  }

  lemma TakenIff(w: World, pid: nat, g: nat, path: string, mode: Mode, inheritable: bool)
    requires Inv(w) && pid in w.procs && w.procs[pid] && g !in w.guards && Mark(pid, path) !in w.held && (inheritable ==> mode.Shared?)
    ensures var w1 := DoBegin(w, pid, g, path, mode, inheritable);
      && w1.Some? && DoFlock(w1.value, g).Some?
      && var w2 := DoFlock(w1.value, g).value;
      && g in w2.guards
      && if AllShared(w, path, mode) then w2.guards[g].phase.Granted? && w2.ofds == w.ofds[w.next := Ofd(path, mode, true)]
         else w2.guards[g].phase.Done? && w2.ofds == w.ofds && w2.fds == w.fds
  {
    var w1 := DoBegin(w, pid, g, path, mode, inheritable).value;
    BlockedIsConflict(w, w1, path, mode, w.next);
    OpenedAndClosed(w, w1, Fd(pid, w.next, inheritable), Ofd(path, mode, false));
    BlockedUnlessShared(w, path, mode);
    hide Guards, Traces, Blocked, AllShared, Rivals;
  }

  /** A process starts another, which executes a program, and ends itself: its
      lock, of which nobody else has the description, lives on with the new
      one exactly if it was made inheritable. */
  lemma OutlivesItsProcessIff(es: seq<Event>, g: nat, child: nat)
    requires Run(BOOT, es).Some?
    requires var w := Run(BOOT, es).value;
      Stands(w, g, Held) && child !in w.procs && forall f :: f in w.fds && f.ofd == w.guards[g].ofd ==> f.pid == w.guards[g].pid
    ensures var w := Run(BOOT, es).value;
      var x := w.guards[g];
      var r := Run(w, [Fork(x.pid, child), Exec(child), Exit(x.pid)]);
      && r.Some? && (x.ofd in r.value.ofds <==> Fd(x.pid, x.ofd, true) in w.fds)
      && (x.ofd in r.value.ofds ==> r.value.ofds[x.ofd] == Ofd(x.path, x.mode, true) && Fd(child, x.ofd, true) in r.value.fds)
  {
    var w := Run(BOOT, es).value;
    RunKeeps(es);
    assert GuardOk(w, g);
    var x := w.guards[g];
    RunOfThree(w, Fork(x.pid, child), Exec(child), Exit(x.pid));
    ForkedAndLeft(w, x.pid, child, x.ofd);
    hide Inv, Do, Run;
  }

  lemma ForkedAndLeft(w: World, pid: nat, child: nat, o: nat)
    requires pid in w.procs && child !in w.procs && o in w.ofds && forall f :: f in w.fds && f.ofd == o ==> f.pid == pid
    ensures Do(w, Fork(pid, child)).Some?
    ensures var w1 := Do(w, Fork(pid, child)).value;
      && Do(w1, Exec(child)).Some?
      && var w2 := Do(w1, Exec(child)).value;
      && Do(w2, Exit(pid)).Some?
      && var w3 := Do(w2, Exit(pid)).value;
      && (o in w3.ofds <==> Fd(pid, o, true) in w.fds)
      && (o in w3.ofds ==> w3.ofds[o] == w.ofds[o] && Fd(child, o, true) in w3.fds)
  {
    var w1 := Do(w, Fork(pid, child)).value;
    var w2 := Do(w1, Exec(child)).value;
    var w3 := Do(w2, Exit(pid)).value;
    if Fd(pid, o, true) in w.fds {
      assert Fd(pid, o, true).(pid := child) == Fd(child, o, true);
      assert Fd(child, o, true) in w1.fds && Fd(child, o, true) in w2.fds && Fd(child, o, true) in w3.fds;
    }
    if o in w3.ofds {
      var f :| f in w3.fds && f.ofd == o;
      assert f in w1.fds && f.pid != pid && f !in w.fds;
      assert f.pid == child && f.inherit && f.(pid := pid) == Fd(pid, o, true);
    }
  }

  /** What release() comes to, for a guard with a description. */
  function Released(w: World, g: nat): World
    requires Stands(w, g, Held)
  {
    var x := w.guards[g];
    var ofds := if x.disowned then w.ofds else w.ofds[x.ofd := w.ofds[x.ofd].(locked := false)];
    var fds := Closed(w.fds, x.pid, x.ofd);
    Moved(w, g, Done).(held := w.held - MarkOf(x), fds := fds, ofds := Reaped(ofds, fds))
  }

  lemma ReleaseIsThreeSteps(w: World, g: nat)
    requires Stands(w, g, Held) && DoUnregister(w, g).Some?
    ensures var w1 := DoUnregister(w, g).value;
      && DoUnlock(w1, g).Some? && DoClose(DoUnlock(w1, g).value, g) == Some(Released(w, g))
  {
    var w1 := DoUnregister(w, g).value;
    var w2 := DoUnlock(w1, g).value;
    assert DoClose(w2, g).value.guards == Released(w, g).guards;
  }

  /** release() of a guard whose description another process has inherited
      leaves the lock on exactly if it was disowned first. A release that
      comes between the fork and disown() takes the lock from the session
      that was just started. */
  lemma ReleaseSparesHeirsIff(es: seq<Event>, g: nat, heir: Fd)
    requires Run(BOOT, es).Some?
    requires var w := Run(BOOT, es).value;
      Stands(w, g, Held) && heir in w.fds && heir.ofd == w.guards[g].ofd && heir.pid != w.guards[g].pid && DoUnregister(w, g).Some?
    ensures var w := Run(BOOT, es).value;
      var r := Run(w, [Unregister(g), Unlock(g), Close(g)]);
      r.Some? && heir.ofd in r.value.ofds && (r.value.ofds[heir.ofd].locked <==> w.guards[g].disowned)
  {
    var w := Run(BOOT, es).value;
    RunKeeps(es);
    assert GuardOk(w, g);
    ReleaseIsThreeSteps(w, g);
    RunOfThree(w, Unregister(g), Unlock(g), Close(g));
    assert heir in Released(w, g).fds;
  }

  lemma RunOfThree(w: World, a: Event, b: Event, c: Event)
    ensures Run(w, [a, b, c]) ==
      if Do(w, a).None? then None
      else if Do(Do(w, a).value, b).None? then None
      else Do(Do(Do(w, a).value, b).value, c)
  {
    var all := [a, b, c];
    assert all[..2] == [a, b] && all[..2][..1] == [a] && all[..2][..1][..0] == [];
    assert Run(w, all[..2][..1]) == Do(w, a);
    assert Run(w, all[..2]) == if Do(w, a).None? then None else Do(Do(w, a).value, b);
  }

  // -------------------------------------------------------------------------
  // _FlockBase, undisturbed
  // -------------------------------------------------------------------------

  class Machine {
    var w: World

    constructor ()
      ensures w == BOOT
    {
      w := BOOT;
    }
  }

  /** Is some lock on the file in the way? */
  ghost predicate Blocked(w: World, path: string, mode: Mode) {
    exists o :: o in w.ofds && Rivals(w.ofds[o], Ofd(path, mode, false))
  }

  /** A lock object of the process pid, with no other process in between. */
  class FlockBase {
    const m: Machine
    const pid: nat
    const g: nat
    const path: string
    const mode: Mode
    const inheritable: bool

    constructor (m: Machine, pid: nat, g: nat, path: string, mode: Mode, inheritable: bool)
      requires inheritable ==> mode.Shared?
      ensures this.m == m && this.pid == pid && this.g == g && this.path == path && this.mode == mode && this.inheritable == inheritable
    {
      this.m, this.pid, this.g, this.path, this.mode, this.inheritable := m, pid, g, path, mode, inheritable;
    }

    /** Refused exactly when someone else's lock is in the way and this process
        does not hold the path exclusively; and then nothing has changed, the
        holder's line included. */
    method Acquire() returns (ok: bool)
      requires Inv(m.w) && pid in m.w.procs && m.w.procs[pid] && g !in m.w.guards && (inheritable ==> mode.Shared?)
      modifies m
      ensures Inv(m.w)
      ensures ok <==> Mark(pid, path) in old(m.w.held) || AllShared(old(m.w), path, mode)
      ensures ok ==> g in m.w.guards && m.w.guards[g].phase.Held? && (m.w.guards[g].reentrant <==> Mark(pid, path) in old(m.w.held))
      ensures ok && mode.Exclusive? ==> Mark(pid, path) in m.w.held
      ensures !ok ==> m.w.held == old(m.w.held) && m.w.fds == old(m.w.fds) && m.w.ofds == old(m.w.ofds) && m.w.lines == old(m.w.lines)
    {
      BeginKeeps(m.w, pid, g, path, mode, inheritable);
      ghost var was := m.w;
      BlockedUnlessShared(was, path, mode);
      hide Blocked, AllShared, Rivals;
      m.w := DoBegin(m.w, pid, g, path, mode, inheritable).value;
      if m.w.guards[g].reentrant {
        return true;
      }
      BlockedIsConflict(was, m.w, path, mode, was.next);
      OpenedAndClosed(was, m.w, Fd(pid, was.next, inheritable), Ofd(path, mode, false));
      ok := TakeLock();
    }

    /** flock, then the line, then the record. */
    method TakeLock() returns (ok: bool)
      requires Inv(m.w) && Stands(m.w, g, Opened) && m.w.guards[g].pid == pid && m.w.guards[g].path == path && m.w.guards[g].mode == mode
      modifies m
      ensures Inv(m.w)
      ensures ok <==> !old(Conflicts(m.w, m.w.guards[g].ofd))
      ensures ok ==> Stands(m.w, g, Held) && (mode.Exclusive? ==> Mark(pid, path) in m.w.held)
      ensures !ok ==> m.w.held == old(m.w.held) && m.w.lines == old(m.w.lines)
      ensures !ok ==> m.w.fds == old(Closed(m.w.fds, pid, m.w.guards[g].ofd)) && m.w.ofds == Reaped(old(m.w.ofds), m.w.fds)
    {
      FlockKeeps(m.w, g);
      m.w := DoFlock(m.w, g).value;
      if m.w.guards[g].phase.Done? {
        return false;
      }
      WriteLineKeeps(m.w, g);
      m.w := DoWriteLine(m.w, g).value;
      RegisterKeeps(m.w, g);
      m.w := DoRegister(m.w, g).value;
      ok := true;
    }

    method Disown()
      requires Inv(m.w) && Stands(m.w, g, Held)
      modifies m
      ensures Inv(m.w) && Stands(m.w, g, Held) && m.w.guards[g].disowned
      ensures m.w.held == old(m.w.held) && m.w.fds == old(m.w.fds) && m.w.ofds == old(m.w.ofds)
    {
      DisownKeeps(m.w, g);
      m.w := DoDisown(m.w, g).value;
    }

    /** A re-entrant guard leaves everything as it is. Any other gives up its
        mark and its descriptor; the lock itself outlives it only if it was
        disowned and someone else has the description open. */
    method Release()
      requires Inv(m.w) && g in m.w.guards && m.w.guards[g].phase.Held? && DoUnregister(m.w, g).Some?
      modifies m
      ensures Inv(m.w)
      ensures m.w == if old(m.w.guards[g].reentrant) then Moved(old(m.w), g, Done) else Released(old(m.w), g)
    {
      assert GuardOk(m.w, g);
      UnregisterKeeps(m.w, g);
      if m.w.guards[g].reentrant {
        m.w := DoUnregister(m.w, g).value;
        return;
      }
      ReleaseIsThreeSteps(m.w, g);
      m.w := DoUnregister(m.w, g).value;
      UnlockKeeps(m.w, g);
      m.w := DoUnlock(m.w, g).value;
      CloseKeeps(m.w, g);
      m.w := DoClose(m.w, g).value;
    }
  }

  /** A description that is opened and closed again leaves no trace. */
  lemma OpenedAndClosed(w: World, w': World, f: Fd, x: Ofd)
    requires Descriptions(w) && f.ofd == w.next && w'.fds == w.fds + {f} && w'.ofds == w.ofds[w.next := x]
    ensures Closed(w'.fds, f.pid, f.ofd) == w.fds && Reaped(w'.ofds, w.fds) == w.ofds
  {
    forall h | h in w.fds
      ensures h.ofd != w.next
    {
      assert FdOk(w, h);
    }
  }

  lemma BlockedIsConflict(w: World, w': World, path: string, mode: Mode, o: nat)
    requires Descriptions(w) && o == w.next && w'.ofds == w.ofds[o := Ofd(path, mode, false)]
    ensures Conflicts(w', o) <==> Blocked(w, path, mode)
  {
    if Blocked(w, path, mode) {
      var a :| a in w.ofds && Rivals(w.ofds[a], Ofd(path, mode, false));
      assert a != o && Rivals(w'.ofds[a], w'.ofds[o]);
    }
    if Conflicts(w', o) {
      var a :| a in w'.ofds && a != o && Rivals(w'.ofds[a], w'.ofds[o]);
      assert Rivals(w.ofds[a], Ofd(path, mode, false));
    }
  }
}
