/** The session registry: one locked file a session, published by a rename,
    probed and pruned by readers that run at the same time as everything
    else. One event is one system call. */
module Sessions {
  import opened Names
  import opened Resolver
  import opened Trees

  // -------------------------------------------------------------------------
  // <pid>.json
  // -------------------------------------------------------------------------

  const SUFFIX := ".json"

  predicate IsDigit(c: char) {
    '0' <= c <= '9'
  }

  /** str(n) */
  function Decimal(n: nat): (s: string)
    ensures s != "" && forall i :: 0 <= i < |s| ==> IsDigit(s[i])
  {
    (if n < 10 then "" else Decimal(n / 10)) + [('0' as int + n % 10) as char]
  }

  /** int(s) */
  function Value(s: string): nat
    requires forall i :: 0 <= i < |s| ==> IsDigit(s[i])
  {
    if s == "" then 0
    else
      assert IsDigit(s[|s| - 1]);
      Value(s[..|s| - 1]) * 10 + (s[|s| - 1] as int - '0' as int)
  }

  lemma {:induction false} ValueOfDecimal(n: nat)
    ensures Value(Decimal(n)) == n
  {
    var s := Decimal(n);
    if n >= 10 {
      ValueOfDecimal(n / 10);
      assert s[..|s| - 1] == Decimal(n / 10);
    } else {
      assert s[..|s| - 1] == "";
    }
  }

  function FileName(pid: nat): string {
    Decimal(pid) + SUFFIX
  }

  /** _record_pid: only the canonical spelling counts. */
  function RecordPid(name: string): Option<nat> {
    if |name| < |SUFFIX| || name[|name| - |SUFFIX|..] != SUFFIX then None
    else
      var stem := name[..|name| - |SUFFIX|];
      if stem == "" || exists i :: 0 <= i < |stem| && !IsDigit(stem[i]) then None
      else
        var pid := Value(stem);
        if pid == 0 || Decimal(pid) != stem then None else Some(pid)
  }

  /** A name registers a process exactly when it is that process's name. */
  lemma RecordPidExactly(name: string, pid: nat)
    ensures RecordPid(name) == Some(pid) <==> pid > 0 && name == FileName(pid)
  {
    ValueOfDecimal(pid);
    hide Decimal, Value;
    if name == FileName(pid) {
      assert name[|name| - |SUFFIX|..] == SUFFIX && name[..|name| - |SUFFIX|] == Decimal(pid);
    }
    if RecordPid(name) == Some(pid) {
      assert name == name[..|name| - |SUFFIX|] + name[|name| - |SUFFIX|..];
    }
  }

  // -------------------------------------------------------------------------
  // What a record says
  // -------------------------------------------------------------------------

  datatype Key = Pid | Container | Kind | Command | User | StartTime | Isolated | Minimal | Detach | Unknown(name: string)

  datatype Json = Null | Bool(b: bool) | Int(n: int) | Float(r: real) | NotFinite | Str(s: string) | List(items: seq<Json>) | Obj(fields: map<Key, Json>)

  datatype Record = Record(pid: nat, container: string, kind: string, command: seq<string>, user: string, startTime: real,
                           isolated: bool, minimal: bool, detach: bool)

  const KINDS := ["login", "run"]

  /** The payload register_session() writes. */
  function Payload(r: Record): Json {
    Obj(map[Pid := Int(r.pid), Container := Str(r.container), Kind := Str(r.kind),
            Command := List(Strings(r.command)), User := Str(r.user), StartTime := Float(r.startTime),
            Isolated := Bool(r.isolated), Minimal := Bool(r.minimal), Detach := Bool(r.detach)])
  }

  function Strings(ss: seq<string>): seq<Json> {
    seq(|ss|, i requires 0 <= i < |ss| => Str(ss[i]))
  }

  function Get(d: Json, key: Key): Option<Json> {
    if d.Obj? && key in d.fields then Some(d.fields[key]) else None
  }

  function Flag(d: Json, key: Key): Option<bool> {
    match Get(d, key)
    case None => Some(false)
    case Some(Bool(b)) => Some(b)
    case Some(_) => None
  }

  predicate AllStrings(items: seq<Json>) {
    forall i :: 0 <= i < |items| ==> items[i].Str?
  }

  function Texts(items: seq<Json>): seq<string>
    requires AllStrings(items)
  {
    seq(|items|, i requires 0 <= i < |items| => items[i].s)
  }

  /** _validate_record */
  function ValidateRecord(d: Json, pid: nat): Option<Record> {
    match (Get(d, Pid), Get(d, Container), Get(d, Kind), Get(d, User), Get(d, Command))
    case (Some(Int(n)), Some(Str(container)), Some(Str(kind)), Some(Str(user)), Some(List(items))) =>
      var start := match Get(d, StartTime)
                   case Some(Int(t)) => Some(t as real)
                   case Some(Float(t)) => Some(t)
                   case _ => None;
      var isolated, minimal, detach := Flag(d, Isolated), Flag(d, Minimal), Flag(d, Detach);
      if n != pid || !IsContainerName(container) || kind !in KINDS || !AllStrings(items) || start.None?
         || isolated.None? || minimal.None? || detach.None? then None
      else Some(Record(pid, container, kind, Texts(items), user, start.value, isolated.value, minimal.value, detach.value))
    case _ => None
  }

  /** What a session writes about itself is read back as it was, under its own
      name and no other; and whatever is accepted speaks for that name. */
  lemma ValidateInvertsPayload(r: Record, pid: nat)
    requires IsContainerName(r.container) && r.kind in KINDS
    ensures ValidateRecord(Payload(r), pid) == if pid == r.pid then Some(r) else None
  {
    hide IsContainerName;
    CommandComesBack(r.command);
    hide Texts, Strings, AllStrings;
  }

  lemma CommandComesBack(command: seq<string>)
    ensures AllStrings(Strings(command)) && Texts(Strings(command)) == command
  {
  }

  /** A flag is as stored, and off where it is lacking, as in older records. */
  predicate FlagStored(d: Json, key: Key, b: bool) {
    d.Obj? && if key in d.fields then d.fields[key] == Bool(b) else !b
  }

  predicate Stored(d: Json, key: Key, j: Json) {
    d.Obj? && key in d.fields && d.fields[key] == j
  }

  /** Exactly which records are accepted, and what is made of them: a start
      time may be a whole number, flags may be lacking, and keys there is no
      use for do not matter. */
  lemma AcceptedExactly(d: Json, pid: nat, r: Record)
    ensures ValidateRecord(d, pid) == Some(r) <==>
      && r.pid == pid && IsContainerName(r.container) && r.kind in KINDS
      && Stored(d, Pid, Int(pid)) && Stored(d, Container, Str(r.container)) && Stored(d, Kind, Str(r.kind))
      && Stored(d, User, Str(r.user)) && Stored(d, Command, List(Strings(r.command)))
      && (Stored(d, StartTime, Float(r.startTime)) || exists t: int :: t as real == r.startTime && Stored(d, StartTime, Int(t)))
      && FlagStored(d, Isolated, r.isolated) && FlagStored(d, Minimal, r.minimal) && FlagStored(d, Detach, r.detach)
  {
    hide IsContainerName;
    CommandComesBack(r.command);
    if ValidateRecord(d, pid).Some? && d.Obj? && Command in d.fields && d.fields[Command].List? {
      TextsComeBack(d.fields[Command].items);
    }
    hide Texts, Strings, AllStrings;
  }

  lemma TextsComeBack(items: seq<Json>)
    ensures AllStrings(items) ==> Strings(Texts(items)) == items
  {
  }

  lemma AcceptedSpeaksForItsName(d: Json, pid: nat)
    requires ValidateRecord(d, pid).Some?
    ensures var r := ValidateRecord(d, pid).value; r.pid == pid && IsContainerName(r.container) && r.kind in KINDS
  {
  }

  // -------------------------------------------------------------------------
  // The registry, one system call at a time
  // -------------------------------------------------------------------------

  /** A record's file: what it holds, whether it has yet to be locked, the
      processes its description is open in, and the shared probes on it. */
  datatype Node = Node(content: Option<Json>, isNew: bool, holders: set<nat>, probes: set<nat>)

  /** How far _register_at has got. */
  datatype Stage = Created(ino: nat) | Locked(ino: nat) | Wrote(ino: nat) | Published(ino: nat)

  /** How far active_sessions has got with a name. */
  datatype Look =
    | Reading(name: string, seen: Option<Json>)
    | Probing(name: string, seen: Option<Json>, ino: nat)
    | Sharing(name: string, ino: nat)
    | FoundDead(name: string, probed: Option<nat>)
    | FoundAlive(name: string, seen: Option<Json>, ino: nat)

  /** dir: the names readers look at (temporary ones start with a dot). */
  datatype World = World(live: set<nat>, dir: map<string, nat>, nodes: map<nat, Node>, next: nat,
                         regs: map<nat, Stage>, looks: map<nat, Look>)

  datatype Event =
    | Spawn(pid: nat)
    | Create(pid: nat)
    | Lock(pid: nat)
    | Write(pid: nat, payload: Json)
    | Publish(pid: nat)
    | Abandon(pid: nat)
    | Fork(pid: nat, child: nat)
    | Exit(pid: nat)
    | Read(pid: nat, name: string)
    | ReadFails(pid: nat, name: string)
    | Open(pid: nat)
    | OpenFails(pid: nat)
    | Probe(pid: nat)
    | Unprobe(pid: nat)
    | Prune(pid: nat)
    | Report(pid: nat)

  /** What register_session() can write, in the process pid. */
  type Writable = (Json, nat) -> bool

  const WRITABLE: Writable := (c: Json, pid: nat) =>
    pid > 0 && ValidateRecord(c, pid).Some? && c == Payload(ValidateRecord(c, pid).value)

  /** The flock is on as long as its description is open anywhere. */
  predicate IsLocked(n: Node) {
    !n.isNew && n.holders != {}
  }

  predicate At(w: World, pid: nat) {
    pid in w.live && pid in w.regs && w.regs[pid].ino in w.nodes
  }

  function WithNode(w: World, i: nat, n: Node): World {
    w.(nodes := w.nodes[i := n])
  }

  function DoCreate(w: World, pid: nat): Option<World> {
    if pid !in w.live || pid in w.regs then None
    else Some(w.(nodes := w.nodes[w.next := Node(None, true, {pid}, {})], next := w.next + 1, regs := w.regs[pid := Created(w.next)]))
  }

  function DoLock(w: World, pid: nat): Option<World> {
    if !At(w, pid) || !w.regs[pid].Created? || w.nodes[w.regs[pid].ino].probes != {} then None
    else
      var i := w.regs[pid].ino;
      Some(WithNode(w, i, w.nodes[i].(isNew := false)).(regs := w.regs[pid := Locked(i)]))
  }

  function DoWrite(w: World, pid: nat, c: Json, ok: Writable): Option<World> {
    if !At(w, pid) || !w.regs[pid].Locked? || !ok(c, pid) then None
    else
      var i := w.regs[pid].ino;
      Some(WithNode(w, i, w.nodes[i].(content := Some(c))).(regs := w.regs[pid := Wrote(i)]))
  }

  /** rename(2): the record appears complete, or replaces a stale one. */
  function DoPublish(w: World, pid: nat): Option<World> {
    if !At(w, pid) || !w.regs[pid].Wrote? then None
    else Some(w.(dir := w.dir[FileName(pid) := w.regs[pid].ino], regs := w.regs[pid := Published(w.regs[pid].ino)]))
  }

  function DoAbandon(w: World, pid: nat): Option<World> {
    if !At(w, pid) || w.regs[pid].Published? then None
    else
      var i := w.regs[pid].ino;
      Some(WithNode(w, i, w.nodes[i].(holders := w.nodes[i].holders - {pid})).(regs := w.regs - {pid}))
  }

  /** Every descriptor is inherited, and survives the exec too. */
  function DoFork(w: World, pid: nat, child: nat): Option<World> {
    if pid !in w.live || child in w.live then None
    else
      Some(w.(live := w.live + {child},
              nodes := map i | i in w.nodes :: if pid in w.nodes[i].holders then w.nodes[i].(holders := w.nodes[i].holders + {child}) else w.nodes[i]))
  }

  function DoExit(w: World, pid: nat): Option<World> {
    if pid !in w.live then None
    else
      Some(w.(live := w.live - {pid},
              nodes := map i | i in w.nodes :: w.nodes[i].(holders := w.nodes[i].holders - {pid}, probes := w.nodes[i].probes - {pid}),
              regs := w.regs - {pid}, looks := w.looks - {pid}))
  }

  function DoRead(w: World, pid: nat, name: string): Option<World> {
    if pid !in w.live || pid in w.looks then None
    else
      var seen := if name in w.dir && w.dir[name] in w.nodes then w.nodes[w.dir[name]].content else None;
      Some(w.(looks := w.looks[pid := Reading(name, seen)]))
  }

  function DoOpen(w: World, pid: nat): Option<World> {
    if pid !in w.looks || !w.looks[pid].Reading? then None
    else
      var l := w.looks[pid];
      Some(w.(looks := w.looks[pid := if l.name in w.dir then Probing(l.name, l.seen, w.dir[l.name]) else FoundDead(l.name, None)]))
  }

  /** For want of a descriptor, say: the record counts as unreadable. */
  function DoReadFails(w: World, pid: nat, name: string): Option<World> {
    if pid !in w.live || pid in w.looks then None else Some(w.(looks := w.looks[pid := Reading(name, None)]))
  }

  /** And the session as dead, whatever has the name. */
  function DoOpenFails(w: World, pid: nat): Option<World> {
    if pid !in w.looks || !w.looks[pid].Reading? then None
    else Some(w.(looks := w.looks[pid := FoundDead(w.looks[pid].name, None)]))
  }

  /** flock(LOCK_SH | LOCK_NB) */
  function DoProbe(w: World, pid: nat): Option<World> {
    if pid !in w.looks || !w.looks[pid].Probing? || w.looks[pid].ino !in w.nodes then None
    else
      var l := w.looks[pid];
      var n := w.nodes[l.ino];
      if IsLocked(n) then Some(w.(looks := w.looks[pid := FoundAlive(l.name, l.seen, l.ino)]))
      else Some(WithNode(w, l.ino, n.(probes := n.probes + {pid})).(looks := w.looks[pid := Sharing(l.name, l.ino)]))
  }

  function DoUnprobe(w: World, pid: nat): Option<World> {
    if pid !in w.looks || !w.looks[pid].Sharing? || w.looks[pid].ino !in w.nodes then None
    else
      var l := w.looks[pid];
      var n := w.nodes[l.ino];
      Some(WithNode(w, l.ino, n.(probes := n.probes - {pid})).(looks := w.looks[pid := FoundDead(l.name, Some(l.ino))]))
  }

  /** unlink_quietly: whatever has the name by now. */
  function DoPrune(w: World, pid: nat): Option<World> {
    if pid !in w.looks || !w.looks[pid].FoundDead? then None
    else Some(w.(dir := w.dir - {w.looks[pid].name}, looks := w.looks - {pid}))
  }

  function DoReport(w: World, pid: nat): Option<World> {
    if pid !in w.looks || !w.looks[pid].FoundAlive? then None else Some(w.(looks := w.looks - {pid}))
  }

  /** What a Report adds to the list, if anything. */
  function Reported(l: Look): Option<Record>
    requires l.FoundAlive?
  {
    var pid := RecordPid(l.name);
    if pid.Some? && l.seen.Some? then ValidateRecord(l.seen.value, pid.value) else None
  }

  function Do(w: World, e: Event, ok: Writable): Option<World> {
    match e
    case Spawn(pid) => if pid in w.live then None else Some(w.(live := w.live + {pid}))
    case Create(pid) => DoCreate(w, pid)
    case Lock(pid) => DoLock(w, pid)
    case Write(pid, c) => DoWrite(w, pid, c, ok)
    case Publish(pid) => DoPublish(w, pid)
    case Abandon(pid) => DoAbandon(w, pid)
    case Fork(pid, child) => DoFork(w, pid, child)
    case Exit(pid) => DoExit(w, pid)
    case Read(pid, name) => DoRead(w, pid, name)
    case ReadFails(pid, name) => DoReadFails(w, pid, name)
    case Open(pid) => DoOpen(w, pid)
    case OpenFails(pid) => DoOpenFails(w, pid)
    case Probe(pid) => DoProbe(w, pid)
    case Unprobe(pid) => DoUnprobe(w, pid)
    case Prune(pid) => DoPrune(w, pid)
    case Report(pid) => DoReport(w, pid)
  }

  const BOOT := World({}, map[], map[], 0, map[], map[])

  function Run(w: World, es: seq<Event>, ok: Writable): Option<World> {
    if es == [] then Some(w)
    else
      var up := Run(w, es[..|es| - 1], ok);
      if up.None? then None else Do(up.value, es[|es| - 1], ok)
  }

  // -------------------------------------------------------------------------
  // What every step keeps
  // -------------------------------------------------------------------------

  /** Locked, and complete as the process wrote it. */
  ghost predicate Complete(n: Node, pid: nat, ok: Writable) {
    !n.isNew && n.content.Some? && ok(n.content.value, pid)
  }

  ghost predicate NodeOk(w: World, i: nat)
    requires i in w.nodes
  {
    var n := w.nodes[i];
    i < w.next && n.holders <= w.live && (n.isNew ==> n.probes == {}) && (n.probes != {} ==> n.holders == {})
  }

  ghost predicate RegOk(w: World, pid: nat, ok: Writable)
    requires pid in w.regs
  {
    var i := w.regs[pid].ino;
    && pid in w.live && i in w.nodes && pid in w.nodes[i].holders
    && (w.nodes[i].isNew <==> w.regs[pid].Created?)
    && (w.regs[pid].Wrote? ==> Complete(w.nodes[i], pid, ok))
  }

  ghost predicate LookOk(w: World, pid: nat)
    requires pid in w.looks
  {
    match w.looks[pid]
    case Probing(_, _, i) => i in w.nodes && !w.nodes[i].isNew
    case Sharing(_, i) => i in w.nodes && pid in w.nodes[i].probes
    case FoundDead(_, Some(i)) => i in w.nodes && !w.nodes[i].isNew && w.nodes[i].holders == {}
    case _ => true
  }

  ghost predicate NameOk(w: World, name: string, ok: Writable)
    requires name in w.dir
  {
    && w.dir[name] in w.nodes && !w.nodes[w.dir[name]].isNew
    && exists pid :: name == FileName(pid) && Complete(w.nodes[w.dir[name]], pid, ok)
  }

  /** Until it is published, a file is its registrar's alone. */
  ghost predicate Unseen(w: World, pid: nat)
    requires pid in w.regs
  {
    !w.regs[pid].Published? ==> forall name :: name in w.dir ==> w.dir[name] != w.regs[pid].ino
  }

  ghost predicate Inv(w: World, ok: Writable) {
    && (forall i :: i in w.nodes ==> NodeOk(w, i))
    && (forall p :: p in w.regs ==> RegOk(w, p, ok) && Unseen(w, p))
    && (forall p, q :: p in w.regs && q in w.regs && w.regs[p].ino == w.regs[q].ino ==> p == q)
    && (forall p :: p in w.looks ==> LookOk(w, p))
    && (forall name :: name in w.dir ==> NameOk(w, name, ok))
  }

  ghost predicate SameFile(w: World, w': World, i: nat) {
    i in w'.nodes && (i in w.nodes ==> w'.nodes[i].isNew == w.nodes[i].isNew && w'.nodes[i].content == w.nodes[i].content)
  }

  /** Names stay good as long as the files behind them do. */
  lemma NamesKept(w: World, w': World, ok: Writable)
    requires forall name :: name in w.dir ==> NameOk(w, name, ok)
    requires forall name :: name in w'.dir ==> name in w.dir && w'.dir[name] == w.dir[name] && SameFile(w, w', w.dir[name])
    ensures forall name :: name in w'.dir ==> NameOk(w', name, ok)
  {
    forall name | name in w'.dir
      ensures NameOk(w', name, ok)
    {
      assert NameOk(w, name, ok);
      var pid :| name == FileName(pid) && Complete(w.nodes[w.dir[name]], pid, ok);
      assert Complete(w'.nodes[w'.dir[name]], pid, ok);
    }
  }

  lemma CreateKeeps(w: World, pid: nat, ok: Writable)
    requires Inv(w, ok) && DoCreate(w, pid).Some?
    ensures Inv(DoCreate(w, pid).value, ok)
  {
    var w' := DoCreate(w, pid).value;
    NamesKept(w, w', ok);
    CreatedIsNew(w, pid, ok);
    hide NameOk, Complete, FileName, RegOk, Unseen, LookOk, NodeOk;
  }

  lemma CreatedIsNew(w: World, pid: nat, ok: Writable)
    requires Inv(w, ok) && DoCreate(w, pid).Some?
    ensures var w' := DoCreate(w, pid).value;
      && (forall i :: i in w'.nodes ==> NodeOk(w', i))
      && (forall p :: p in w'.regs ==> RegOk(w', p, ok) && Unseen(w', p))
      && (forall p, q :: p in w'.regs && q in w'.regs && w'.regs[p].ino == w'.regs[q].ino ==> p == q)
      && (forall p :: p in w'.looks ==> LookOk(w', p))
  {
    var w' := DoCreate(w, pid).value;
    assert w.next !in w.nodes by {
      assert w.next in w.nodes ==> NodeOk(w, w.next);
    }
    forall p | p in w.regs
      ensures w.regs[p].ino != w.next && RegOk(w', p, ok) && Unseen(w', p)
    {
      assert RegOk(w, p, ok) && Unseen(w, p);
    }
    forall name | name in w.dir
      ensures w.dir[name] != w.next
    {
      assert NameOk(w, name, ok);
    }
    hide NameOk, Complete, FileName;
    forall i | i in w'.nodes
      ensures NodeOk(w', i)
    {
      assert i in w.nodes ==> NodeOk(w, i);
    }
    forall p | p in w'.looks
      ensures LookOk(w', p)
    {
      assert LookOk(w, p);
    }
  }

  lemma LockKeeps(w: World, pid: nat, ok: Writable)
    requires Inv(w, ok) && DoLock(w, pid).Some?
    ensures Inv(DoLock(w, pid).value, ok)
  {
    assert RegOk(w, pid, ok) && Unseen(w, pid);
    hide NameOk, FileName, Complete;
    NamesKept(w, DoLock(w, pid).value, ok);
  }

  lemma WriteKeeps(w: World, pid: nat, c: Json, ok: Writable)
    requires Inv(w, ok) && DoWrite(w, pid, c, ok).Some?
    ensures Inv(DoWrite(w, pid, c, ok).value, ok)
  {
    NamesKept(w, DoWrite(w, pid, c, ok).value, ok);
  }

  lemma PublishKeeps(w: World, pid: nat, ok: Writable)
    requires Inv(w, ok) && DoPublish(w, pid).Some?
    ensures Inv(DoPublish(w, pid).value, ok)
  {
  }

  lemma AbandonKeeps(w: World, pid: nat, ok: Writable)
    requires Inv(w, ok) && DoAbandon(w, pid).Some?
    ensures Inv(DoAbandon(w, pid).value, ok)
  {
    NamesKept(w, DoAbandon(w, pid).value, ok);
  }

  lemma ForkKeeps(w: World, pid: nat, child: nat, ok: Writable)
    requires Inv(w, ok) && DoFork(w, pid, child).Some?
    ensures Inv(DoFork(w, pid, child).value, ok)
  {
    NamesKept(w, DoFork(w, pid, child).value, ok);
    hide NameOk, Complete, FileName;
  }

  lemma ExitKeeps(w: World, pid: nat, ok: Writable)
    requires Inv(w, ok) && DoExit(w, pid).Some?
    ensures Inv(DoExit(w, pid).value, ok)
  {
    NamesKept(w, DoExit(w, pid).value, ok);
  }

  lemma ReadKeeps(w: World, pid: nat, name: string, ok: Writable)
    requires Inv(w, ok) && DoRead(w, pid, name).Some?
    ensures Inv(DoRead(w, pid, name).value, ok)
  {
  }

  lemma ReadFailsKeeps(w: World, pid: nat, name: string, ok: Writable)
    requires Inv(w, ok) && DoReadFails(w, pid, name).Some?
    ensures Inv(DoReadFails(w, pid, name).value, ok)
  {
  }

  lemma OpenFailsKeeps(w: World, pid: nat, ok: Writable)
    requires Inv(w, ok) && DoOpenFails(w, pid).Some?
    ensures Inv(DoOpenFails(w, pid).value, ok)
  {
  }

  lemma OpenKeeps(w: World, pid: nat, ok: Writable)
    requires Inv(w, ok) && DoOpen(w, pid).Some?
    ensures Inv(DoOpen(w, pid).value, ok)
  {
  }

  /** One more shared lock on a file no process holds. */
  lemma SharedKeeps(w: World, pid: nat, i: nat, next: Look, ok: Writable)
    requires Inv(w, ok) && pid in w.looks && w.looks[pid].Probing? && i in w.nodes && !w.nodes[i].isNew && w.nodes[i].holders == {}
    requires next.Sharing? && next.ino == i
    ensures Inv(WithNode(w, i, w.nodes[i].(probes := w.nodes[i].probes + {pid})).(looks := w.looks[pid := next]), ok)
  {
    var w' := WithNode(w, i, w.nodes[i].(probes := w.nodes[i].probes + {pid})).(looks := w.looks[pid := next]);
    NamesKept(w, w', ok);
    assert forall j :: j in w'.nodes ==> NodeOk(w', j);
    assert forall p :: p in w'.looks ==> LookOk(w', p);
  }

  lemma ProbeKeeps(w: World, pid: nat, ok: Writable)
    requires Inv(w, ok) && DoProbe(w, pid).Some?
    ensures Inv(DoProbe(w, pid).value, ok)
  {
    var l := w.looks[pid];
    assert NodeOk(w, l.ino) && LookOk(w, pid);
    if !IsLocked(w.nodes[l.ino]) {
      SharedKeeps(w, pid, l.ino, Sharing(l.name, l.ino), ok);
    }
  }

  lemma UnprobeKeeps(w: World, pid: nat, ok: Writable)
    requires Inv(w, ok) && DoUnprobe(w, pid).Some?
    ensures Inv(DoUnprobe(w, pid).value, ok)
  {
    NamesKept(w, DoUnprobe(w, pid).value, ok);
  }

  lemma PruneKeeps(w: World, pid: nat, ok: Writable)
    requires Inv(w, ok) && DoPrune(w, pid).Some?
    ensures Inv(DoPrune(w, pid).value, ok)
  {
  }

  lemma SpawnKeeps(w: World, pid: nat, ok: Writable)
    requires Inv(w, ok)
    ensures Inv(w.(live := w.live + {pid}), ok)
  {
  }

  lemma ReportKeeps(w: World, pid: nat, ok: Writable)
    requires Inv(w, ok) && DoReport(w, pid).Some?
    ensures Inv(DoReport(w, pid).value, ok)
  {
  }

  lemma StepKeeps(w: World, e: Event, ok: Writable)
    requires Inv(w, ok) && Do(w, e, ok).Some?
    ensures Inv(Do(w, e, ok).value, ok)
  {
    hide Inv, DoCreate, DoLock, DoWrite, DoPublish, DoAbandon, DoFork, DoExit, DoRead, DoReadFails, DoOpen,
      DoOpenFails, DoProbe, DoUnprobe, DoPrune, DoReport;
    match e
    case Spawn(pid) => SpawnKeeps(w, pid, ok);
    case Report(pid) => ReportKeeps(w, pid, ok);
    case Create(pid) => CreateKeeps(w, pid, ok);
    case Lock(pid) => LockKeeps(w, pid, ok);
    case Write(pid, c) => WriteKeeps(w, pid, c, ok);
    case Publish(pid) => PublishKeeps(w, pid, ok);
    case Abandon(pid) => AbandonKeeps(w, pid, ok);
    case Fork(pid, child) => ForkKeeps(w, pid, child, ok);
    case Exit(pid) => ExitKeeps(w, pid, ok);
    case Read(pid, name) => ReadKeeps(w, pid, name, ok);
    case ReadFails(pid, name) => ReadFailsKeeps(w, pid, name, ok);
    case Open(pid) => OpenKeeps(w, pid, ok);
    case OpenFails(pid) => OpenFailsKeeps(w, pid, ok);
    case Probe(pid) => ProbeKeeps(w, pid, ok);
    case Unprobe(pid) => UnprobeKeeps(w, pid, ok);
    case Prune(pid) => PruneKeeps(w, pid, ok);
  }

  /** Over every run, however its events interleave. */
  lemma {:induction false} RunKeeps(es: seq<Event>, ok: Writable)
    requires Run(BOOT, es, ok).Some?
    ensures Inv(Run(BOOT, es, ok).value, ok)
    decreases |es|
  {
    if es != [] {
      RunKeeps(es[..|es| - 1], ok);
      StepKeeps(Run(BOOT, es[..|es| - 1], ok).value, es[|es| - 1], ok);
    }
  }

  // -------------------------------------------------------------------------
  // What the registry promises
  // -------------------------------------------------------------------------

  /** From the first state in which a name is visible, its file holds the
      whole record of the process it is named for, and is locked as long as
      any process of the session is left. */
  lemma VisibleIsCompleteAndLocked(es: seq<Event>, name: string) returns (pid: nat)
    requires Run(BOOT, es, WRITABLE).Some? && name in Run(BOOT, es, WRITABLE).value.dir
    ensures var w := Run(BOOT, es, WRITABLE).value;
      && name == FileName(pid) && RecordPid(name) == Some(pid) && w.dir[name] in w.nodes
      && w.nodes[w.dir[name]].content.Some? && ValidateRecord(w.nodes[w.dir[name]].content.value, pid).Some?
      && (IsLocked(w.nodes[w.dir[name]]) <==> w.nodes[w.dir[name]].holders != {})
  {
    RunKeeps(es, WRITABLE);
    var w := Run(BOOT, es, WRITABLE).value;
    assert NameOk(w, name, WRITABLE);
    pid :| name == FileName(pid) && Complete(w.nodes[w.dir[name]], pid, WRITABLE);
    RecordPidExactly(name, pid);
  }

  /** A probe finds a session alive exactly when one of its processes still
      is, however many other probes are going on. */
  lemma ProbesTellTheTruth(es: seq<Event>, pid: nat, ok: Writable)
    requires Run(BOOT, es, ok).Some? && DoProbe(Run(BOOT, es, ok).value, pid).Some?
    ensures var w := Run(BOOT, es, ok).value;
      DoProbe(w, pid).value.looks[pid].FoundAlive? <==> w.nodes[w.looks[pid].ino].holders != {}
  {
    RunKeeps(es, ok);
    assert LookOk(Run(BOOT, es, ok).value, pid);
  }

  /** Whatever is reported carries the process its file is named for. */
  lemma ReportsSpeakForTheirName(l: Look)
    requires l.FoundAlive? && Reported(l).Some?
    ensures l.name == FileName(Reported(l).value.pid) && Reported(l).value.pid > 0
  {
    var pid := RecordPid(l.name).value;
    AcceptedSpeaksForItsName(l.seen.value, pid);
    RecordPidExactly(l.name, pid);
  }

  /** The file a look has open; none if it was missing or would not open. */
  function Opened(l: Look): Option<nat> {
    match l
    case Probing(_, _, i) => Some(i)
    case Sharing(_, i) => Some(i)
    case FoundDead(_, probed) => probed
    case FoundAlive(_, _, i) => Some(i)
    case Reading(_, _) => None
  }

  predicate HasLive(w: World, name: string) {
    name in w.dir && w.dir[name] in w.nodes && w.nodes[w.dir[name]].holders != {}
  }

  /** A prune takes a live session's name away only when the name has come to
      lead to another file than the one that was probed, or none was. */
  lemma PruneLosesOnlyTheUnprobed(es: seq<Event>, pid: nat, ok: Writable)
    requires Run(BOOT, es, ok).Some? && DoPrune(Run(BOOT, es, ok).value, pid).Some?
    ensures var w := Run(BOOT, es, ok).value;
      HasLive(w, w.looks[pid].name) ==> w.looks[pid].probed != Some(w.dir[w.looks[pid].name])
  {
    RunKeeps(es, ok);
    assert LookOk(Run(BOOT, es, ok).value, pid);
  }

  /** Has the name only led, since it was opened, to what was found there? */
  ghost predicate Unreused(w: World, pid: nat) {
    pid in w.looks && !w.looks[pid].Reading? && (w.looks[pid].name in w.dir ==> Opened(w.looks[pid]) == Some(w.dir[w.looks[pid].name]))
  }

  /** No process of that name registers, and the reader stays with its look. */
  predicate LeavesAlone(e: Event, pid: nat, name: string) {
    && (e.Publish? ==> FileName(e.pid) != name)
    && !(e.pid == pid && (e.Prune? || e.Report? || e.Exit? || e.Read? || e.ReadFails?))
  }

  lemma {:induction false} NoReuseNoLoss(w: World, mid: seq<Event>, pid: nat, name: string, ok: Writable)
    requires Unreused(w, pid) && w.looks[pid].name == name && Run(w, mid, ok).Some?
    requires forall i :: 0 <= i < |mid| ==> LeavesAlone(mid[i], pid, name)
    ensures Unreused(Run(w, mid, ok).value, pid) && Run(w, mid, ok).value.looks[pid].name == name
    decreases |mid|
  {
    if mid != [] {
      NoReuseNoLoss(w, mid[..|mid| - 1], pid, name, ok);
      assert LeavesAlone(mid[|mid| - 1], pid, name);
    }
  }

  /** As long as no process registers under the name between a reader's open
      and its unlink, and the open does not fail though the name is there,
      the unlink takes no live session away. */
  lemma LiveSessionsAreNotPruned(first: seq<Event>, mid: seq<Event>, pid: nat, ok: Writable)
    requires EndsWithOpen(first, pid) && Run(BOOT, first + mid, ok).Some? && Run(BOOT, first, ok).Some?
    requires var w := Run(BOOT, first, ok).value;
      pid in w.looks && forall i :: 0 <= i < |mid| ==> LeavesAlone(mid[i], pid, w.looks[pid].name)
    requires DoPrune(Run(BOOT, first + mid, ok).value, pid).Some?
    ensures var w := Run(BOOT, first + mid, ok).value;
      !HasLive(w, w.looks[pid].name)
  {
    var w0 := Run(BOOT, first, ok).value;
    RunOfConcat(BOOT, first, mid, ok);
    NoReuseNoLoss(w0, mid, pid, w0.looks[pid].name, ok);
    PruneLosesOnlyTheUnprobed(first + mid, pid, ok);
  }

  /** An open that fails though the name is there does take one away, in
      whatever run it comes. */
  lemma OneFailedOpenIsEnough(es: seq<Event>, pid: nat, ok: Writable)
    requires Run(BOOT, es, ok).Some?
    requires var w := Run(BOOT, es, ok).value; pid in w.looks && w.looks[pid].Reading? && HasLive(w, w.looks[pid].name)
    ensures var name := Run(BOOT, es, ok).value.looks[pid].name;
      var r := Run(BOOT, es + [OpenFails(pid), Prune(pid)], ok);
      r.Some? && name !in r.value.dir && r.value.nodes == Run(BOOT, es, ok).value.nodes
  {
    var all := es + [OpenFails(pid), Prune(pid)];
    assert all[..|all| - 1] == es + [OpenFails(pid)];
    assert (es + [OpenFails(pid)])[..|es|] == es;
  }

  /** A session lives on in the processes its own started: in any run, when one
      of them forks and ends, the child holds the record in its place, and
      with the last one the session ends. */
  lemma SessionOutlivesItsProcess(es: seq<Event>, pid: nat, child: nat, name: string, ok: Writable)
    requires Run(BOOT, es, ok).Some?
    requires var w := Run(BOOT, es, ok).value;
      pid in w.live && child !in w.live && name in w.dir && w.dir[name] in w.nodes && pid in w.nodes[w.dir[name]].holders
    ensures var w := Run(BOOT, es, ok).value;
      var r := Run(w, [Fork(pid, child), Exit(pid)], ok);
      && r.Some? && name in r.value.dir && r.value.dir[name] == w.dir[name] && w.dir[name] in r.value.nodes
      && r.value.nodes[w.dir[name]].holders == w.nodes[w.dir[name]].holders - {pid} + {child}
      && HasLive(r.value, name)
      && Do(r.value, Exit(child), ok).Some?
      && (HasLive(Do(r.value, Exit(child), ok).value, name) <==> w.nodes[w.dir[name]].holders != {pid})
  {
    var w := Run(BOOT, es, ok).value;
    RunKeeps(es, ok);
    assert NameOk(w, name, ok) && NodeOk(w, w.dir[name]);
    var two := [Fork(pid, child), Exit(pid)];
    assert two[..1] == [Fork(pid, child)] && two[..1][..0] == [];
    assert Run(w, two[..1], ok) == Do(w, Fork(pid, child), ok);
    hide Inv;
  }

  /** A run that ends with the reader opening the name it looks at. */
  predicate EndsWithOpen(first: seq<Event>, pid: nat) {
    first != [] && first[|first| - 1] == Open(pid)
  }

  lemma {:induction false} RunOfConcat(w: World, a: seq<Event>, b: seq<Event>, ok: Writable)
    ensures Run(w, a + b, ok) == if Run(w, a, ok).None? then None else Run(Run(w, a, ok).value, b, ok)
    decreases |b|
  {
    if b == [] {
      assert a + b == a;
    } else {
      assert (a + b)[..|a + b| - 1] == a + b[..|b| - 1];
      RunOfConcat(w, a, b[..|b| - 1], ok);
    }
  }

  // -------------------------------------------------------------------------
  // active_sessions, undisturbed
  // -------------------------------------------------------------------------

  predicate Ignored(name: string) {
    (name != "" && name[0] == '.') || |name| < |SUFFIX| || name[|name| - |SUFFIX|..] != SUFFIX
  }

  /** Looked at are the names that end in ".json" and do not start with a dot. */
  lemma IgnoredExactly(name: string, stem: string)
    ensures name == stem + ".json" ==> (Ignored(name) <==> name[0] == '.')
    ensures !Ignored(name) ==> |name| >= 5 && name == name[..|name| - 5] + ".json"
  {
    if name == stem + ".json" {
      assert name[|name| - |SUFFIX|..] == SUFFIX;
    }
  }

  /** Names at which reading the record fails, or opening it for the probe. */
  datatype Baulks = Baulks(unread: set<string>, unopened: set<string>)

  predicate IsAlive(dir: map<string, nat>, nodes: map<nat, Node>, b: Baulks, name: string) {
    name in dir && name !in b.unopened && dir[name] in nodes && IsLocked(nodes[dir[name]])
  }

  function RecordOf(dir: map<string, nat>, nodes: map<nat, Node>, b: Baulks, name: string): Option<Record> {
    var pid := RecordPid(name);
    if pid.Some? && name !in b.unread && name in dir && dir[name] in nodes && nodes[dir[name]].content.Some?
    then ValidateRecord(nodes[dir[name]].content.value, pid.value) else None
  }

  /** (start_time, pid) */
  predicate Before(a: Record, b: Record) {
    a.startTime < b.startTime || (a.startTime == b.startTime && a.pid <= b.pid)
  }

  predicate InOrder(s: seq<Record>) {
    forall i, j :: 0 <= i < j < |s| ==> Before(s[i], s[j])
  }

  /** No process is reported twice. */
  predicate Distinct(s: seq<Record>) {
    forall i, j :: 0 <= i < j < |s| ==> s[i].pid != s[j].pid
  }

  /** list.sort(), one element more. */
  function Insert(s: seq<Record>, r: Record): (t: seq<Record>)
    ensures forall x :: x in t <==> x in s || x == r
  {
    if s == [] then [r]
    else if Before(r, s[0]) then [r] + s
    else
      assert s == [s[0]] + s[1..];
      [s[0]] + Insert(s[1..], r)
  }

  lemma {:induction false} InsertKeepsOrder(s: seq<Record>, r: Record)
    requires InOrder(s)
    ensures InOrder(Insert(s, r))
  {
    if s != [] && !Before(r, s[0]) {
      InsertKeepsOrder(s[1..], r);
      var rest := Insert(s[1..], r);
      forall k | 0 <= k < |rest|
        ensures Before(s[0], rest[k])
      {
        assert rest[k] in rest;
      }
    }
  }

  lemma {:induction false} InsertKeepsDistinct(s: seq<Record>, r: Record)
    requires Distinct(s) && forall i :: 0 <= i < |s| ==> s[i].pid != r.pid
    ensures Distinct(Insert(s, r))
  {
    if s != [] && !Before(r, s[0]) {
      InsertKeepsDistinct(s[1..], r);
      var rest := Insert(s[1..], r);
      forall k | 0 <= k < |rest|
        ensures rest[k].pid != s[0].pid
      {
        assert rest[k] in rest;
      }
    }
  }

  predicate Lists(dir: map<string, nat>, nodes: map<nat, Node>, b: Baulks, name: string, r: Record) {
    name in dir && !Ignored(name) && IsAlive(dir, nodes, b, name) && RecordOf(dir, nodes, b, name) == Some(r)
  }

  /** The names left when some have been looked at. */
  function Kept(dir: map<string, nat>, nodes: map<nat, Node>, b: Baulks, looked: seq<string>): map<string, nat> {
    map name | name in dir && (name !in looked || Ignored(name) || IsAlive(dir, nodes, b, name)) :: dir[name]
  }

  ghost predicate Listed(dir: map<string, nat>, nodes: map<nat, Node>, b: Baulks, looked: seq<string>, sessions: seq<Record>) {
    InOrder(sessions) && Distinct(sessions) && forall r :: r in sessions <==> exists name :: name in looked && Lists(dir, nodes, b, name, r)
  }

  lemma ListedOneMore(dir: map<string, nat>, nodes: map<nat, Node>, b: Baulks, looked: seq<string>, sessions: seq<Record>, name: string)
    requires Listed(dir, nodes, b, looked, sessions)
    requires name in dir && name !in looked
    ensures var r := RecordOf(dir, nodes, b, name);
      Listed(dir, nodes, b, looked + [name],
             if !Ignored(name) && IsAlive(dir, nodes, b, name) && r.Some? then Insert(sessions, r.value) else sessions)
  {
    var r := RecordOf(dir, nodes, b, name);
    var after := if !Ignored(name) && IsAlive(dir, nodes, b, name) && r.Some? then Insert(sessions, r.value) else sessions;
    if r.Some? {
      InsertKeepsOrder(sessions, r.value);
      forall i | 0 <= i < |sessions|
        ensures sessions[i].pid != r.value.pid
      {
        assert sessions[i] in sessions;
        var n :| n in looked && Lists(dir, nodes, b, n, sessions[i]);
        OneNameOneRecord(dir, nodes, b, n, name);
      }
      InsertKeepsDistinct(sessions, r.value);
    }
    forall x
      ensures x in after <==> exists n :: n in looked + [name] && Lists(dir, nodes, b, n, x)
    {
      if x in sessions {
        var n :| n in looked && Lists(dir, nodes, b, n, x);
        assert n in looked + [name];
      }
      assert name in looked + [name];
    }
  }

  lemma OneNameOneRecord(dir: map<string, nat>, nodes: map<nat, Node>, b: Baulks, n: string, m: string)
    requires RecordOf(dir, nodes, b, n).Some? && RecordOf(dir, nodes, b, m).Some?
    ensures RecordOf(dir, nodes, b, n).value.pid == RecordOf(dir, nodes, b, m).value.pid ==> n == m
  {
    var pid, other := RecordPid(n).value, RecordPid(m).value;
    AcceptedSpeaksForItsName(nodes[dir[n]].content.value, pid);
    AcceptedSpeaksForItsName(nodes[dir[m]].content.value, other);
    RecordPidExactly(n, pid);
    RecordPidExactly(m, other);
  }

  /** Every live session's record, once, by ascending start time, and by pid
      where that is the same; and exactly the names of the dead are gone, and
      of those that would not open. */
  method ActiveSessions(dir: map<string, nat>, nodes: map<nat, Node>, b: Baulks) returns (sessions: seq<Record>, dir': map<string, nat>)
    ensures dir' == map name | name in dir && (Ignored(name) || IsAlive(dir, nodes, b, name)) :: dir[name]
    ensures forall i, j :: 0 <= i < j < |sessions| ==>
      sessions[i].startTime < sessions[j].startTime || (sessions[i].startTime == sessions[j].startTime && sessions[i].pid < sessions[j].pid)
    ensures forall r :: r in sessions <==> exists name :: Lists(dir, nodes, b, name, r)
  {
    var names := SortBy(dir.Keys, (n: string) => n);
    SortedHasNoDuplicates(names, (n: string) => n);
    sessions, dir' := [], dir;
    var i := 0;
    while i < |names|
      invariant 0 <= i <= |names|
      invariant dir' == Kept(dir, nodes, b, names[..i]) && Listed(dir, nodes, b, names[..i], sessions)
    {
      assert names[..i + 1] == names[..i] + [names[i]] && names[i] !in names[..i];
      sessions, dir' := LookAt(dir, nodes, b, names[..i], names[i], sessions, dir');
      i := i + 1;
    }
    assert names[..i] == names;
  }

  method LookAt(dir: map<string, nat>, nodes: map<nat, Node>, b: Baulks, ghost looked: seq<string>, name: string,
                sessions: seq<Record>, kept: map<string, nat>)
    returns (sessions': seq<Record>, kept': map<string, nat>)
    requires name in dir && name !in looked && kept == Kept(dir, nodes, b, looked) && Listed(dir, nodes, b, looked, sessions)
    ensures kept' == Kept(dir, nodes, b, looked + [name]) && Listed(dir, nodes, b, looked + [name], sessions')
  {
    ListedOneMore(dir, nodes, b, looked, sessions, name);
    sessions', kept' := sessions, kept;
    if !Ignored(name) {
      var r := RecordOf(dir, nodes, b, name);
      if !IsAlive(dir, nodes, b, name) {
        kept' := kept - {name};
      } else if r.Some? {
        sessions' := Insert(sessions, r.value);
      }
    }
    assert kept' == Kept(dir, nodes, b, looked + [name]);
  }
}
