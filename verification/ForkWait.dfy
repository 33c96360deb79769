// build_exclude/syscall_impl.c: fork, exit and wait over the process table, as
// a transition system of interleaved calls and as methods on the table.
module ForkWait {
  import opened Wrappers

  const MAX_PROCESSES: nat := 64

  datatype Status = Unused | Running | Ready | Waiting | Zombie

  datatype Process = Process(state: Status, pid: nat, parentPid: nat, exitCode: int, files: seq<nat>)

  type Table = seq<Process>

  // exits, parents and reaped record what happened: the code each process
  // exited with, who forked it, and what every wait has returned to whom.
  datatype State = State(table: Table, current: nat, nextPid: nat,
    exits: map<nat, int>, parents: map<nat, nat>, reaped: seq<Reaped>)

  datatype Reaped = Reaped(to: nat, child: nat, code: int)

  // cloneOk and createOk: whether the allocations of fork succeed. Switch is a
  // call of schedule that picks a ready process.
  datatype Event = Exit(code: int) | Wait | Fork(createOk: bool, cloneOk: bool) | Switch(next: nat)

  // ---- the calls

  predicate Child(t: Table, i: nat, pid: nat)
    requires i < |t|
  {
    t[i].state != Unused && t[i].parentPid == pid
  }

  // get_process
  function Lookup(t: Table, pid: nat, from: nat): (r: Option<nat>)
    requires from <= |t|
    ensures r.Some? ==> from <= r.value < |t| && t[r.value].state != Unused && t[r.value].pid == pid
    ensures r.None? ==> forall i :: from <= i < |t| ==> t[i].state == Unused || t[i].pid != pid
    decreases |t| - from
  {
    if from == |t| then None
    else if t[from].state != Unused && t[from].pid == pid then Some(from)
    else Lookup(t, pid, from + 1)
  }

  // The zombie that the scan of sys_wait finds first.
  function ZombieChild(t: Table, pid: nat, from: nat): (r: Option<nat>)
    requires from <= |t|
    ensures r.Some? ==> from <= r.value < |t| && Child(t, r.value, pid) && t[r.value].state == Zombie
    ensures r.None? ==> forall i :: from <= i < |t| && Child(t, i, pid) ==> t[i].state != Zombie
    decreases |t| - from
  {
    if from == |t| then None
    else if Child(t, from, pid) && t[from].state == Zombie then Some(from)
    else ZombieChild(t, pid, from + 1)
  }

  // The slot process_create takes.
  function FreeSlot(t: Table, from: nat): (r: Option<nat>)
    requires from <= |t|
    ensures r.Some? ==> from <= r.value < |t| && t[r.value].state == Unused
    ensures r.None? ==> forall i :: from <= i < |t| ==> t[i].state != Unused
    decreases |t| - from
  {
    if from == |t| then None else if t[from].state == Unused then Some(from) else FreeSlot(t, from + 1)
  }

  ghost predicate HasChild(t: Table, pid: nat) {
    exists i :: 0 <= i < |t| && Child(t, i, pid)
  }

  const Free: Process := Process(Unused, 0, 0, 0, [])

  function Woken(t: Table, pid: nat): Table {
    match Lookup(t, pid, 0)
    case None => t
    case Some(i) => if t[i].state == Waiting then t[i := t[i].(state := Ready)] else t
  }

  ghost function ExitStep(s: State, code: int): State
    requires s.current < |s.table|
  {
    var me := s.table[s.current];
    if me.pid == 0 then s else
    var t := s.table[s.current := me.(state := Zombie, exitCode := code)];
    s.(table := Woken(t, me.parentPid), exits := s.exits[me.pid := code])
  }

  ghost function WaitStep(s: State): State
    requires s.current < |s.table|
  {
    var me := s.table[s.current];
    match ZombieChild(s.table, me.pid, 0)
    case Some(i) =>
      s.(table := s.table[i := Free],
         reaped := s.reaped + [Reaped(me.pid, s.table[i].pid, s.table[i].exitCode)])
    case None => if HasChild(s.table, me.pid) then s.(table := s.table[s.current := me.(state := Waiting)]) else s
  }

  ghost function ForkStep(s: State, createOk: bool, cloneOk: bool): State
    requires s.current < |s.table| && 1 <= |s.table|
  {
    var me := s.table[s.current];
    match FreeSlot(s.table, 1)
    case None => s
    case Some(i) =>
      if !createOk then s
      else if !cloneOk then s.(nextPid := s.nextPid + 1, table := s.table[i := Free])
      else s.(nextPid := s.nextPid + 1,
              table := s.table[i := Process(Ready, s.nextPid, me.pid, 0, me.files)],
              parents := s.parents[s.nextPid := me.pid])
  }

  ghost function SwitchStep(s: State, next: nat): State
    requires s.current < |s.table| && next < |s.table|
  {
    var me := s.table[s.current];
    var t := if me.state == Running then s.table[s.current := me.(state := Ready)] else s.table;
    s.(table := t[next := t[next].(state := Running)], current := next)
  }

  // Which events can happen: the current process runs, or spins inside wait;
  // schedule picks a ready process.
  ghost predicate Enabled(s: State, e: Event)
    requires s.current < |s.table|
  {
    match e
    case Exit(_) => s.table[s.current].state == Running
    case Fork(_, _) => s.table[s.current].state == Running
    case Wait => s.table[s.current].state == Running || s.table[s.current].state == Waiting
    case Switch(next) => next < |s.table| && s.table[next].state == Ready
  }

  ghost function Step(s: State, e: Event): State
    requires s.current < |s.table| && 1 <= |s.table|
  {
    if !Enabled(s, e) then s else
    match e
    case Exit(code) => ExitStep(s, code)
    case Wait => WaitStep(s)
    case Fork(createOk, cloneOk) => ForkStep(s, createOk, cloneOk)
    case Switch(next) => SwitchStep(s, next)
  }

  // ---- what every step keeps

  ghost predicate Live(t: Table, i: nat, pid: nat)
    requires i < |t|
  {
    Child(t, i, pid) && t[i].state != Zombie
  }

  ghost predicate Used(t: Table, i: nat) {
    i < |t| && t[i].state != Unused
  }

  // Pids are unique and below nextPid; a child is younger than its parent; the
  // kernel, in slot 0, is its own parent and never dies.
  ghost predicate Numbered(t: Table, nextPid: nat) {
    |t| >= 1 && Used(t, 0) && t[0].pid == 0 && t[0].parentPid == 0 && t[0].state != Zombie &&
    (forall i: nat :: Used(t, i) ==> t[i].pid < nextPid) &&
    (forall i: nat :: Used(t, i) && i > 0 ==> t[i].parentPid < t[i].pid) &&
    forall i: nat, j: nat :: Used(t, i) && Used(t, j) && t[i].pid == t[j].pid ==> i == j
  }

  // No lost wake-up: nobody waits over a zombie child, nor without a live one.
  ghost predicate Awake(t: Table, i: nat)
    requires i < |t|
  {
    t[i].state == Waiting ==>
      (forall j: nat :: j < |t| && Child(t, j, t[i].pid) ==> t[j].state != Zombie) &&
      exists j: nat :: j < |t| && Live(t, j, t[i].pid)
  }

  // Every code handed back is the one the child exited with, went to the
  // process that forked it, and was handed back once.
  ghost predicate Recorded(s: State) {
    (forall i: nat :: Used(s.table, i) && i > 0 ==> s.table[i].pid in s.parents && s.parents[s.table[i].pid] == s.table[i].parentPid) &&
    (forall i: nat :: Used(s.table, i) && s.table[i].state == Zombie ==> s.table[i].pid in s.exits && s.exits[s.table[i].pid] == s.table[i].exitCode) &&
    (forall r <- s.reaped :: r.child < s.nextPid && r.child in s.parents && s.parents[r.child] == r.to && r.child in s.exits && s.exits[r.child] == r.code) &&
    (forall r <- s.reaped, i: nat :: Used(s.table, i) ==> s.table[i].pid != r.child) &&
    forall a, b :: 0 <= a < b < |s.reaped| ==> s.reaped[a].child != s.reaped[b].child
  }

  ghost predicate Inv(s: State) {
    s.current < |s.table| && Used(s.table, s.current) && Numbered(s.table, s.nextPid) && Recorded(s) &&
    (forall i: nat :: i < |s.table| ==> Awake(s.table, i)) &&
    forall i: nat :: i < |s.table| && s.table[i].state == Running ==> i == s.current
  }

  // process_init: only the kernel runs.
  ghost function Boot(n: nat): State
    requires n >= 1
  {
    State([Process(Running, 0, 0, 0, [])] + seq(n - 1, _ => Free), 0, 1, map[], map[], [])
  }

  lemma BootInv(n: nat)
    requires n >= 1
    ensures Inv(Boot(n))
  {
  }

  // Slots other than c and the parent are as before; the parent, if it was
  // waiting, is ready.
  lemma WokenFacts(t: Table, pid: nat, nextPid: nat)
    requires forall i: nat, j: nat :: Used(t, i) && Used(t, j) && t[i].pid == t[j].pid ==> i == j
    ensures |Woken(t, pid)| == |t|
    ensures forall i: nat :: i < |t| ==> Woken(t, pid)[i] == if t[i].state == Waiting && t[i].pid == pid then t[i].(state := Ready) else t[i]
  {
    var r := Lookup(t, pid, 0);
    forall i: nat | i < |t| ensures Woken(t, pid)[i] == if t[i].state == Waiting && t[i].pid == pid then t[i].(state := Ready) else t[i] {
      assert Used(t, i) <==> t[i].state != Unused;
      if r.Some? { assert Used(t, r.value); }
    }
  }

  ghost predicate SameIds(t: Table, t': Table) {
    |t'| == |t| && forall i: nat {:trigger t[i]} {:trigger t'[i]} :: i < |t| ==>
      t'[i].pid == t[i].pid && t'[i].parentPid == t[i].parentPid && (t'[i].state == Unused <==> t[i].state == Unused)
  }

  lemma SameNumbered(t: Table, t': Table, nextPid: nat)
    requires Numbered(t, nextPid) && SameIds(t, t') && t'[0].state != Zombie
    ensures Numbered(t', nextPid)
  {
    assert forall i: nat :: Used(t', i) <==> Used(t, i);
  }

  // A slot freed, or a slot taken with the next pid.
  lemma SlotNumbered(t: Table, nextPid: nat, i: nat, p: Process)
    requires Numbered(t, nextPid) && 0 < i < |t|
    requires p.state != Unused ==> t[i].state == Unused && p.pid == nextPid && p.parentPid < nextPid
    ensures Numbered(t[i := p], nextPid + 1) && (p.state == Unused ==> Numbered(t[i := p], nextPid))
  {
    var t' := t[i := p];
    assert forall j: nat :: j != i ==> (Used(t', j) <==> Used(t, j));
  }

  // Live children stay live children, and no waiting process gets a zombie.
  lemma StaysAwake(t: Table, t': Table, i: nat, k: nat)
    requires i < |t| && i < |t'| && Awake(t, i) && t[i].state == Waiting && t'[i] == t[i]
    requires |t| == |t'| && k < |t| && forall j: nat :: j < |t| && j != k ==> t'[j] == t[j]
    requires !Live(t, k, t[i].pid) && (Child(t', k, t[i].pid) ==> t'[k].state != Zombie)
    ensures Awake(t', i)
  {
    var j: nat :| j < |t| && Live(t, j, t[i].pid);
    assert Live(t', j, t'[i].pid);
  }

  lemma StatesAwake(t: Table, t': Table, i: nat)
    requires SameIds(t, t') && i < |t| && Awake(t, i) && t[i].state == Waiting
    requires forall j: nat {:trigger t[j]} {:trigger t'[j]} :: j < |t| && t[j].parentPid == t[i].pid ==> (t'[j].state == Zombie <==> t[j].state == Zombie)
    ensures Awake(t', i)
  {
    var j: nat :| j < |t| && Live(t, j, t[i].pid);
    assert Live(t', j, t'[i].pid);
    forall k: nat | k < |t'| && Child(t', k, t'[i].pid) ensures t'[k].state != Zombie {
      assert Child(t, k, t[i].pid);
    }
  }

  lemma ExitAwake(s: State, code: int, i: nat)
    requires Inv(s) && s.table[s.current].pid != 0 && i < |s.table|
    ensures Awake(ExitStep(s, code).table, i)
  {
    var me, c := s.table[s.current], s.current;
    var t := s.table[c := me.(state := Zombie, exitCode := code)];
    assert forall j: nat :: Used(t, j) <==> Used(s.table, j);
    WokenFacts(t, me.parentPid, s.nextPid);
    var w := ExitStep(s, code).table;
    if w[i].state == Waiting {
      assert Awake(s.table, i);
      StatesAwake(s.table, w, i);
    }
  }

  // Only states changed, and the zombies have their codes on record.
  lemma SameRecorded(s: State, w: State)
    requires Recorded(s) && SameIds(s.table, w.table) && w.nextPid == s.nextPid && w.parents == s.parents && w.reaped == s.reaped
    requires forall p <- s.exits :: p in w.exits && (w.exits[p] == s.exits[p] || forall r <- s.reaped :: r.child != p)
    requires forall i: nat :: Used(w.table, i) && w.table[i].state == Zombie ==> w.table[i].pid in w.exits && w.exits[w.table[i].pid] == w.table[i].exitCode
    ensures Recorded(w)
  {
    assert forall i: nat :: Used(w.table, i) <==> Used(s.table, i);
  }

  lemma ExitRecorded(s: State, code: int)
    requires Numbered(s.table, s.nextPid) && Recorded(s) && Used(s.table, s.current) && s.table[s.current].pid != 0
    requires SameIds(s.table, ExitStep(s, code).table)
    ensures Recorded(ExitStep(s, code))
  {
    var me, c, w := s.table[s.current], s.current, ExitStep(s, code);
    var t := s.table[c := me.(state := Zombie, exitCode := code)];
    assert forall j: nat :: Used(t, j) <==> Used(s.table, j);
    WokenFacts(t, me.parentPid, s.nextPid);
    hide Woken;
    forall i: nat | Used(w.table, i) && w.table[i].state == Zombie
      ensures w.table[i].pid in w.exits && w.exits[w.table[i].pid] == w.table[i].exitCode
    {
      assert Used(s.table, i);
    }
    SameRecorded(s, w);
  }

  lemma ExitInv(s: State, code: int)
    requires Inv(s) && Enabled(s, Exit(code))
    ensures Inv(ExitStep(s, code))
  {
    hide Recorded, Awake, Numbered;
    var me, c, w := s.table[s.current], s.current, ExitStep(s, code);
    if me.pid != 0 {
      ExitIds(s, code);
      SameNumbered(s.table, w.table, s.nextPid);
      ExitRecorded(s, code);
      forall i: nat | i < |w.table| ensures Awake(w.table, i) {
        ExitAwake(s, code, i);
      }
    }
  }

  lemma ExitIds(s: State, code: int)
    requires Inv(s) && s.table[s.current].pid != 0
    ensures SameIds(s.table, ExitStep(s, code).table) && ExitStep(s, code).table[0].state != Zombie
    ensures forall i: nat :: i < |s.table| && ExitStep(s, code).table[i].state == Running ==> i != s.current && s.table[i].state == Running
  {
    var me, c := s.table[s.current], s.current;
    var t := s.table[c := me.(state := Zombie, exitCode := code)];
    assert forall j: nat :: Used(t, j) <==> Used(s.table, j);
    WokenFacts(t, me.parentPid, s.nextPid);
    hide Woken;
  }

  lemma ReapRecorded(s: State, z: nat)
    requires Numbered(s.table, s.nextPid) && Recorded(s) && Used(s.table, z) && z > 0 && s.table[z].state == Zombie
    ensures Recorded(s.(table := s.table[z := Free], reaped := s.reaped + [Reaped(s.table[z].parentPid, s.table[z].pid, s.table[z].exitCode)]))
  {
    var t := s.table[z := Free];
    assert forall j: nat :: Used(t, j) <==> Used(s.table, j) && j != z;
  }

  lemma ReapInv(s: State, z: nat)
    requires Inv(s) && Enabled(s, Wait) && ZombieChild(s.table, s.table[s.current].pid, 0) == Some(z)
    ensures Inv(WaitStep(s))
  {
    hide Recorded;
    var t := WaitStep(s).table;
    assert Used(s.table, z);
    SlotNumbered(s.table, s.nextPid, z, Free);
    ReapRecorded(s, z);
    hide Numbered;
    forall i: nat | i < |t| ensures Awake(t, i) {
      assert Awake(s.table, i);
      if t[i].state == Waiting { StaysAwake(s.table, t, i, z); }
    }
  }

  lemma BlockAwake(s: State, i: nat)
    requires Inv(s) && ZombieChild(s.table, s.table[s.current].pid, 0).None? && HasChild(s.table, s.table[s.current].pid) && i < |s.table|
    ensures Awake(WaitStep(s).table, i)
  {
    var me, t := s.table[s.current], WaitStep(s).table;
    assert Awake(s.table, i);
    if i == s.current {
      var j: nat :| j < |s.table| && Child(s.table, j, me.pid);
      assert Live(t, j, me.pid);
      assert forall k: nat :: k < |t| && Child(t, k, me.pid) ==> Child(s.table, k, me.pid);
    } else if t[i].state == Waiting {
      StatesAwake(s.table, t, i);
    }
  }

  lemma BlockInv(s: State)
    requires Inv(s) && Enabled(s, Wait) && ZombieChild(s.table, s.table[s.current].pid, 0).None? && HasChild(s.table, s.table[s.current].pid)
    ensures Inv(WaitStep(s))
  {
    hide Awake;
    var me, t := s.table[s.current], WaitStep(s).table;
    SameNumbered(s.table, t, s.nextPid);
    assert forall i: nat :: Used(t, i) && t[i].state == Zombie ==> Used(s.table, i) && s.table[i] == t[i];
    SameRecorded(s, WaitStep(s));
    forall i: nat | i < |t| ensures Awake(t, i) {
      BlockAwake(s, i);
    }
  }

  lemma WaitInv(s: State)
    requires Inv(s) && Enabled(s, Wait)
    ensures Inv(WaitStep(s))
  {
    hide Recorded, Awake, Numbered;
    var me := s.table[s.current];
    var z := ZombieChild(s.table, me.pid, 0);
    if z.Some? {
      ReapInv(s, z.value);
    } else if HasChild(s.table, me.pid) {
      BlockInv(s);
    }
  }

  lemma ForkAwake(s: State, createOk: bool, cloneOk: bool, i: nat)
    requires Inv(s) && Enabled(s, Fork(createOk, cloneOk)) && i < |s.table|
    ensures Awake(ForkStep(s, createOk, cloneOk).table, i)
  {
    var t, r := ForkStep(s, createOk, cloneOk).table, FreeSlot(s.table, 1);
    assert Awake(s.table, i);
    if t[i].state == Waiting && t != s.table {
      assert Used(s.table, i) && Used(s.table, s.current);
      StaysAwake(s.table, t, i, r.value);
    }
  }

  lemma SlotRecorded(s: State, i: nat, p: Process, parents: map<nat, nat>)
    requires Numbered(s.table, s.nextPid) && Recorded(s) && 0 < i < |s.table| && s.table[i].state == Unused
    requires (p.state == Unused && parents == s.parents) || (p.state == Ready && p.pid == s.nextPid && parents == s.parents[s.nextPid := p.parentPid])
    ensures Recorded(s.(table := s.table[i := p], nextPid := s.nextPid + 1, parents := parents))
  {
    var t := s.table[i := p];
    assert forall j: nat :: j != i ==> (Used(t, j) <==> Used(s.table, j));
    assert !Used(s.table, i);
  }

  lemma ForkInv(s: State, createOk: bool, cloneOk: bool)
    requires Inv(s) && Enabled(s, Fork(createOk, cloneOk))
    ensures Inv(ForkStep(s, createOk, cloneOk))
  {
    hide Recorded, Awake;
    var w := ForkStep(s, createOk, cloneOk);
    var r := FreeSlot(s.table, 1);
    forall i: nat | i < |w.table| ensures Awake(w.table, i) {
      ForkAwake(s, createOk, cloneOk, i);
    }
    if r.Some? && createOk {
      SlotNumbered(s.table, s.nextPid, r.value, w.table[r.value]);
      SlotRecorded(s, r.value, w.table[r.value], w.parents);
    }
  }

  lemma SwitchAwake(s: State, next: nat, i: nat)
    requires Inv(s) && Enabled(s, Switch(next)) && i < |s.table|
    ensures Awake(SwitchStep(s, next).table, i)
  {
    assert Awake(s.table, i);
    var t := SwitchStep(s, next).table;
    if t[i].state == Waiting { StatesAwake(s.table, t, i); }
  }

  lemma SwitchInv(s: State, next: nat)
    requires Inv(s) && Enabled(s, Switch(next))
    ensures Inv(SwitchStep(s, next))
  {
    hide Awake;
    var t := SwitchStep(s, next).table;
    SameNumbered(s.table, t, s.nextPid);
    assert forall i: nat :: Used(t, i) && t[i].state == Zombie ==> Used(s.table, i) && s.table[i] == t[i];
    SameRecorded(s, SwitchStep(s, next));
    forall i: nat | i < |t| ensures Awake(t, i) {
      SwitchAwake(s, next, i);
    }
  }

  lemma StepInv(s: State, e: Event)
    requires Inv(s)
    ensures Inv(Step(s, e)) && |Step(s, e).table| == |s.table|
  {
    hide Recorded, Numbered, Awake;
    if Enabled(s, e) {
      match e
      case Exit(code) => ExitInv(s, code);
      case Wait => WaitInv(s);
      case Fork(createOk, cloneOk) => ForkInv(s, createOk, cloneOk);
      case Switch(next) => SwitchInv(s, next);
    }
  }

  // ---- schedule as build_exclude/process/process.c has it

  // The outgoing process is made ready whatever it was.
  ghost function RawSwitch(s: State, next: nat): State
    requires s.current < |s.table| && next < |s.table|
  {
    var t := s.table[s.current := s.table[s.current].(state := Ready)];
    s.(table := t[next := t[next].(state := Running)], current := next)
  }

  // That is the intended switch exactly when the outgoing process neither waits
  // nor is dead.
  lemma RawSwitchAgrees(s: State, next: nat)
    requires Inv(s) && Enabled(s, Switch(next))
    ensures RawSwitch(s, next) == SwitchStep(s, next) <==> s.table[s.current].state == Running || s.table[s.current].state == Ready
  {
    var me := s.table[s.current];
    if me.state != Running && me.state != Ready {
      assert next != s.current;
      assert RawSwitch(s, next).table[s.current].state == Ready;
    }
  }

  // Even so the records stay true, pids unique and nobody waits over a zombie.
  lemma RawSwitchInv(s: State, next: nat)
    requires Inv(s) && Enabled(s, Switch(next))
    ensures Inv(RawSwitch(s, next))
  {
    hide Awake;
    var w := RawSwitch(s, next);
    SameNumbered(s.table, w.table, s.nextPid);
    assert forall i: nat :: Used(w.table, i) && w.table[i].state == Zombie ==> Used(s.table, i) && s.table[i] == w.table[i];
    SameRecorded(s, w);
    forall i: nat | i < |w.table| ensures Awake(w.table, i) {
      RawSwitchAwake(s, next, i);
    }
  }

  lemma RawSwitchAwake(s: State, next: nat, i: nat)
    requires Inv(s) && Enabled(s, Switch(next)) && i < |s.table|
    ensures Awake(RawSwitch(s, next).table, i)
  {
    assert Awake(s.table, i);
    var t := RawSwitch(s, next).table;
    if t[i].state == Waiting {
      var j: nat :| j < |t| && Live(s.table, j, t[i].pid);
      assert Live(t, j, t[i].pid);
      forall k: nat | k < |t| && Child(t, k, t[i].pid) ensures t[k].state != Zombie {
        assert Child(s.table, k, t[i].pid);
      }
    }
  }

  // What does not survive: a process that exits is ready again after the switch,
  // so that its parent finds no zombie and waits, and it can run once more. With
  // the intended switch the parent gets its code.
  lemma ExitUndone(code: int)
    ensures var s := Step(SwitchStep(Step(Boot(2), Fork(true, true)), 1), Exit(code));
      |s.table| == 2 && s.current == 1 && s.table[1].state == Zombie &&
      var raw, meant := RawSwitch(s, 0), SwitchStep(s, 0);
        raw.table[1].state == Ready && Step(raw, Wait).table[0].state == Waiting && RawSwitch(raw, 1).table[1].state == Running &&
        Step(meant, Wait).reaped == [Reaped(0, 1, code)]
  {
    var s1 := Step(Boot(2), Fork(true, true));
    assert FreeSlot(Boot(2).table, 1) == Some(1);
    var s2 := SwitchStep(s1, 1);
    var s := Step(s2, Exit(code));
    assert Lookup(s2.table[1 := s2.table[1].(state := Zombie, exitCode := code)], 0, 0) == Some(0);
    var raw, meant := RawSwitch(s, 0), SwitchStep(s, 0);
    assert ZombieChild(raw.table, 0, 2) == None && ZombieChild(raw.table, 0, 1) == None && ZombieChild(raw.table, 0, 0) == None;
    assert Child(raw.table, 1, 0);
    assert ZombieChild(meant.table, 0, 1) == Some(1) && ZombieChild(meant.table, 0, 0) == Some(1);
  }

  // ---- whole runs

  // In every interleaving of fork, exit, wait and schedule.
  ghost function Run(s: State, es: seq<Event>): (r: State)
    requires Inv(s)
    ensures Inv(r) && |r.table| == |s.table|
    decreases |es|
  {
    if es == [] then s else
    StepInv(s, es[0]);
    Run(Step(s, es[0]), es[1..])
  }

  // Nobody but the kernel itself has the kernel for a parent.
  ghost predicate Alone(t: Table, i: nat)
    requires i < |t|
  {
    i == 0 && forall j: nat :: 0 < j < |t| ==> !Child(t, j, 0)
  }

  // A line of live descendants, each the child of the one before.
  ghost predicate Lineage(t: Table, path: seq<nat>) {
    |path| >= 2 && path[0] < |t| && 0 < path[1] < |t| && Live(t, path[1], t[path[0]].pid) &&
    (|path| == 2 || Lineage(t, path[1..]))
  }

  ghost predicate Runnable(t: Table, i: nat) {
    i < |t| && (t[i].state == Ready || t[i].state == Running)
  }

  // No wait deadlock: down from a waiting process there is a descendant that
  // can run, unless it is the kernel waiting with no child but itself.
  lemma {:induction false} DescendantRuns(s: State, i: nat) returns (path: seq<nat>)
    requires Inv(s) && i < |s.table| && s.table[i].state == Waiting && !Alone(s.table, i)
    ensures Lineage(s.table, path) && path[0] == i && Runnable(s.table, path[|path| - 1])
    decreases s.nextPid - s.table[i].pid
  {
    var t := s.table;
    assert Awake(t, i) && Used(t, i);
    var c := OtherChild(s, i);
    assert Used(t, c);
    if t[c].state == Waiting {
      var rest := DescendantRuns(s, c);
      path := [i] + rest;
      assert path[1..] == rest;
    } else {
      path := [i, c];
    }
  }

  lemma OtherChild(s: State, i: nat) returns (c: nat)
    requires Inv(s) && i < |s.table| && s.table[i].state == Waiting && !Alone(s.table, i)
    ensures 0 < c < |s.table| && Live(s.table, c, s.table[i].pid)
  {
    var t := s.table;
    assert Awake(t, i) && Used(t, i) && Used(t, 0);
    if i == 0 {
      c :| 0 < c < |t| && Child(t, c, 0);
    } else {
      c :| c < |t| && Live(t, c, t[i].pid);
    }
  }

  // A zombie whose parent is gone, or dead itself: exit gives it no other parent.
  ghost predicate Bereft(t: Table, i: nat) {
    i < |t| && t[i].state == Zombie && forall j: nat :: Used(t, j) && t[j].state != Zombie ==> t[j].pid != t[i].parentPid
  }

  lemma BereftStep(s: State, e: Event, i: nat)
    requires Inv(s) && Bereft(s.table, i)
    ensures Bereft(Step(s, e).table, i) && Step(s, e).table[i] == s.table[i]
  {
    hide Recorded, Awake;
    assert Used(s.table, i) && Used(s.table, s.current);
    if Enabled(s, e) {
      match e
      case Exit(code) => BereftExit(s, code, i);
      case Wait => BereftWait(s, i);
      case Fork(createOk, cloneOk) => BereftFork(s, createOk, cloneOk, i);
      case Switch(next) => BereftSwitch(s, next, i);
    }
  }

  lemma BereftExit(s: State, code: int, i: nat)
    requires Inv(s) && Bereft(s.table, i) && Enabled(s, Exit(code))
    ensures Bereft(ExitStep(s, code).table, i) && ExitStep(s, code).table[i] == s.table[i]
  {
    var t := ExitStep(s, code).table;
    ExitMeans(s, code, i);
    forall j: nat | Used(t, j) && t[j].state != Zombie ensures t[j].pid != t[i].parentPid {
      ExitMeans(s, code, j);
      assert Used(s.table, j);
    }
  }

  lemma BereftWait(s: State, i: nat)
    requires Inv(s) && Bereft(s.table, i) && Enabled(s, Wait)
    ensures Bereft(WaitStep(s).table, i) && WaitStep(s).table[i] == s.table[i]
  {
    var t := WaitStep(s).table;
    assert Used(s.table, s.current) && s.table[s.current].pid != s.table[i].parentPid;
    forall j: nat | Used(t, j) && t[j].state != Zombie ensures t[j].pid != t[i].parentPid {
      assert Used(s.table, j);
    }
  }

  lemma BereftFork(s: State, createOk: bool, cloneOk: bool, i: nat)
    requires Inv(s) && Bereft(s.table, i) && Enabled(s, Fork(createOk, cloneOk))
    ensures Bereft(ForkStep(s, createOk, cloneOk).table, i) && ForkStep(s, createOk, cloneOk).table[i] == s.table[i]
  {
    var t := ForkStep(s, createOk, cloneOk).table;
    assert Used(s.table, i) && s.table[i].parentPid < s.nextPid;
    forall j: nat | Used(t, j) && t[j].state != Zombie ensures t[j].pid != t[i].parentPid {
      assert t[j].pid != s.nextPid ==> Used(s.table, j);
    }
  }

  lemma BereftSwitch(s: State, next: nat, i: nat)
    requires Inv(s) && Bereft(s.table, i) && Enabled(s, Switch(next))
    ensures Bereft(SwitchStep(s, next).table, i) && SwitchStep(s, next).table[i] == s.table[i]
  {
    var t := SwitchStep(s, next).table;
    forall j: nat | Used(t, j) && t[j].state != Zombie ensures t[j].pid != t[i].parentPid {
      assert Used(s.table, j);
    }
  }

  lemma {:induction false} BereftForever(s: State, es: seq<Event>, i: nat)
    requires Inv(s) && Bereft(s.table, i)
    ensures Bereft(Run(s, es).table, i) && Run(s, es).table[i] == s.table[i]
    decreases |es|
  {
    if es != [] {
      StepInv(s, es[0]);
      BereftStep(s, es[0], i);
      BereftForever(Step(s, es[0]), es[1..], i);
    }
  }

  lemma {:induction false} ZombieFirst(t: Table, pid: nat, from: nat)
    requires from <= |t|
    ensures var r := ZombieChild(t, pid, from); r.Some? ==> forall j :: from <= j < r.value && Child(t, j, pid) ==> t[j].state != Zombie
    decreases |t| - from
  {
    if from < |t| { ZombieFirst(t, pid, from + 1); }
  }

  // A running parent reaps its zombies one after the other, up to this one.
  lemma {:induction false} ReapUpTo(s: State, i: nat, from: nat) returns (es: seq<Event>)
    requires Inv(s) && from <= i < |s.table| && s.table[s.current].state == Running
    requires s.table[i].state == Zombie && s.table[i].parentPid == s.table[s.current].pid
    requires forall j: nat :: j < from && Child(s.table, j, s.table[s.current].pid) ==> s.table[j].state != Zombie
    ensures Run(s, es).table[i].state != Zombie
    decreases i - from
  {
    var pid := s.table[s.current].pid;
    ZombieFirst(s.table, pid, 0);
    assert Child(s.table, i, pid);
    var z := ZombieChild(s.table, pid, 0).value;
    var w := Step(s, Wait);
    StepInv(s, Wait);
    assert w == WaitStep(s) && w.table == s.table[z := Free];
    hide Inv;
    if z == i {
      es := [Wait];
      RunOne(s, Wait);
    } else {
      var rest := ReapUpTo(w, i, z + 1);
      es := [Wait] + rest;
      RunFirst(s, Wait, rest);
    }
  }

  lemma RunFirst(s: State, e: Event, es: seq<Event>)
    requires Inv(s)
    ensures Inv(Step(s, e)) && Run(s, [e] + es) == Run(Step(s, e), es)
  {
    StepInv(s, e);
    assert ([e] + es)[1..] == es;
  }

  lemma RunOne(s: State, e: Event)
    requires Inv(s)
    ensures Run(s, [e]) == Step(s, e)
  {
    RunFirst(s, e, []);
    assert [e] + [] == [e];
  }

  // While a zombie has a live parent some run reaps it.
  lemma Reapable(s: State, i: nat) returns (es: seq<Event>)
    requires Inv(s) && i < |s.table| && s.table[i].state == Zombie && !Bereft(s.table, i)
    ensures Run(s, es).table[i].state != Zombie
  {
    var p: nat :| Used(s.table, p) && s.table[p].state != Zombie && s.table[p].pid == s.table[i].parentPid;
    ParentRuns(s, i, p);
    if p == s.current && s.table[p].state == Running {
      es := ReapUpTo(s, i, 0);
    } else {
      var w := Step(s, Switch(p));
      StepInv(s, Switch(p));
      hide Inv;
      var rest := ReapUpTo(w, i, 0);
      es := [Switch(p)] + rest;
      RunFirst(s, Switch(p), rest);
    }
  }

  // The live parent of a zombie does not wait; a switch to it finds the zombie.
  lemma ParentRuns(s: State, i: nat, p: nat)
    requires Inv(s) && i < |s.table| && s.table[i].state == Zombie
    requires Used(s.table, p) && s.table[p].state != Zombie && s.table[p].pid == s.table[i].parentPid
    ensures (p == s.current && s.table[p].state == Running) || s.table[p].state == Ready
    ensures s.current < |s.table| && 1 <= |s.table|
    ensures s.table[p].state == Ready ==>
      var w := Step(s, Switch(p));
      w.current == p && |w.table| == |s.table| && w.table[p].state == Running && w.table[p].pid == s.table[p].pid && w.table[i] == s.table[i]
  {
    hide Recorded;
    assert Awake(s.table, p) && Child(s.table, i, s.table[p].pid);
  }

  // An exit is never reaped exactly when its parent has gone before it is.
  lemma NeverReaped(s: State, i: nat)
    requires Inv(s) && i < |s.table| && s.table[i].state == Zombie
    ensures (forall es: seq<Event> :: Run(s, es).table[i] == s.table[i]) <==> Bereft(s.table, i)
  {
    if Bereft(s.table, i) {
      forall es: seq<Event> ensures Run(s, es).table[i] == s.table[i] {
        BereftForever(s, es, i);
      }
    } else {
      var es := Reapable(s, i);
      assert Run(s, es).table[i] != s.table[i];
    }
  }

  lemma RunThree(s: State, a: Event, b: Event, c: Event)
    requires Inv(s)
    ensures Inv(Step(s, a)) && Inv(Step(Step(s, a), b)) && Run(s, [a, b, c]) == Step(Step(Step(s, a), b), c)
  {
    hide Step;
    RunFirst(s, a, [b, c]);
    RunFirst(Step(s, a), b, [c]);
    RunOne(Step(Step(s, a), b), c);
    assert [a] + [b, c] == [a, b, c] && [b] + [c] == [b, c];
  }

  lemma {:induction false} RunJoin(s: State, xs: seq<Event>, ys: seq<Event>)
    requires Inv(s)
    ensures Run(s, xs + ys) == Run(Run(s, xs), ys)
    decreases |xs|
  {
    if xs == [] {
      assert xs + ys == ys;
    } else {
      StepInv(s, xs[0]);
      assert (xs + ys)[1..] == xs[1..] + ys;
      RunJoin(Step(s, xs[0]), xs[1..], ys);
    }
  }

  // A process forks, and it and then its child exit.
  const BothFork: seq<Event> := [Fork(true, true), Switch(1), Fork(true, true)]
  const BothExit: seq<Event> := [Exit(0), Switch(2), Exit(7)]

  lemma Forked(s: State, k: nat, p: Process)
    requires s.current < |s.table| && s.table[s.current].state == Running && FreeSlot(s.table, 1) == Some(k)
    requires p == Process(Ready, s.nextPid, s.table[s.current].pid, 0, s.table[s.current].files)
    ensures var t := Step(s, Fork(true, true)); t.table == s.table[k := p] && t.current == s.current && t.nextPid == s.nextPid + 1
  {
  }

  lemma Switched(s: State, next: nat, me: Process, it: Process)
    requires s.current < |s.table| && s.table[s.current] == me && me.state == Running && next < |s.table| && s.table[next] == it && it.state == Ready
    ensures var t := Step(s, Switch(next));
      t.table == s.table[s.current := me.(state := Ready)][next := it.(state := Running)] && t.current == next && t.nextPid == s.nextPid
  {
  }

  lemma LeftZombie(s: State, next: nat)
    requires s.current < |s.table| && s.table[s.current].state == Zombie && next < |s.table| && s.table[next].state == Ready
    ensures var t := Step(s, Switch(next)); t.table == s.table[next := s.table[next].(state := Running)] && t.current == next
  {
  }

  lemma Exited(s: State, code: int, t: Table)
    requires Inv(s) && s.table[s.current].state == Running && s.table[s.current].pid > 0 && |t| == |s.table|
    requires forall i: nat :: i < |t| && i != s.current ==> t[i] == s.table[i] && t[i].state != Waiting
    requires t[s.current] == Process(Zombie, s.table[s.current].pid, s.table[s.current].parentPid, code, s.table[s.current].files)
    ensures Step(s, Exit(code)).table == t && Step(s, Exit(code)).current == s.current
  {
    forall i: nat | i < |t| ensures |ExitStep(s, code).table| == |t| && ExitStep(s, code).table[i] == t[i] {
      ExitMeans(s, code, i);
    }
    ExitMeans(s, code, s.current);
  }

  lemma FirstSlot(t: Table)
    requires |t| == 3 && t[2].state == Unused
    ensures FreeSlot(t, 1) == Some(if t[1].state == Unused then 1 else 2)
  {
    assert FreeSlot(t, 2) == Some(2);
  }

  lemma BootThree()
    ensures Boot(3).table == [Process(Running, 0, 0, 0, []), Free, Free] && Boot(3).current == 0 && Boot(3).nextPid == 1
  {
  }

  lemma AfterForks(s: State)
    requires s == Boot(3) && Inv(s)
    ensures var t := Run(s, BothFork); t.table == [Process(Ready, 0, 0, 0, []), Process(Running, 1, 0, 0, []), Process(Ready, 2, 1, 0, [])] && t.current == 1
  {
    hide Inv, Run, Step, FreeSlot, Boot;
    BootThree();
    RunThree(s, Fork(true, true), Switch(1), Fork(true, true));
    FirstSlot(s.table);
    Forked(s, 1, Process(Ready, 1, 0, 0, []));
    var s1 := Step(s, Fork(true, true));
    Switched(s1, 1, Process(Running, 0, 0, 0, []), Process(Ready, 1, 0, 0, []));
    var s2 := Step(s1, Switch(1));
    assert s2.table == [Process(Ready, 0, 0, 0, []), Process(Running, 1, 0, 0, []), Free];
    FirstSlot(s2.table);
    Forked(s2, 2, Process(Ready, 2, 1, 0, []));
  }

  lemma AfterExits(s: State)
    requires Inv(s) && s.table == [Process(Ready, 0, 0, 0, []), Process(Running, 1, 0, 0, []), Process(Ready, 2, 1, 0, [])] && s.current == 1
    ensures Run(s, BothExit).table == [Process(Ready, 0, 0, 0, []), Process(Zombie, 1, 0, 0, []), Process(Zombie, 2, 1, 7, [])]
  {
    RunThree(s, Exit(0), Switch(2), Exit(7));
    hide Inv, Run, Step;
    Exited(s, 0, [Process(Ready, 0, 0, 0, []), Process(Zombie, 1, 0, 0, []), Process(Ready, 2, 1, 0, [])]);
    var s1 := Step(s, Exit(0));
    LeftZombie(s1, 2);
    var s2 := Step(s1, Switch(2));
    Exited(s2, 7, [Process(Ready, 0, 0, 0, []), Process(Zombie, 1, 0, 0, []), Process(Zombie, 2, 1, 7, [])]);
  }

  // The child's code is never handed to anyone.
  lemma OrphanLost(es: seq<Event>)
    ensures Inv(Boot(3))
    ensures var s := Run(Boot(3), BothFork + BothExit); |s.table| == 3 && Bereft(s.table, 2) && s.table[2].exitCode == 7 && Run(s, es).table[2] == s.table[2]
  {
    BootInv(3);
    hide Inv, Boot;
    RunJoin(Boot(3), BothFork, BothExit);
    AfterForks(Boot(3));
    AfterExits(Run(Boot(3), BothFork));
    hide Run;
    BereftForever(Run(Boot(3), BothFork + BothExit), es, 2);
  }

  // The one deadlock: the kernel waiting with no child but itself, its own
  // parent, is never woken again.
  lemma {:induction false} AloneForever(s: State, es: seq<Event>)
    requires Inv(s) && s.table[0].state == Waiting && Alone(s.table, 0)
    ensures Run(s, es).table[0].state == Waiting && Alone(Run(s, es).table, 0)
    decreases |es|
  {
    if es != [] {
      StepInv(s, es[0]);
      AloneStep(s, es[0]);
      AloneForever(Step(s, es[0]), es[1..]);
    }
  }

  lemma AloneStep(s: State, e: Event)
    requires Inv(s) && s.table[0].state == Waiting && Alone(s.table, 0)
    ensures Step(s, e).table[0].state == Waiting && Alone(Step(s, e).table, 0)
  {
    var t, c := s.table, s.current;
    assert Used(t, 0) && Used(t, c);
    if Enabled(s, e) {
      match e
      case Exit(code) =>
        if t[c].pid != 0 {
          var u := t[c := t[c].(state := Zombie, exitCode := code)];
          assert forall j: nat :: Used(u, j) <==> Used(t, j);
          assert t[c].parentPid != 0 by {
            assert !Child(t, c, 0);
          }
          WokenFacts(u, t[c].parentPid, s.nextPid);
          hide Woken;
          var w := Step(s, e).table;
          forall j: nat | 0 < j < |w| ensures !Child(w, j, 0) {
            assert !Child(t, j, 0);
          }
        }
      case Wait =>
        var w := Step(s, e).table;
        forall j: nat | 0 < j < |w| ensures !Child(w, j, 0) {
          assert !Child(t, j, 0);
        }
      case Fork(createOk, cloneOk) =>
        var w := Step(s, e).table;
        assert c != 0 && t[c].pid != 0;
        forall j: nat | 0 < j < |w| ensures !Child(w, j, 0) {
          assert !Child(t, j, 0);
        }
      case Switch(next) =>
        var w := Step(s, e).table;
        forall j: nat | 0 < j < |w| ensures !Child(w, j, 0) {
          assert !Child(t, j, 0);
        }
    }
  }

  // It does happen: at boot the kernel calls wait.
  lemma KernelWaitsForItself(n: nat, es: seq<Event>)
    requires n >= 1
    ensures Inv(Step(Boot(n), Wait)) && |Step(Boot(n), Wait).table| == n && Run(Step(Boot(n), Wait), es).table[0].state == Waiting
  {
    BootInv(n);
    StepInv(Boot(n), Wait);
    assert Child(Boot(n).table, 0, 0);
    AloneForever(Step(Boot(n), Wait), es);
  }

  // So a waiting process has a runnable descendant exactly when it is not the
  // kernel alone.
  lemma WaitsForSomebody(s: State, i: nat)
    requires Inv(s) && i < |s.table| && s.table[i].state == Waiting
    ensures (exists path: seq<nat> :: Lineage(s.table, path) && path[0] == i && Runnable(s.table, path[|path| - 1])) <==> !Alone(s.table, i)
  {
    if !Alone(s.table, i) {
      var path := DescendantRuns(s, i);
    } else {
      assert Used(s.table, 0);
      forall path: seq<nat> | Lineage(s.table, path) ensures path[0] != i {
        assert path[1] > 0 && Live(s.table, path[1], s.table[path[0]].pid);
      }
    }
  }

  // Each exit code is handed back at most once, to the parent, as it was given.
  lemma ReapedOnce(n: nat, es: seq<Event>)
    requires n >= 1
    ensures Inv(Boot(n))
    ensures var t := Run(Boot(n), es);
      (forall a, b :: 0 <= a < b < |t.reaped| ==> t.reaped[a].child != t.reaped[b].child) &&
      forall r <- t.reaped :: r.child in t.parents && t.parents[r.child] == r.to && r.child in t.exits && t.exits[r.child] == r.code
  {
    BootInv(n);
    assert Recorded(Run(Boot(n), es));
  }

  // What exit does to every slot: its own is a zombie with the code, and of the
  // others only a parent that waited changes.
  lemma ExitMeans(s: State, code: int, i: nat)
    requires Inv(s) && Enabled(s, Exit(code)) && i < |s.table|
    ensures var (p, q, me) := (s.table[i], ExitStep(s, code).table, s.table[s.current]);
      |q| == |s.table| &&
      q[i] == if me.pid == 0 then p
              else if i == s.current then Process(Zombie, me.pid, me.parentPid, code, me.files)
              else if p.state == Waiting && p.pid == me.parentPid then p.(state := Ready)
              else p
  {
    var me := s.table[s.current];
    assert Used(s.table, s.current);
    if me.pid != 0 {
      var t := s.table[s.current := me.(state := Zombie, exitCode := code)];
      forall a: nat, b: nat | Used(t, a) && Used(t, b) && t[a].pid == t[b].pid ensures a == b {
        assert Used(s.table, a) && Used(s.table, b);
      }
      WokenFacts(t, me.parentPid, s.nextPid);
    }
  }

  // A pass of wait frees one slot, of a zombie whose recorded parent is the
  // caller, or puts the caller to sleep over live children, or does nothing
  // because there is none.
  lemma WaitMeans(s: State)
    requires Inv(s) && Enabled(s, Wait)
    ensures var (t, me) := (WaitStep(s), s.table[s.current]);
      if exists z: nat :: z < |s.table| && Child(s.table, z, me.pid) && s.table[z].state == Zombie then
        exists z: nat :: 0 < z < |s.table| && Child(s.table, z, me.pid) && s.table[z].state == Zombie && t.table == s.table[z := Free] &&
          s.table[z].pid in s.exits && t.reaped == s.reaped + [Reaped(me.pid, s.table[z].pid, s.exits[s.table[z].pid])]
      else if exists c: nat :: c < |s.table| && Live(s.table, c, me.pid) then t.reaped == s.reaped && t.table == s.table[s.current := me.(state := Waiting)]
      else t == s
  {
    var me := s.table[s.current];
    match ZombieChild(s.table, me.pid, 0)
    case Some(z) =>
      assert z > 0;
      assert Used(s.table, z);
    case None =>
      if HasChild(s.table, me.pid) {
        var c :| 0 <= c < |s.table| && Child(s.table, c, me.pid);
        assert Live(s.table, c, me.pid);
      }
  }

  // Fork fills one unused slot with a ready child of the caller, or leaves the
  // table as it was.
  lemma ForkMeans(s: State, createOk: bool, cloneOk: bool)
    requires Inv(s) && Enabled(s, Fork(createOk, cloneOk))
    ensures var (t, me) := (ForkStep(s, createOk, cloneOk), s.table[s.current]);
      if createOk && cloneOk && (exists k: nat :: 0 < k < |s.table| && s.table[k].state == Unused) then
        exists k: nat :: 0 < k < |s.table| && s.table[k].state == Unused && t.table == s.table[k := Process(Ready, s.nextPid, me.pid, 0, me.files)]
      else forall k: nat :: k < |s.table| ==> t.table[k] == s.table[k] || (s.table[k].state == t.table[k].state == Unused)
  {
    match FreeSlot(s.table, 1)
    case Some(k) => assert 0 < k < |s.table| && s.table[k].state == Unused;
    case None =>
  }

  lemma PidsBelow(s: State)
    requires Inv(s)
    ensures |s.table| >= 1 && s.current < |s.table| && forall i: nat :: Used(s.table, i) ==> i < |s.table| && s.table[i].pid < s.nextPid
  {
  }

  // ---- the system calls

  // Reaped, no child at all, or put to sleep until a child exits.
  datatype WaitResult = Got(child: nat, code: int) | NoChild | Blocked

  class ProcessTable {
    const table: array<Process>
    var current: nat
    var nextPid: nat
    ghost var exits: map<nat, int>
    ghost var parents: map<nat, nat>
    ghost var reaped: seq<Reaped>

    ghost function Abs(): State
      reads this, table
    {
      State(table[..], current, nextPid, exits, parents, reaped)
    }

    // process_init
    constructor ()
      ensures Abs() == Boot(MAX_PROCESSES) && Inv(Abs()) && fresh(table)
    {
      table := new Process[MAX_PROCESSES](_ => Free);
      current, nextPid := 0, 1;
      exits, parents, reaped := map[], map[], [];
      new;
      table[0] := Process(Running, 0, 0, 0, []);
      BootInv(MAX_PROCESSES);
      assert table[..] == Boot(MAX_PROCESSES).table;
    }

    // get_process
    method GetProcess(pid: nat) returns (r: Option<nat>)
      ensures r == Lookup(table[..], pid, 0)
    {
      var i := 0;
      while i < table.Length
        invariant 0 <= i <= table.Length && Lookup(table[..], pid, 0) == Lookup(table[..], pid, i)
      {
        if table[i].state != Unused && table[i].pid == pid {
          return Some(i);
        }
        i := i + 1;
      }
      return None;
    }

    // sys_exit, up to its call of schedule.
    method SysExit(code: int)
      requires Inv(Abs()) && Enabled(Abs(), Exit(code))
      modifies this`exits, table
      ensures Inv(Abs()) && Abs() == ExitStep(old(Abs()), code)
    {
      StepInv(Abs(), Exit(code));
      hide Inv;
      if table[current].pid == 0 {
        return;
      }
      var parentPid := table[current].parentPid;
      exits := exits[table[current].pid := code];
      table[current] := table[current].(state := Zombie, exitCode := code);
      var parent := GetProcess(parentPid);
      if parent.Some? && table[parent.value].state == Waiting {
        table[parent.value] := table[parent.value].(state := Ready);
      }
    }

    // One pass of the loop of sys_wait, up to its call of schedule.
    method SysWait() returns (r: WaitResult)
      requires Inv(Abs()) && Enabled(Abs(), Wait)
      modifies this`reaped, table
      ensures Inv(Abs()) && Abs() == WaitStep(old(Abs()))
      ensures var z := ZombieChild(old(table[..]), old(table[current].pid), 0);
        match z
        case Some(i) => r == Got(old(table[..])[i].pid, old(table[..])[i].exitCode)
        case None => r == if HasChild(old(table[..]), old(table[current].pid)) then Blocked else NoChild
    {
      StepInv(Abs(), Wait);
      hide Inv;
      var me := table[current];
      var hasChildren := false;
      var i := 0;
      while i < table.Length
        invariant 0 <= i <= table.Length
        invariant ZombieChild(table[..], me.pid, 0) == ZombieChild(table[..], me.pid, i)
        invariant hasChildren <==> exists j :: 0 <= j < i && Child(table[..], j, me.pid)
      {
        if table[i].state != Unused && table[i].parentPid == me.pid {
          assert Child(table[..], i, me.pid);
          hasChildren := true;
          if table[i].state == Zombie {
            var child, code := table[i].pid, table[i].exitCode;
            reaped := reaped + [Reaped(me.pid, child, code)];
            table[i] := Free;
            return Got(child, code);
          }
        }
        i := i + 1;
      }
      if !hasChildren {
        return NoChild;
      }
      table[current] := me.(state := Waiting);
      return Blocked;
    }

    // process_create as sys_fork uses it: the slot it takes.
    method CreateSlot() returns (r: Option<nat>)
      requires table.Length >= 1
      ensures r == FreeSlot(table[..], 1)
    {
      var i := 1;
      while i < table.Length
        invariant 1 <= i <= table.Length && FreeSlot(table[..], 1) == FreeSlot(table[..], i)
      {
        if table[i].state == Unused {
          return Some(i);
        }
        i := i + 1;
      }
      return None;
    }

    // sys_fork: the pid of the child, larger than every pid so far; the child is
    // ready, has this parent and its open files.
    method SysFork(createOk: bool, cloneOk: bool) returns (r: Option<nat>)
      requires Inv(Abs()) && Enabled(Abs(), Fork(createOk, cloneOk))
      modifies this`nextPid, this`parents, table
      ensures Inv(Abs()) && Abs() == ForkStep(old(Abs()), createOk, cloneOk)
      ensures r.Some? <==> createOk && cloneOk && FreeSlot(old(table[..]), 1).Some?
      ensures r.Some? ==> forall i: nat :: Used(old(table[..]), i) ==> old(table[..])[i].pid < r.value
      ensures r.Some? ==> exists k: nat :: Filled(old(table[..]), table[..], k, Process(Ready, r.value, old(table[current].pid), 0, old(table[current].files)))
    {
      hide Inv, Used, FreeSlot;
      StepInv(Abs(), Fork(createOk, cloneOk));
      PidsBelow(Abs());
      var slot := CreateSlot();
      if slot.None? || !createOk {
        return None;
      }
      var pid, me := nextPid, table[current];
      nextPid := nextPid + 1;
      if !cloneOk {
        table[slot.value] := Free;
        return None;
      }
      parents := parents[pid := me.pid];
      table[slot.value] := Process(Ready, pid, me.pid, 0, me.files);
      SlotUnused(old(table[..]), slot.value);
      assert Filled(old(table[..]), table[..], slot.value, Process(Ready, pid, me.pid, 0, me.files));
      return Some(pid);
    }

    // schedule, picking a ready process.
    method Schedule(next: nat)
      requires Inv(Abs()) && Enabled(Abs(), Switch(next))
      modifies this`current, table
      ensures Inv(Abs()) && Abs() == SwitchStep(old(Abs()), next)
    {
      StepInv(Abs(), Switch(next));
      hide Inv;
      if table[current].state == Running {
        table[current] := table[current].(state := Ready);
      }
      current := next;
      table[next] := table[next].(state := Running);
    }

    // What fork tells the parent is what wait tells it when that child exits,
    // with the code the child exited with.
    method ForkExitWait(code: int) returns (child: Option<nat>, got: WaitResult)
      requires Inv(Abs()) && current < table.Length && table[current].state == Running
      requires forall j :: 0 <= j < table.Length && Child(table[..], j, table[current].pid) ==> table[j].state != Zombie
      modifies this, table
      ensures Inv(Abs()) && (child.Some? ==> got == Got(child.value, code))
      ensures child.Some? <==> exists k :: 0 < k < table.Length && old(table[..])[k].state == Unused
    {
      hide Inv, ForkStep, SwitchStep, ExitStep, WaitStep;
      ghost var s := Abs();
      var me := current;
      CanFork(s);
      child := SysFork(true, true);
      if child.None? {
        return None, NoChild;
      }
      ghost var k := FreeSlot(s.table, 1).value;
      AfterFork(s, k);
      var slot := GetProcess(child.value);
      Schedule(slot.value);
      AfterSwitch(s, k);
      SysExit(code);
      AfterExit(s, k, code);
      Schedule(me);
      got := SysWait();
    }
  }

  // Slot k, which was unused, has p, and no other slot changed.
  ghost predicate Filled(t: Table, t': Table, k: nat, p: Process) {
    0 < k < |t| && t[k].state == Unused && t' == t[k := p]
  }

  lemma SlotUnused(t: Table, k: nat)
    requires |t| >= 1 && FreeSlot(t, 1) == Some(k)
    ensures 0 < k < |t| && t[k].state == Unused
  {
  }

  lemma CanFork(s: State)
    requires Inv(s) && s.current < |s.table| && s.table[s.current].state == Running
    ensures 1 <= |s.table| && Enabled(s, Fork(true, true))
  {
  }

  ghost predicate ForkedIn(s: State, k: nat) {
    Inv(s) && s.current < |s.table| && s.table[s.current].state == Running && |s.table| >= 1 && FreeSlot(s.table, 1) == Some(k) &&
    forall j :: 0 <= j < |s.table| && Child(s.table, j, s.table[s.current].pid) ==> s.table[j].state != Zombie
  }

  ghost function Born(s: State): Process
    requires s.current < |s.table|
  {
    Process(Ready, s.nextPid, s.table[s.current].pid, 0, s.table[s.current].files)
  }

  lemma AfterFork(s: State, k: nat)
    requires ForkedIn(s, k)
    ensures var t := ForkStep(s, true, true);
      t.table == s.table[k := Born(s)] && t.current == s.current && Lookup(t.table, s.nextPid, 0) == Some(k) && Enabled(t, Switch(k))
  {
    var t := ForkStep(s, true, true);
    SlotUnused(s.table, k);
    forall j: nat | j < |t.table| && t.table[j].state != Unused && t.table[j].pid == s.nextPid ensures j == k {
      assert j != k ==> Used(s.table, j);
    }
    assert t.table[k].state != Unused && t.table[k].pid == s.nextPid;
  }

  lemma AfterSwitch(s: State, k: nat)
    requires ForkedIn(s, k)
    ensures var t := SwitchStep(ForkStep(s, true, true), k); Enabled(t, Exit(0)) && t.current == k && k < |s.table| && 1 <= |t.table|
    ensures forall code: int :: Enabled(SwitchStep(ForkStep(s, true, true), k), Exit(code))
    ensures SwitchStep(ForkStep(s, true, true), k).table == s.table[k := Born(s).(state := Running)][s.current := s.table[s.current].(state := Ready)]
  {
    SlotUnused(s.table, k);
  }

  lemma AfterExit(s: State, k: nat, code: int)
    requires ForkedIn(s, k) && k < |s.table| && SwitchStep(ForkStep(s, true, true), k).current == k < |SwitchStep(ForkStep(s, true, true), k).table|
    ensures var t := ExitStep(SwitchStep(ForkStep(s, true, true), k), code); Enabled(t, Switch(s.current))
    ensures var u := SwitchStep(ExitStep(SwitchStep(ForkStep(s, true, true), k), code), s.current);
      u.current == s.current < |u.table| && Enabled(u, Wait) && ZombieChild(u.table, u.table[u.current].pid, 0) == Some(k) &&
      k < |u.table| && u.table[k].pid == s.nextPid && u.table[k].exitCode == code
  {
    var u := SwitchStep(ExitStep(SwitchStep(ForkStep(s, true, true), k), code), s.current);
    var t := SwitchStep(ForkStep(s, true, true), k).table;
    AfterSwitch(s, k);
    WokenKeeps(t[k := t[k].(state := Zombie, exitCode := code)], t[k].parentPid);
    assert Used(s.table, 0);
    hide Woken;
    OnlyZombie(u.table, s.table[s.current].pid, k);
  }

  // Waking somebody makes no zombie and unmakes none.
  lemma WokenKeeps(t: Table, pid: nat)
    ensures |Woken(t, pid)| == |t|
    ensures forall j :: 0 <= j < |t| ==> var p := Woken(t, pid)[j];
      p.pid == t[j].pid && p.parentPid == t[j].parentPid && p.exitCode == t[j].exitCode && (p == t[j] || (t[j].state == Waiting && p.state == Ready))
  {
  }

  lemma OnlyZombie(t: Table, pid: nat, k: nat)
    requires k < |t| && Child(t, k, pid) && t[k].state == Zombie
    requires forall j :: 0 <= j < |t| && j != k && Child(t, j, pid) ==> t[j].state != Zombie
    ensures ZombieChild(t, pid, 0) == Some(k)
  {
  }
}
