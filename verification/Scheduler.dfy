// build_exclude/process_advanced.c: the per-processor scheduler with a realtime
// queue, priority queues and a batch queue, each first in, first out.
module Scheduler {
  datatype ThreadState = NEW | READY | RUNNING | WAITING

  datatype Class = Realtime | Priority(p: nat) | Batch

  class Thread {
    const kind: Class
    const timeSlice: nat
    var state: ThreadState
    var remaining: nat

    constructor (kind: Class, timeSlice: nat)
      ensures this.kind == kind && this.timeSlice == timeSlice && state == NEW && remaining == timeSlice
    {
      this.kind, this.timeSlice, state, remaining := kind, timeSlice, NEW, timeSlice;
    }
  }

  // ---- the queues in the order select_next_thread looks at them

  // Level 0 is realtime, then the priorities from the highest down, then batch.
  function Level(c: Class, priorities: nat): nat {
    match c
    case Realtime => 0
    case Priority(p) => if p < priorities then priorities - p else 0
    case Batch => priorities + 1
  }

  // Realtime goes before every priority, a larger number before a smaller, and
  // batch last.
  lemma LevelOrder(p: nat, q: nat, priorities: nat)
    requires p < q < priorities
    ensures Level(Realtime, priorities) < Level(Priority(q), priorities) < Level(Priority(p), priorities) < Level(Batch, priorities)
  {
  }

  // The class names a queue there is.
  predicate Fits(t: Thread?, priorities: nat) {
    t != null && t.kind.Priority? ==> t.kind.p < priorities
  }

  type Queues = seq<seq<Thread>>

  // running: whether the current thread can go on.
  datatype View = View(queues: Queues, current: Thread?, running: bool)

  ghost function Enqueued(q: Queues, t: Thread, priorities: nat): (r: Queues)
    ensures |r| == |q|
  {
    if Level(t.kind, priorities) < |q| then q[Level(t.kind, priorities) := q[Level(t.kind, priorities)] + [t]] else q
  }

  // The highest level from i down that has a thread, or |q|.
  ghost function Top(q: Queues, i: nat): (r: nat)
    requires i <= |q|
    ensures i <= r <= |q| && (r < |q| ==> q[r] != []) && forall j :: i <= j < r ==> q[j] == []
    decreases |q| - i
  {
    if i == |q| || q[i] != [] then i else Top(q, i + 1)
  }

  // A current thread that can go on is put back first.
  ghost function Requeued(v: View, priorities: nat): Queues {
    if v.current != null && v.running then Enqueued(v.queues, v.current, priorities) else v.queues
  }

  // schedule_next_thread
  ghost function Resched(v: View, idle: Thread?, priorities: nat): View {
    var q := Requeued(v, priorities);
    var top := Top(q, 0);
    if top == |q| then View(q, idle, idle != null) else View(q[top := q[top][1..]], q[top][0], true)
  }

  // ---- one place each

  ghost predicate Queued(q: Queues, t: Thread) {
    exists l: nat :: l < |q| && t in q[l]
  }

  // Threads wait on the queue of their class, at most once, and the current one
  // not at all.
  ghost predicate Placed(v: View, priorities: nat) {
    |v.queues| == priorities + 2 && Fits(v.current, priorities) &&
    (forall l: nat, t :: l < |v.queues| && t in v.queues[l] ==> Level(t.kind, priorities) == l && t != v.current && Fits(t, priorities)) &&
    forall l: nat, i, j :: l < |v.queues| && 0 <= i < j < |v.queues[l]| ==> v.queues[l][i] != v.queues[l][j]
  }

  ghost predicate Runnable(v: View, t: Thread) {
    Queued(v.queues, t) || (v.running && v.current == t)
  }

  // The queues alone, with nobody on two of them or twice on one.
  ghost predicate Sorted(q: Queues, priorities: nat) {
    |q| == priorities + 2 &&
    (forall l: nat, t :: l < |q| && t in q[l] ==> Level(t.kind, priorities) == l && Fits(t, priorities)) &&
    forall l: nat, i, j :: l < |q| && 0 <= i < j < |q[l]| ==> q[l][i] != q[l][j]
  }

  lemma EnqueuedSorted(q: Queues, t: Thread, priorities: nat)
    requires Sorted(q, priorities) && !Queued(q, t) && Fits(t, priorities)
    ensures var r := Enqueued(q, t, priorities); Sorted(r, priorities) && forall u :: Queued(r, u) <==> Queued(q, u) || u == t
  {
    var r, l := Enqueued(q, t, priorities), Level(t.kind, priorities);
    assert t !in q[l];
    forall u ensures Queued(r, u) <==> Queued(q, u) || u == t {
      if Queued(q, u) {
        var k: nat :| k < |q| && u in q[k];
        assert u in r[k];
      }
      if u == t { assert u in r[l]; }
      if Queued(r, u) {
        var k: nat :| k < |r| && u in r[k];
        assert k != l ==> u in q[k];
      }
    }
  }

  lemma DequeuedSorted(q: Queues, l: nat, priorities: nat)
    requires Sorted(q, priorities) && l < |q| && q[l] != []
    ensures var r := q[l := q[l][1..]]; Sorted(r, priorities) && !Queued(r, q[l][0]) && forall u :: Queued(q, u) <==> Queued(r, u) || u == q[l][0]
  {
    var r, t := q[l := q[l][1..]], q[l][0];
    assert t in q[l];
    forall u ensures Queued(q, u) <==> Queued(r, u) || u == t {
      if Queued(q, u) && u != t {
        var k: nat :| k < |q| && u in q[k];
        assert u in r[k];
      }
      if Queued(r, u) {
        var k: nat :| k < |r| && u in r[k];
        assert u in q[k];
      }
    }
    assert forall i :: 1 <= i < |q[l]| ==> q[l][i] != t;
    forall k: nat | k < |r| ensures t !in r[k] {
      if k == l {
        assert r[k] == q[l][1..];
        forall i | 0 <= i < |r[k]| ensures r[k][i] != t {
          assert r[k][i] == q[l][i + 1];
        }
      } else {
        assert r[k] == q[k] && Level(t.kind, priorities) == l;
      }
    }
  }

  lemma RequeuedSorted(v: View, priorities: nat)
    requires Placed(v, priorities)
    ensures Sorted(Requeued(v, priorities), priorities) && forall u: Thread :: Queued(Requeued(v, priorities), u) <==> Runnable(v, u)
  {
    assert Sorted(v.queues, priorities);
    if v.current != null && v.running {
      hide Enqueued;
      EnqueuedSorted(v.queues, v.current, priorities);
    }
  }

  lemma TopQueued(q: Queues)
    requires Top(q, 0) < |q|
    ensures Queued(q, q[Top(q, 0)][0])
  {
    assert q[Top(q, 0)][0] in q[Top(q, 0)];
  }

  // Scheduling keeps every runnable thread, each in one place; only when nothing
  // at all is runnable does the idle thread come in.
  lemma ReschedPlaces(v: View, idle: Thread?, priorities: nat)
    requires Placed(v, priorities) && Fits(idle, priorities)
    ensures var w := Resched(v, idle, priorities);
      Placed(w, priorities) && (w.running <==> w.current != null) &&
      forall t: Thread :: Runnable(w, t) <==> Runnable(v, t) || (t == idle && forall u: Thread :: !Runnable(v, u))
  {
    hide Requeued, Top;
    RequeuedSorted(v, priorities);
    var q := Requeued(v, priorities);
    var top := Top(q, 0);
    if top < |q| {
      TopQueued(q);
      DequeuedSorted(q, top, priorities);
    }
  }

  // The thread dispatched is of the highest level that had one runnable.
  lemma ReschedHighest(v: View, idle: Thread?, priorities: nat, t: Thread)
    requires Placed(v, priorities) && Runnable(v, t)
    ensures var w := Resched(v, idle, priorities); w.current != null && Runnable(v, w.current) && Level(w.current.kind, priorities) <= Level(t.kind, priorities)
  {
    hide Requeued, Top;
    RequeuedSorted(v, priorities);
    var q := Requeued(v, priorities);
    var l: nat :| l < |q| && t in q[l];
    TopQueued(q);
  }

  // ---- whole runs

  // Between calls of schedule threads become ready and the current one blocks.
  datatype Event = Schedule | Ready(t: Thread) | Block

  ghost function Step(v: View, e: Event, idle: Thread?, priorities: nat): View {
    match e
    case Schedule => Resched(v, idle, priorities)
    case Ready(t) => v.(queues := Enqueued(v.queues, t, priorities))
    case Block => v.(running := false)
  }

  ghost function Run(v: View, es: seq<Event>, idle: Thread?, priorities: nat): View
    decreases |es|
  {
    if es == [] then v else Run(Step(v, es[0], idle, priorities), es[1..], idle, priorities)
  }

  ghost function Calls(es: seq<Event>): nat {
    if es == [] then 0 else (if es[0].Schedule? then 1 else 0) + Calls(es[1..])
  }

  // Nothing of a level above l is runnable.
  ghost predicate Quiet(v: View, l: nat, priorities: nat) {
    |v.queues| == priorities + 2 && (forall j: nat :: j < l && j < |v.queues| ==> v.queues[j] == []) &&
    (v.current != null && v.running ==> Level(v.current.kind, priorities) >= l)
  }

  ghost predicate Calm(es: seq<Event>, l: nat, priorities: nat) {
    forall i :: 0 <= i < |es| && es[i].Ready? ==> Level(es[i].t.kind, priorities) >= l
  }

  // One step with t at position k of the top level: a call of schedule takes the
  // head, anything else leaves t where it is.
  lemma QuietStep(v: View, e: Event, l: nat, k: nat, idle: Thread?, priorities: nat)
    requires Quiet(v, l, priorities) && l < |v.queues| && k < |v.queues[l]| && (forall i :: 0 <= i < |v.queues[l]| ==> Level(v.queues[l][i].kind, priorities) == l)
    requires e.Ready? ==> Level(e.t.kind, priorities) >= l
    ensures var w := Step(v, e, idle, priorities);
      Quiet(w, l, priorities) && |w.queues| == |v.queues| &&
      (forall i :: 0 <= i < |w.queues[l]| ==> Level(w.queues[l][i].kind, priorities) == l) &&
      if !e.Schedule? then k < |w.queues[l]| && w.queues[l][k] == v.queues[l][k]
      else if k == 0 then w.current == v.queues[l][0]
      else k - 1 < |w.queues[l]| && w.queues[l][k - 1] == v.queues[l][k]
  {
    hide Enqueued, Level, Top;
    match e
    case Schedule =>
      if v.current != null && v.running { QueueQuiet(v.queues, v.current, l, k, priorities); }
      TopIs(Requeued(v, priorities), l);
    case Ready(t) => QueueQuiet(v.queues, t, l, k, priorities);
    case Block =>
  }

  // A thread of level l or below goes behind those of level l.
  lemma QueueQuiet(q: Queues, t: Thread, l: nat, k: nat, priorities: nat)
    requires l < |q| && k < |q[l]| && Level(t.kind, priorities) >= l && (forall j: nat :: j < l ==> q[j] == [])
    requires forall i :: 0 <= i < |q[l]| ==> Level(q[l][i].kind, priorities) == l
    ensures var r := Enqueued(q, t, priorities);
      |r| == |q| && (forall j: nat :: j < l ==> r[j] == []) && |r[l]| >= |q[l]| && r[l][k] == q[l][k] && r[l][0] == q[l][0] &&
      forall i :: 0 <= i < |r[l]| ==> Level(r[l][i].kind, priorities) == l
  {
    hide Level;
  }

  lemma TopIs(q: Queues, l: nat)
    requires l < |q| && q[l] != [] && forall j: nat :: j < l ==> q[j] == []
    ensures Top(q, 0) == l
  {
    var top := Top(q, 0);
    assert top <= l;
    assert top < |q| && q[top] != [];
  }

  // Fairness: with nothing above its level around, the thread at position k runs
  // at the (k+1)-th call of schedule, whatever else gets ready or blocks.
  lemma {:induction false} RunsInTurn(v: View, es: seq<Event>, l: nat, k: nat, idle: Thread?, priorities: nat)
    requires Placed(v, priorities) && Quiet(v, l, priorities) && l < |v.queues| && k < |v.queues[l]| && Calm(es, l, priorities)
    requires es != [] && es[|es| - 1].Schedule? && Calls(es) == k + 1
    ensures Run(v, es, idle, priorities).current == v.queues[l][k]
  {
    assert forall i :: 0 <= i < |v.queues[l]| ==> v.queues[l][i] in v.queues[l];
    InTurn(v, es, l, k, idle, priorities);
  }

  lemma {:induction false} InTurn(v: View, es: seq<Event>, l: nat, k: nat, idle: Thread?, priorities: nat)
    requires Quiet(v, l, priorities) && l < |v.queues| && k < |v.queues[l]| && Calm(es, l, priorities)
    requires forall i :: 0 <= i < |v.queues[l]| ==> Level(v.queues[l][i].kind, priorities) == l
    requires es != [] && es[|es| - 1].Schedule? && Calls(es) == k + 1
    ensures Run(v, es, idle, priorities).current == v.queues[l][k]
    decreases |es|
  {
    var e, rest := es[0], es[1..];
    QuietStep(v, e, l, k, idle, priorities);
    var w := Step(v, e, idle, priorities);
    if rest == [] {
      assert Calls(rest) == 0;
    } else {
      assert rest[|rest| - 1] == es[|es| - 1];
      assert Calm(rest, l, priorities);
      if e.Schedule? {
        LastCall(rest);
        InTurn(w, rest, l, k - 1, idle, priorities);
      } else {
        InTurn(w, rest, l, k, idle, priorities);
      }
    }
  }

  lemma {:induction false} LastCall(es: seq<Event>)
    requires es != [] && es[|es| - 1].Schedule?
    ensures Calls(es) >= 1
  {
    if |es| > 1 { LastCall(es[1..]); }
  }

  // The idle thread, once it has run, queues like any other: a thread below its
  // level then never runs, though nothing else is runnable.
  lemma {:induction false} IdleStarves(v: View, idle: Thread, t: Thread, n: nat, priorities: nat)
    requires Placed(v, priorities) && v.current == idle && v.running && Queued(v.queues, t)
    requires forall u :: Queued(v.queues, u) ==> Level(u.kind, priorities) > Level(idle.kind, priorities)
    ensures Run(v, seq(n, _ => Schedule), idle, priorities) == v
  {
    if n > 0 {
      var es := seq(n, _ => Schedule);
      assert es[1..] == seq(n - 1, _ => Schedule);
      IdleAgain(v, idle, priorities);
      IdleStarves(v, idle, t, n - 1, priorities);
    }
  }

  lemma IdleAgain(v: View, idle: Thread, priorities: nat)
    requires Placed(v, priorities) && v.current == idle && v.running
    requires forall u :: Queued(v.queues, u) ==> Level(u.kind, priorities) > Level(idle.kind, priorities)
    ensures Resched(v, idle, priorities) == v
  {
    var l := Level(idle.kind, priorities);
    var q := Enqueued(v.queues, idle, priorities);
    forall j: nat | j <= l ensures v.queues[j] == [] {
      if v.queues[j] != [] {
        assert v.queues[j][0] in v.queues[j];
        assert Queued(v.queues, v.queues[j][0]);
      }
    }
    assert l < |q| && v.queues[l] == [] && q[l] == [idle];
    TopIs(q, l);
    assert q[l][1..] == [];
    assert q[l := q[l][1..]] == v.queues;
  }

  // A running idle thread gives way exactly when a thread of its own level or a
  // higher one is queued, not when any thread is.
  lemma IdleGivesWay(v: View, idle: Thread, priorities: nat)
    requires Placed(v, priorities) && v.current == idle && v.running
    ensures Resched(v, idle, priorities).current == idle <==> forall u: Thread :: Queued(v.queues, u) ==> Level(u.kind, priorities) > Level(idle.kind, priorities)
  {
    if forall u: Thread :: Queued(v.queues, u) ==> Level(u.kind, priorities) > Level(idle.kind, priorities) {
      IdleAgain(v, idle, priorities);
    } else {
      var u: Thread :| Queued(v.queues, u) && Level(u.kind, priorities) <= Level(idle.kind, priorities);
      QueuedFirst(v, idle, u, priorities);
    }
  }

  // A thread behind others of its level, or of a lower one, is not next.
  lemma QueuedFirst(v: View, idle: Thread, u: Thread, priorities: nat)
    requires Placed(v, priorities) && v.current == idle && v.running
    requires Queued(v.queues, u) && Level(u.kind, priorities) <= Level(idle.kind, priorities)
    ensures Resched(v, idle, priorities).current != idle
  {
    var l: nat :| l < |v.queues| && u in v.queues[l];
    var q := Enqueued(v.queues, idle, priorities);
    var top := Top(q, 0);
    assert q[l] != [] && top <= l;
    assert q[top][0] in q[top];
    if top == Level(idle.kind, priorities) {
      assert v.queues[top] != [] && q[top][0] == v.queues[top][0];
      assert v.queues[top][0] in v.queues[top];
    } else {
      assert q[top][0] in v.queues[top];
    }
  }

  // An idle thread of priority 0 runs, and one batch thread is ready.
  ghost function BatchWaits(idle: Thread, t: Thread, priorities: nat): View {
    View(seq(priorities + 1, _ => []) + [[t]], idle, true)
  }

  lemma BatchStarves(idle: Thread, t: Thread, n: nat, priorities: nat)
    requires idle.kind == Priority(0) && t.kind == Batch && priorities > 0
    ensures var v := BatchWaits(idle, t, priorities); Placed(v, priorities) && Runnable(v, t) && Run(v, seq(n, _ => Schedule), idle, priorities) == v
  {
    var v := BatchWaits(idle, t, priorities);
    assert v.queues[priorities + 1] == [t];
    assert t in v.queues[priorities + 1];
    IdleStarves(v, idle, t, n, priorities);
  }

  // ---- the scheduler

  ghost function MembersOf(q: Queues): set<Thread> {
    set l: nat, t | l < |q| && t in q[l] :: t
  }

  // The three kinds of queues in the order they are looked at.
  ghost function Assembled(realtime: seq<Thread>, priority: seq<seq<Thread>>, batch: seq<Thread>): Queues {
    [realtime] + seq(|priority|, i requires 0 <= i < |priority| => priority[|priority| - 1 - i]) + [batch]
  }

  lemma RealtimeTail(realtime: seq<Thread>, priority: seq<seq<Thread>>, batch: seq<Thread>, t: Thread)
    requires t.kind.Realtime?
    ensures Assembled(realtime + [t], priority, batch) == Enqueued(Assembled(realtime, priority, batch), t, |priority|)
  {
    var q := Assembled(realtime, priority, batch);
    assert Enqueued(q, t, |priority|) == q[0 := realtime + [t]];
  }

  lemma PriorityTail(realtime: seq<Thread>, priority: seq<seq<Thread>>, batch: seq<Thread>, t: Thread, p: nat)
    requires t.kind == Priority(p) && p < |priority|
    ensures Assembled(realtime, priority[p := priority[p] + [t]], batch) == Enqueued(Assembled(realtime, priority, batch), t, |priority|)
  {
    var q := Assembled(realtime, priority, batch);
    assert Enqueued(q, t, |priority|) == q[|priority| - p := priority[p] + [t]];
  }

  lemma BatchTail(realtime: seq<Thread>, priority: seq<seq<Thread>>, batch: seq<Thread>, t: Thread)
    requires t.kind.Batch?
    ensures Assembled(realtime, priority, batch + [t]) == Enqueued(Assembled(realtime, priority, batch), t, |priority|)
  {
    var q := Assembled(realtime, priority, batch);
    assert Enqueued(q, t, |priority|) == q[|priority| + 1 := batch + [t]];
  }

  // p is the largest number of a priority queue that has a thread, and no
  // realtime thread is ready.
  ghost predicate Highest(realtime: seq<Thread>, priority: seq<seq<Thread>>, p: nat) {
    realtime == [] && p < |priority| && priority[p] != [] && forall q: nat :: p < q < |priority| ==> priority[q] == []
  }

  // A realtime thread that is ready is next, before the one that goes on.
  lemma RealtimeNext(v: View, idle: Thread?, priorities: nat)
    requires |v.queues| > 0 && v.queues[0] != []
    ensures Resched(v, idle, priorities).current == v.queues[0][0]
  {
    TopIs(Requeued(v, priorities), 0);
  }

  class CpuScheduler {
    const priorities: nat
    var current: Thread?
    const idle: Thread?
    var realtime: seq<Thread>
    var priority: seq<seq<Thread>>
    var batch: seq<Thread>

    ghost function Queues(): (q: Queues)
      reads this
    {
      Assembled(realtime, priority, batch)
    }

    ghost function Abs(): View
      requires |priority| == priorities
      reads this, current
    {
      View(Queues(), current, current != null && current.state == RUNNING)
    }

    ghost predicate Valid()
      reads this, current
    {
      |priority| == priorities && Placed(Abs(), priorities)
    }

    constructor (priorities: nat, idle: Thread?)
      ensures Valid() && this.priorities == priorities && this.idle == idle && current == null
      ensures forall t :: !Queued(Queues(), t)
    {
      this.priorities, this.idle, current := priorities, idle, null;
      realtime, batch := [], [];
      priority := seq(priorities, _ => []);
    }

    // enqueue_thread
    method Enqueue(t: Thread)
      requires |priority| == priorities && Fits(t, priorities)
      modifies this`realtime, this`priority, this`batch
      ensures |priority| == priorities && Queues() == Enqueued(old(Queues()), t, priorities)
      ensures realtime == old(realtime) + if t.kind.Realtime? then [t] else []
      ensures batch == old(batch) + if t.kind.Batch? then [t] else []
      ensures priority == match t.kind case Priority(p) => old(priority)[p := old(priority)[p] + [t]] case _ => old(priority)
    {
      hide Assembled, Enqueued;
      match t.kind
      case Realtime =>
        RealtimeTail(realtime, priority, batch, t);
        realtime := realtime + [t];
      case Batch =>
        BatchTail(realtime, priority, batch, t);
        batch := batch + [t];
      case Priority(p) =>
        PriorityTail(realtime, priority, batch, t, p);
        priority := priority[p := priority[p] + [t]];
    }

    // select_next_thread
    method SelectNext() returns (next: Thread?)
      requires |priority| == priorities
      modifies this`realtime, this`priority, this`batch
      ensures |priority| == priorities
      ensures var q := old(Queues()); var top := Top(q, 0);
        if top == |q| then next == idle && Queues() == q else next == q[top][0] && Queues() == q[top := q[top][1..]]
      ensures old(realtime) != [] ==> next == old(realtime)[0] && realtime == old(realtime)[1..] && priority == old(priority) && batch == old(batch)
      ensures forall p: nat :: Highest(old(realtime), old(priority), p) ==>
        next == old(priority)[p][0] && priority == old(priority)[p := old(priority)[p][1..]] && realtime == [] && batch == old(batch)
      ensures old(realtime) == [] && (forall p: nat :: p < |old(priority)| ==> old(priority)[p] == []) ==>
        realtime == [] && priority == old(priority) && if old(batch) == [] then next == idle && batch == [] else next == old(batch)[0] && batch == old(batch)[1..]
    {
      ghost var q := Queues();
      if realtime != [] {
        next := realtime[0];
        realtime := realtime[1..];
        TopIs(q, 0);
        assert Queues() == q[0 := q[0][1..]];
        return;
      }
      var i := priorities;
      while i > 0
        invariant 0 <= i <= priorities && Queues() == q && |priority| == priorities
        invariant forall j: nat :: j <= priorities - i ==> q[j] == []
        invariant realtime == old(realtime) == [] && priority == old(priority) && batch == old(batch)
        invariant forall p: nat :: i <= p < priorities ==> priority[p] == []
      {
        i := i - 1;
        assert q[priorities - i] == priority[i];
        if priority[i] != [] {
          next := priority[i][0];
          priority := priority[i := priority[i][1..]];
          TopIs(q, priorities - i);
          assert Queues() == q[priorities - i := q[priorities - i][1..]];
          return;
        }
      }
      assert q[priorities + 1] == batch;
      if batch != [] {
        next := batch[0];
        batch := batch[1..];
        TopIs(q, priorities + 1);
        assert Queues() == q[priorities + 1 := q[priorities + 1][1..]];
        return;
      }
      TopNone(q);
      next := idle;
    }

    // select_next_thread in terms of the levels alone.
    method TakeTop() returns (next: Thread?)
      requires |priority| == priorities
      modifies this`realtime, this`priority, this`batch
      ensures |priority| == priorities
      ensures var q := old(Queues()); var top := Top(q, 0);
        if top == |q| then next == idle && Queues() == q else next == q[top][0] && Queues() == q[top := q[top][1..]]
    {
      next := SelectNext();
    }

    // schedule_next_thread. The thread that goes on has a full time slice; every
    // other keeps its state, but for the old one, which is ready again.
    method ScheduleNext()
      requires Valid() && Fits(idle, priorities) && AllReady()
      modifies this`current, this`realtime, this`priority, this`batch, current, idle, Members()
      ensures Valid() && Abs() == Resched(old(Abs()), idle, priorities) && AllReady()
      ensures current != null ==> current.state == RUNNING && current.remaining == current.timeSlice
      ensures old(current) != null && old(current) != current && old(current.state) == RUNNING ==> old(current).state == READY
      ensures forall t <- old(Members()) :: t != current && t != old(current) ==> t.state == READY && t.remaining == old(t.remaining)
      ensures old(current) != null && old(current) != current ==> old(current).remaining == old(current.remaining)
      ensures old(current) != null && old(current) != current && old(current.state) != RUNNING ==> old(current).state == old(current.state)
      ensures old(realtime) != [] ==> current == old(realtime)[0]
    {
      if realtime != [] { RealtimeNext(Abs(), idle, priorities); }
      Dispatch(Members());
    }

    // waiting: every thread on a queue.
    method Dispatch(ghost waiting: set<Thread>)
      requires Valid() && Fits(idle, priorities) && waiting == Members() && forall t <- waiting :: t.state == READY
      modifies this`current, this`realtime, this`priority, this`batch, current, idle, waiting
      ensures Valid() && Abs() == Resched(old(Abs()), idle, priorities) && AllReady()
      ensures current != null ==> current.state == RUNNING && current.remaining == current.timeSlice
      ensures old(current) != null && old(current) != current && old(current.state) == RUNNING ==> old(current).state == READY
      ensures forall t <- waiting :: t != current && t != old(current) ==> t.state == READY && t.remaining == old(t.remaining)
      ensures old(current) != null && old(current) != current ==> old(current).remaining == old(current.remaining)
      ensures old(current) != null && old(current) != current && old(current.state) != RUNNING ==> old(current).state == old(current.state)
    {
      hide Placed, Runnable, Enqueued, Queued, Assembled, MembersOf, Highest, Level, Top, Fits;
      Dispatches();
      ghost var w := Resched(Abs(), idle, priorities);
      var was := current;
      if was != null && was.state == RUNNING {
        was.state := READY;
        Enqueue(was);
      }
      var next := TakeTop();
      assert next == w.current && Queues() == w.queues;
      assert forall t <- MembersOf(w.queues) :: t != next && (t == was || t in waiting);
      if next == was {
        if was != null {
          was.state := RUNNING;
          was.remaining := was.timeSlice;
        }
        return;
      }
      if next != null {
        next.state := RUNNING;
        next.remaining := next.timeSlice;
      }
      current := next;
    }

    // scheduler_tick: the idle thread is left alone; any other is preempted when
    // its slice is used up, a higher priority thread is ready, or a realtime one.
    method SchedulerTick(timeUsed: nat, higherReady: bool)
      requires Valid() && Fits(idle, priorities) && AllReady()
      modifies this`current, this`realtime, this`priority, this`batch, current, idle, Members()
      ensures Valid() && AllReady()
      ensures Abs() == if old(Preempts(timeUsed, higherReady)) then Resched(old(Abs()), idle, priorities) else old(Abs())
      ensures old(Preempts(timeUsed, higherReady)) <==> old(current) != null && old(current) != idle && (old(current.remaining) <= timeUsed || higherReady || old(realtime) != [])
      ensures old(Preempts(timeUsed, higherReady)) && current != null ==> current.state == RUNNING && current.remaining == current.timeSlice
      ensures old(current) != null && old(current) != idle && old(realtime) != [] ==> current == old(realtime)[0]
      ensures !old(Preempts(timeUsed, higherReady)) && current != null && current != idle ==> current.remaining == old(current.remaining) - timeUsed > 0
    {
      if current == null || current == idle {
        return;
      }
      CurrentApart();
      if current.remaining > timeUsed {
        current.remaining := current.remaining - timeUsed;
      } else {
        current.remaining := 0;
      }
      if current.remaining == 0 || higherReady || realtime != [] {
        ScheduleNext();
      }
    }

    ghost predicate Preempts(timeUsed: nat, higherReady: bool)
      reads this, current
    {
      current != null && current != idle && (current.remaining <= timeUsed || higherReady || realtime != [])
    }

    lemma CurrentApart()
      requires Valid()
      ensures current !in Members()
    {
      MembersQueued();
    }

    // Waiting threads are ready.
    ghost predicate AllReady()
      requires |priority| == priorities
      reads this, Members()
    {
      forall t <- Members() :: t.state == READY
    }

    // Every thread on a queue.
    ghost function Members(): set<Thread>
      requires |priority| == priorities
      reads this
    {
      MembersOf(Queues())
    }

    // Who is dispatched: the idle thread, the current one or a queued one.
    lemma Dispatches()
      requires Valid() && Fits(idle, priorities)
      ensures Fits(current, priorities) && current !in Members()
      ensures forall t <- MembersOf(Resched(Abs(), idle, priorities).queues) :: t in Members() || (t == current && t.state == RUNNING)
      ensures Resched(Abs(), idle, priorities).current !in MembersOf(Resched(Abs(), idle, priorities).queues)
      ensures var w := Resched(Abs(), idle, priorities); Placed(w, priorities) && (w.running <==> w.current != null)
      ensures var w := Resched(Abs(), idle, priorities); (w.current == null || w.current == idle || w.current == current || w.current in Members())
    {
      ReschedPlaces(Abs(), idle, priorities);
      MembersQueued();
      var w := Resched(Abs(), idle, priorities);
      assert w.current != null ==> Runnable(w, w.current);
      forall t <- MembersOf(w.queues) ensures t in Members() || (t == current && t.state == RUNNING) {
        assert Queued(w.queues, t) && Runnable(w, t) && t != w.current;
      }
    }

    lemma MembersQueued()
      requires |priority| == priorities
      ensures forall t :: t in Members() <==> Queued(Queues(), t)
    {
    }
  }

  lemma TopNone(q: Queues)
    requires forall j: nat :: j < |q| ==> q[j] == []
    ensures Top(q, 0) == |q|
  {
  }
}
