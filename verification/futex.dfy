/** The futex wait queues (`FutexWaitManager`): one FIFO queue of waiters per
    futex address. Waking hands tasks to the task manager's run queue, which
    this model records as the sequence of pushed task ids; the shared timeout
    flags that a timeout sets are recorded the same way. */
module Futex {
  import opened Kernel

  type TaskId = nat

  /** The identity of one waiter's shared `timeout_flag` cell. */
  type FlagId = nat

  datatype Waiter = Waiter(task: Option<TaskId>, waitTime: Option<nat>, timeoutFlag: FlagId)

  datatype Manager = Manager(queues: map<nat, seq<Waiter>>)

  /** `FutexWaitManager::new()`. */
  const EMPTY: Manager := Manager(map[])

  /** `FutexWaiter::new`: a waiter still holding its task, which the first
      wake hands back. */
  function NewWaiter(task: TaskId, waitTime: Option<nat>, flag: FlagId): (w: Waiter)
    ensures w.waitTime == waitTime && w.timeoutFlag == flag
    ensures WakeWaiter(w) == Ok(Taken(w.(task := None), task))
  {
    Waiter(Some(task), waitTime, flag)
  }

  datatype Taken = Taken(waiter: Waiter, task: TaskId)

  /** `FutexWaiter::wake`: `take` the task out of the waiter; the `unwrap`
      panics when it was taken before. */
  function WakeWaiter(w: Waiter): (r: Result<Taken>)
    ensures r.Ok? <==> w.task.Some?
    ensures !r.Err?
    ensures r.Ok? ==> Some(r.value.task) == w.task && r.value.waiter == w.(task := None)
  {
    if w.task.None? then Abort(UnwrapNone("waiter task"))
    else Ok(Taken(w.(task := None), w.task.value))
  }

  /** Every waiter in the queue still holds its task. */
  predicate AllWaiting(ws: seq<Waiter>)
  {
    forall i :: 0 <= i < |ws| ==> ws[i].task.Some?
  }

  /** A queue is waiting exactly when its head and its tail are. */
  lemma AllWaitingCons(w: Waiter, ws: seq<Waiter>)
    ensures AllWaiting([w] + ws) <==> w.task.Some? && AllWaiting(ws)
  {
    var all := [w] + ws;
    assert all[0] == w;
    assert forall j :: 0 <= j < |ws| ==> ws[j] == all[j + 1];
    if w.task.Some? && AllWaiting(ws) {
      forall j | 0 <= j < |all| ensures all[j].task.Some? {
        if j > 0 { assert all[j] == ws[j - 1]; }
      }
    }
  }

  /** Every queue of the manager holds only waiters that still hold their task. */
  predicate WellFormed(m: Manager)
  {
    forall f :: f in m.queues ==> AllWaiting(m.queues[f])
  }

  /** The tasks of a queue, in queue order. */
  function TasksOf(ws: seq<Waiter>): (r: seq<TaskId>)
    requires AllWaiting(ws)
    ensures |r| == |ws|
    ensures forall i :: 0 <= i < |ws| ==> Some(r[i]) == ws[i].task
  {
    if ws == [] then [] else [ws[0].task.value] + TasksOf(ws[1..])
  }

  /** The queue of `futex`, empty when it has none. */
  function Queue(m: Manager, futex: nat): seq<Waiter>
  {
    if futex in m.queues then m.queues[futex] else []
  }

  function Min(a: nat, b: nat): nat
  {
    if a <= b then a else b
  }

  // ---------------------------------------------------------------------
  // add_waiter, delete_empty_waiters, wake

  /** `add_waiter`: the waiter goes to the back of its futex's queue, which is
      created when absent. */
  function AddWaiter(m: Manager, futex: nat, w: Waiter): (r: Manager)
    ensures futex in r.queues && r.queues[futex] == Queue(m, futex) + [w]
    ensures r.queues - {futex} == m.queues - {futex}
  {
    Manager(m.queues[futex := Queue(m, futex) + [w]])
  }

  /** `delete_empty_waiters`: drop every key whose queue is empty. */
  function DeleteEmptyWaiters(m: Manager): (r: Manager)
    ensures r.queues.Keys <= m.queues.Keys
    ensures forall f :: f in r.queues ==> r.queues[f] != [] && r.queues[f] == m.queues[f]
    ensures forall f :: f in m.queues && m.queues[f] != [] ==> f in r.queues
  {
    Manager(map f | f in m.queues && m.queues[f] != [] :: m.queues[f])
  }

  datatype WakeOutcome = WakeOutcome(manager: Manager, count: nat, pushed: seq<TaskId>)

  /** `wake(futex, num)`: wake the first `min(num, len)` waiters in FIFO
      order, pushing their tasks, then drain them; the key stays even when
      its queue becomes empty. An unknown futex is `Err(Other)`. */
  function Wake(m: Manager, futex: nat, num: nat): (r: Result<WakeOutcome>)
    ensures futex !in m.queues ==> r == Err(Other)
    ensures futex in m.queues ==>
              (r.Ok? <==> forall i :: 0 <= i < Min(num, |m.queues[futex]|) ==> m.queues[futex][i].task.Some?)
    ensures futex in m.queues && AllWaiting(m.queues[futex]) ==> r.Ok?
    ensures r.Ok? ==> var ws := m.queues[futex];
                      && r.value.count == Min(num, |ws|)
                      && |r.value.pushed| == r.value.count
                      && (forall i :: 0 <= i < r.value.count ==> ws[i].task == Some(r.value.pushed[i]))
                      && futex in r.value.manager.queues
                      && r.value.manager.queues[futex] == ws[r.value.count..]
                      && r.value.manager.queues - {futex} == m.queues - {futex}
  {
    if futex !in m.queues then Err(Other)
    else
      var ws := m.queues[futex];
      var k := Min(num, |ws|);
      if exists i :: 0 <= i < k && !WakeWaiter(ws[i]).Ok? then Abort(UnwrapNone("waiter task"))
      else
        var woken := seq(k, i requires 0 <= i < k => WakeWaiter(ws[i]).value.task);
        Ok(WakeOutcome(Manager(m.queues[futex := ws[k..]]), k, woken))
  }

  /** Waking takes the front of the queue: the woken tasks followed by the
      tasks still waiting are exactly the tasks that were waiting, in order. */
  lemma WakeSplitsQueue(m: Manager, futex: nat, num: nat)
    requires WellFormed(m) && futex in m.queues
    ensures var r := Wake(m, futex, num);
            && r.Ok?
            && AllWaiting(r.value.manager.queues[futex])
            && r.value.pushed + TasksOf(r.value.manager.queues[futex]) == TasksOf(m.queues[futex])
  {
    var r := Wake(m, futex, num);
    var ws := m.queues[futex];
    var rest := r.value.manager.queues[futex];
    assert AllWaiting(rest);
    var lhs := r.value.pushed + TasksOf(rest);
    assert |lhs| == |TasksOf(ws)|;
    forall i | 0 <= i < |ws|
      ensures lhs[i] == TasksOf(ws)[i]
    {
      if i >= r.value.count {
        assert rest[i - r.value.count] == ws[i];
      }
    }
  }

  /** Waiters are woken in arrival order: after two waiters join an absent
      futex, waking one pushes the first to arrive and leaves the second. */
  lemma WakeIsFifo(m: Manager, futex: nat, a: TaskId, b: TaskId, ta: Option<nat>, tb: Option<nat>, fa: FlagId, fb: FlagId)
    requires futex !in m.queues
    ensures var m2 := AddWaiter(AddWaiter(m, futex, NewWaiter(a, ta, fa)), futex, NewWaiter(b, tb, fb));
            var r := Wake(m2, futex, 1);
            r.Ok? && r.value.pushed == [a] && r.value.manager.queues[futex] == [NewWaiter(b, tb, fb)]
  {
    var m2 := AddWaiter(AddWaiter(m, futex, NewWaiter(a, ta, fa)), futex, NewWaiter(b, tb, fb));
    assert m2.queues[futex] == [NewWaiter(a, ta, fa), NewWaiter(b, tb, fb)];
    var r := Wake(m2, futex, 1);
    assert r.Ok?;
    assert r.value.pushed[0] == a;
  }

  // ---------------------------------------------------------------------
  // requeue

  function Reverse<T>(s: seq<T>): (r: seq<T>)
    ensures |r| == |s|
    ensures forall i :: 0 <= i < |s| ==> r[i] == s[|s| - 1 - i]
  {
    if s == [] then [] else Reverse(s[1..]) + [s[0]]
  }

  datatype RequeueOutcome = RequeueOutcome(manager: Manager, count: nat)

  /** `requeue(requeue_futex, num, old_futex)`: take the old queue out of
      the map, pop `min(num, len)` waiters off its tail onto the target queue
      (so they arrive there in reverse), and put the rest back only when it
      is not empty. The `unwrap` panics when `old_futex` has no queue. */
  function Requeue(m: Manager, requeueFutex: nat, num: nat, oldFutex: nat): (r: Result<RequeueOutcome>)
    ensures num == 0 ==> r == Ok(RequeueOutcome(m, 0))
    ensures num > 0 ==> (r.Ok? <==> oldFutex in m.queues)
    ensures !r.Err?
    ensures r.Ok? && num > 0 ==> r.value.count == Min(num, |m.queues[oldFutex]|)
    ensures r.Ok? && num > 0 && requeueFutex != oldFutex ==>
              var ws := m.queues[oldFutex];
              var k := r.value.count;
              && (oldFutex in r.value.manager.queues <==> k < |ws|)
              && (k < |ws| ==> r.value.manager.queues[oldFutex] == ws[..|ws| - k])
              && requeueFutex in r.value.manager.queues
              && r.value.manager.queues[requeueFutex] == Queue(m, requeueFutex) + Reverse(ws[|ws| - k..])
              && r.value.manager.queues - {oldFutex, requeueFutex} == m.queues - {oldFutex, requeueFutex}
  {
    if num == 0 then Ok(RequeueOutcome(m, 0))
    else if oldFutex !in m.queues then Abort(UnwrapNone("old futex queue"))
    else
      var ws := m.queues[oldFutex];
      var rest := m.queues - {oldFutex};
      var target := if requeueFutex in rest then rest[requeueFutex] else [];
      var k := Min(num, |ws|);
      var moved := rest[requeueFutex := target + Reverse(ws[|ws| - k..])];
      var remaining := ws[..|ws| - k];
      Ok(RequeueOutcome(Manager(if remaining != [] then moved[oldFutex := remaining] else moved), k))
  }

  /** Between two distinct futexes no waiter is lost or duplicated: the
      waiters of both queues after a requeue are those before it. */
  lemma RequeueConservesWaiters(m: Manager, requeueFutex: nat, num: nat, oldFutex: nat)
    requires requeueFutex != oldFutex && oldFutex in m.queues && num > 0
    ensures var r := Requeue(m, requeueFutex, num, oldFutex).value.manager;
            multiset(Queue(r, oldFutex)) + multiset(Queue(r, requeueFutex))
            == multiset(Queue(m, oldFutex)) + multiset(Queue(m, requeueFutex))
  {
    var ws := m.queues[oldFutex];
    var k := Min(num, |ws|);
    var r := Requeue(m, requeueFutex, num, oldFutex).value.manager;
    var tail := ws[|ws| - k..];
    ReverseMultiset(tail);
    assert ws == ws[..|ws| - k] + tail;
    assert Queue(r, oldFutex) == ws[..|ws| - k];
  }

  lemma {:induction false} ReverseMultiset<T>(s: seq<T>)
    ensures multiset(Reverse(s)) == multiset(s)
  {
    if s != [] {
      ReverseMultiset(s[1..]);
      assert s == [s[0]] + s[1..];
    }
  }

  /** Requeueing a futex onto itself while some waiters remain puts the
      remainder back over the queue the moved waiters were just pushed onto,
      so the moved waiters leave the map although the count reports them. */
  lemma RequeueOntoItselfDropsMoved(m: Manager, futex: nat, num: nat)
    requires futex in m.queues && 0 < num < |m.queues[futex]|
    ensures var r := Requeue(m, futex, num, futex).value;
            var ws := m.queues[futex];
            && r.count == num
            && r.manager.queues[futex] == ws[..|ws| - num]
            && |r.manager.queues[futex]| < |ws|
  {
  }

  // ---------------------------------------------------------------------
  // wake_for_timeout and wake_for_signal

  /** Why a sweep wakes waiters: the timer read `now`, or pending signals
      (`hasSignal` stands for the task's signal receivers' `have_signal`). */
  datatype Cause = Timeout(now: nat) | Signal(hasSignal: TaskId -> bool)

  /** The waiters a sweep wakes. */
  predicate Selected(w: Waiter, cause: Cause)
  {
    match cause
    case Timeout(now) => w.waitTime.Some? && w.waitTime.value <= now
    case Signal(hasSignal) => w.task.Some? && hasSignal(w.task.value)
  }

  /** The waiters on which a sweep's `unwrap` panics: a woken waiter whose
      task is gone (timeout), or any waiter whose task is gone (signal,
      which reads every waiter's task). */
  predicate PanicsOn(w: Waiter, cause: Cause)
  {
    match cause
    case Timeout(now) => w.waitTime.Some? && w.waitTime.value <= now && w.task.None?
    case Signal(_) => w.task.None?
  }

  /** One pass over one queue: the queue with the woken waiters' tasks taken,
      the recorded indices, the pushed tasks and the set timeout flags. */
  datatype Scan = Scan(marked: seq<Waiter>, record: seq<nat>, pushed: seq<TaskId>, flagged: seq<FlagId>)

  /** The reference list of the indices from `i` on that a sweep wakes:
      ascending, each selected, and every selected index present. */
  function SelectedIndices(ws: seq<Waiter>, cause: Cause, i: nat): (r: seq<nat>)
    requires i <= |ws|
    decreases |ws| - i
    ensures forall t :: 0 <= t < |r| ==> i <= r[t] < |ws| && Selected(ws[r[t]], cause)
    ensures forall j :: i <= j < |ws| && Selected(ws[j], cause) ==> j in r
    ensures forall a, b :: 0 <= a < b < |r| ==> r[a] < r[b]
  {
    if i == |ws| then []
    else if Selected(ws[i], cause) then [i] + SelectedIndices(ws, cause, i + 1)
    else SelectedIndices(ws, cause, i + 1)
  }

  /** The enumerate loop of either sweep over `ws[i..]`. */
  function ScanFrom(ws: seq<Waiter>, cause: Cause, i: nat): (r: Result<Scan>)
    requires i <= |ws|
    decreases |ws| - i
    ensures !r.Err?
    ensures r.Ok? <==> forall j :: i <= j < |ws| ==> !PanicsOn(ws[j], cause)
    ensures r.Ok? ==> |r.value.marked| == |ws| - i
    ensures r.Ok? ==> forall j :: i <= j < |ws| ==>
              r.value.marked[j - i] == (if Selected(ws[j], cause) then ws[j].(task := None) else ws[j])
    ensures r.Ok? ==> r.value.record == SelectedIndices(ws, cause, i)
  {
    if i == |ws| then Ok(Scan([], [], [], []))
    else
      var w := ws[i];
      if PanicsOn(w, cause) then Abort(UnwrapNone("waiter task"))
      else
        var rest := ScanFrom(ws, cause, i + 1);
        if !rest.Ok? then rest
        else
          var s := rest.value;
          if Selected(w, cause) then
            var taken := WakeWaiter(w).value;
            var flag := if cause.Timeout? then [w.timeoutFlag] else [];
            Ok(Scan([taken.waiter] + s.marked, [i] + s.record, [taken.task] + s.pushed, flag + s.flagged))
          else
            Ok(Scan([w] + s.marked, s.record, s.pushed, s.flagged))
  }

  /** `Vec::remove` of each recorded index in turn, as the source does it:
      every removal shifts the later elements one place to the front, and an
      index past the end panics. */
  function RemoveEach<T>(xs: seq<T>, idx: seq<nat>): (r: Result<seq<T>>)
    decreases idx
    ensures !r.Err?
    ensures r.Ok? ==> |r.value| == |xs| - |idx|
  {
    if idx == [] then Ok(xs)
    else if idx[0] >= |xs| then Abort(IndexOutOfBounds(idx[0], |xs|))
    else RemoveEach(xs[..idx[0]] + xs[idx[0] + 1..], idx[1..])
  }

  /** The queue without the waiters a sweep wakes, in order. */
  function KeepUnselected(ws: seq<Waiter>, cause: Cause): (r: seq<Waiter>)
    ensures forall w :: w in r <==> w in ws && !Selected(w, cause)
    ensures |r| <= |ws|
  {
    if ws == [] then []
    else if Selected(ws[0], cause) then KeepUnselected(ws[1..], cause)
    else [ws[0]] + KeepUnselected(ws[1..], cause)
  }

  /** The tasks of the waiters a sweep wakes, in queue order. */
  function SelectedTasks(ws: seq<Waiter>, cause: Cause): (r: seq<TaskId>)
    ensures |r| <= |ws|
  {
    if ws == [] then []
    else if Selected(ws[0], cause) && ws[0].task.Some? then [ws[0].task.value] + SelectedTasks(ws[1..], cause)
    else SelectedTasks(ws[1..], cause)
  }

  /** The timeout flags of the waiters a sweep wakes, in queue order. */
  function SelectedFlags(ws: seq<Waiter>, cause: Cause): (r: seq<FlagId>)
    ensures |r| <= |ws|
  {
    if ws == [] then []
    else if Selected(ws[0], cause) && ws[0].task.Some? then [ws[0].timeoutFlag] + SelectedFlags(ws[1..], cause)
    else SelectedFlags(ws[1..], cause)
  }

  /** One queue after a sweep, with the tasks pushed and the flags set. */
  datatype Swept = Swept(queue: seq<Waiter>, pushed: seq<TaskId>, flagged: seq<FlagId>)

  /** One queue's part of a sweep: as written (`exact == false`, the
      recorded indices removed one by one with `Vec::remove`) or as evidently
      intended (`exact == true`, exactly the woken waiters removed). */
  function SweepQueue(ws: seq<Waiter>, cause: Cause, exact: bool): (r: Result<Swept>)
    ensures !r.Err?
    ensures r.Ok? ==> forall j :: 0 <= j < |ws| ==> !PanicsOn(ws[j], cause)
    ensures exact ==> (r.Ok? <==> forall j :: 0 <= j < |ws| ==> !PanicsOn(ws[j], cause))
    ensures exact && r.Ok? ==> r.value.queue == KeepUnselected(ws, cause)
    ensures r.Ok? ==> r.value.pushed == SelectedTasks(ws, cause)
    ensures r.Ok? ==> r.value.flagged == if cause.Timeout? then SelectedFlags(ws, cause) else []
  {
    var s := ScanFrom(ws, cause, 0);
    if !s.Ok? then Abort(s.panic)
    else
      var q := if exact then Ok(KeepUnselected(ws, cause)) else RemoveEach(s.value.marked, s.value.record);
      if !q.Ok? then Abort(q.panic)
      else
        ScanPushesSelected(ws, cause, 0);
        assert ws[0..] == ws;
        Ok(Swept(q.value, s.value.pushed, s.value.flagged))
  }

  /** The enumerate loop pushes exactly the selected waiters' tasks, in
      order, and (on a timeout) sets exactly their flags. */
  lemma {:induction false} ScanPushesSelected(ws: seq<Waiter>, cause: Cause, i: nat)
    requires i <= |ws|
    decreases |ws| - i
    ensures ScanFrom(ws, cause, i).Ok? ==> ScanFrom(ws, cause, i).value.pushed == SelectedTasks(ws[i..], cause)
    ensures ScanFrom(ws, cause, i).Ok? ==>
              ScanFrom(ws, cause, i).value.flagged == if cause.Timeout? then SelectedFlags(ws[i..], cause) else []
  {
    if i < |ws| && ScanFrom(ws, cause, i).Ok? {
      ScanPushesSelected(ws, cause, i + 1);
      assert ws[i..][1..] == ws[i + 1..];
    }
  }

  /** The least element of a non-empty set of addresses. */
  function MinKey(s: set<nat>): (k: nat)
    requires s != {}
    ensures k in s && forall x :: x in s ==> k <= x
  {
    MinExists(s);
    var k :| k in s && forall x :: x in s ==> k <= x;
    k
  }

  lemma MinExists(s: set<nat>)
    requires s != {}
    ensures exists k :: k in s && forall x :: x in s ==> k <= x
  {
    var k := LeastOf(s);
  }

  lemma {:induction false} LeastOf(s: set<nat>) returns (k: nat)
    requires s != {}
    ensures k in s && forall x :: x in s ==> k <= x
  {
    var y :| y in s;
    var rest := s - {y};
    if rest == {} {
      assert s == {y};
      k := y;
    } else {
      var m := LeastOf(rest);
      k := if y < m then y else m;
      forall x | x in s
        ensures k <= x
      {
        if x != y {
          assert x in rest;
        }
      }
    }
  }

  datatype Sweep = Sweep(manager: Manager, pushed: seq<TaskId>, flagged: seq<FlagId>)

  /** The outer loop of a sweep over the queues of `keys`, in ascending
      address order as a `BTreeMap` iterates them; `step` is one queue's part. */
  function SweepKeys(queues: map<nat, seq<Waiter>>, keys: set<nat>, step: seq<Waiter> -> Result<Swept>): (r: Result<Sweep>)
    requires keys <= queues.Keys
    decreases keys
    ensures r.Ok? <==> forall k :: k in keys ==> step(queues[k]).Ok?
    ensures r.Err? ==> exists k :: k in keys && step(queues[k]).Err?
    ensures r.Ok? ==> r.value.manager.queues.Keys == queues.Keys
    ensures r.Ok? ==> forall k :: k in queues ==>
              r.value.manager.queues[k] == (if k in keys then step(queues[k]).value.queue else queues[k])
    ensures r.Ok? ==> forall t :: t in r.value.pushed <==> exists k :: k in keys && t in step(queues[k]).value.pushed
    ensures r.Ok? ==> forall g :: g in r.value.flagged <==> exists k :: k in keys && g in step(queues[k]).value.flagged
  {
    if keys == {} then Ok(Sweep(Manager(queues), [], []))
    else
      var k := MinKey(keys);
      var q := step(queues[k]);
      if !q.Ok? then (if q.Err? then Err(q.error) else Abort(q.panic))
      else
        var next := queues[k := q.value.queue];
        assert forall k2 :: k2 in keys - {k} ==> next[k2] == queues[k2];
        var rest := SweepKeys(next, keys - {k}, step);
        if !rest.Ok? then rest
        else Ok(Sweep(rest.value.manager, q.value.pushed + rest.value.pushed, q.value.flagged + rest.value.flagged))
  }

  /** A whole sweep followed by `delete_empty_waiters`. */
  function SweepAll(m: Manager, cause: Cause, exact: bool): (r: Result<Sweep>)
    ensures !r.Err?
    ensures r.Ok? <==> forall k :: k in m.queues ==> SweepQueue(m.queues[k], cause, exact).Ok?
    ensures r.Ok? ==> forall f :: f in r.value.manager.queues ==> r.value.manager.queues[f] != []
    ensures r.Ok? ==> forall f :: f in r.value.manager.queues <==>
              f in m.queues && SweepQueue(m.queues[f], cause, exact).value.queue != []
    ensures r.Ok? ==> forall f :: f in r.value.manager.queues ==>
              r.value.manager.queues[f] == SweepQueue(m.queues[f], cause, exact).value.queue
  {
    var s := SweepKeys(m.queues, m.queues.Keys, ws => SweepQueue(ws, cause, exact));
    if !s.Ok? then s
    else Ok(s.value.(manager := DeleteEmptyWaiters(s.value.manager)))
  }

  /** `wake_for_timeout`, as written. */
  function WakeForTimeout(m: Manager, now: nat): (r: Result<Sweep>)
    ensures r.Ok? ==> forall f :: f in r.value.manager.queues ==> r.value.manager.queues[f] != []
  {
    SweepAll(m, Timeout(now), false)
  }

  /** `wake_for_signal`, as written. */
  function WakeForSignal(m: Manager, hasSignal: TaskId -> bool): (r: Result<Sweep>)
    ensures r.Ok? ==> forall f :: f in r.value.manager.queues ==> r.value.manager.queues[f] != []
  {
    SweepAll(m, Signal(hasSignal), false)
  }

  /** `wake_for_timeout` with the woken waiters removed exactly. */
  function WakeForTimeoutFixed(m: Manager, now: nat): (r: Result<Sweep>)
    ensures WellFormed(m) ==> r.Ok?
    ensures r.Ok? ==> WellFormed(r.value.manager) || !WellFormed(m)
    ensures r.Ok? ==> forall f, i :: f in r.value.manager.queues && 0 <= i < |r.value.manager.queues[f]| ==>
              !Selected(r.value.manager.queues[f][i], Timeout(now))
  {
    var r := SweepAll(m, Timeout(now), true);
    SweepPreservesWellFormed(m, Timeout(now));
    ExactLeavesNoneSelected(m, Timeout(now));
    r
  }

  /** `wake_for_signal` with the woken waiters removed exactly. */
  function WakeForSignalFixed(m: Manager, hasSignal: TaskId -> bool): (r: Result<Sweep>)
    ensures WellFormed(m) ==> r.Ok?
    ensures r.Ok? ==> WellFormed(r.value.manager) || !WellFormed(m)
    ensures r.Ok? ==> forall f, i :: f in r.value.manager.queues && 0 <= i < |r.value.manager.queues[f]| ==>
              !Selected(r.value.manager.queues[f][i], Signal(hasSignal))
  {
    var r := SweepAll(m, Signal(hasSignal), true);
    SweepPreservesWellFormed(m, Signal(hasSignal));
    ExactLeavesNoneSelected(m, Signal(hasSignal));
    r
  }

  /** The exact sweep never panics on a well-formed manager and keeps it well formed. */
  lemma SweepPreservesWellFormed(m: Manager, cause: Cause)
    ensures WellFormed(m) ==> var r := SweepAll(m, cause, true);
                              r.Ok? && WellFormed(r.value.manager)
  {
    if !WellFormed(m) {
      return;
    }
    forall k | k in m.queues
      ensures SweepQueue(m.queues[k], cause, true).Ok?
    {
      assert AllWaiting(m.queues[k]);
    }
    var r := SweepAll(m, cause, true);
    forall f | f in r.value.manager.queues
      ensures AllWaiting(r.value.manager.queues[f])
    {
      var q := r.value.manager.queues[f];
      forall i | 0 <= i < |q|
        ensures q[i].task.Some?
      {
        assert q[i] in m.queues[f];
      }
    }
  }

  /** A sweep pushes the tasks of the waiters it selects in any queue and
      nothing else, and on a timeout sets exactly their flags. */
  lemma SweepPushesSelected(m: Manager, cause: Cause, exact: bool)
    ensures var r := SweepAll(m, cause, exact);
            r.Ok? ==> forall t :: t in r.value.pushed <==>
                        exists f :: f in m.queues && t in SelectedTasks(m.queues[f], cause)
    ensures var r := SweepAll(m, cause, exact);
            r.Ok? && cause.Timeout? ==> forall g :: g in r.value.flagged <==>
                                          exists f :: f in m.queues && g in SelectedFlags(m.queues[f], cause)
  {
    var step := ws => SweepQueue(ws, cause, exact);
    var s := SweepKeys(m.queues, m.queues.Keys, step);
    var r := SweepAll(m, cause, exact);
    if r.Ok? {
      assert r.value.pushed == s.value.pushed && r.value.flagged == s.value.flagged;
      forall f | f in m.queues
        ensures step(m.queues[f]).Ok?
        ensures step(m.queues[f]).value.pushed == SelectedTasks(m.queues[f], cause)
        ensures cause.Timeout? ==> step(m.queues[f]).value.flagged == SelectedFlags(m.queues[f], cause)
      {
      }
    }
  }

  /** After an exact sweep no waiter left in any queue is one the sweep wakes. */
  lemma ExactLeavesNoneSelected(m: Manager, cause: Cause)
    ensures var r := SweepAll(m, cause, true);
            r.Ok? ==> forall f, i :: f in r.value.manager.queues && 0 <= i < |r.value.manager.queues[f]| ==>
              !Selected(r.value.manager.queues[f][i], cause)
  {
    var r := SweepAll(m, cause, true);
    if r.Ok? {
      forall f, i | f in r.value.manager.queues && 0 <= i < |r.value.manager.queues[f]|
        ensures !Selected(r.value.manager.queues[f][i], cause)
      {
        assert r.value.manager.queues[f][i] in r.value.manager.queues[f];
      }
    }
  }

  // ---------------------------------------------------------------------
  // Properties of the sweeps

  /** Filtering distributes over concatenation. */
  lemma {:induction false} KeepAppend(a: seq<Waiter>, b: seq<Waiter>, cause: Cause)
    ensures KeepUnselected(a + b, cause) == KeepUnselected(a, cause) + KeepUnselected(b, cause)
  {
    if a == [] {
      assert a + b == b;
    } else {
      assert (a + b)[1..] == a[1..] + b;
      KeepAppend(a[1..], b, cause);
    }
  }

  /** A queue with nothing to wake is kept whole. */
  lemma {:induction false} KeepNoneSelected(ws: seq<Waiter>, cause: Cause)
    requires forall j :: 0 <= j < |ws| ==> !Selected(ws[j], cause)
    ensures KeepUnselected(ws, cause) == ws
  {
    if ws != [] {
      assert !Selected(ws[0], cause);
      KeepNoneSelected(ws[1..], cause);
    }
  }

  /** A queue with exactly one waiter to wake keeps everything else, in order. */
  lemma KeepAllButOne(ws: seq<Waiter>, cause: Cause, i: nat)
    requires i < |ws| && Selected(ws[i], cause)
    requires forall j :: 0 <= j < |ws| && j != i ==> !Selected(ws[j], cause)
    ensures KeepUnselected(ws, cause) == ws[..i] + ws[i + 1..]
  {
    KeepNoneSelected(ws[..i], cause);
    KeepNoneSelected(ws[i + 1..], cause);
    assert ws == ws[..i] + ([ws[i]] + ws[i + 1..]);
    KeepAppend(ws[..i], [ws[i]] + ws[i + 1..], cause);
    KeepAppend([ws[i]], ws[i + 1..], cause);
    assert KeepUnselected([ws[i]], cause) == [];
  }

  /** Names the first two elements of a sequence for the solver. */
  lemma FirstTwo(xs: seq<nat>)
    ensures |xs| >= 2 ==> xs[0] in xs && xs[1] in xs
  {
  }

  /** While at most one waiter of a queue is woken, removing by recorded index
      removes exactly that waiter: the source's removal is only wrong when
      two or more waiters of one queue wake in the same sweep. */
  lemma SingleWakeAgrees(ws: seq<Waiter>, cause: Cause)
    requires forall j :: 0 <= j < |ws| ==> !PanicsOn(ws[j], cause)
    requires forall a, b :: 0 <= a < b < |ws| && Selected(ws[a], cause) ==> !Selected(ws[b], cause)
    ensures SweepQueue(ws, cause, false) == SweepQueue(ws, cause, true)
  {
    var s := ScanFrom(ws, cause, 0).value;
    var asWritten := RemoveEach(s.marked, s.record);
    if |s.record| == 0 {
      assert s.marked == ws;
      KeepNoneSelected(ws, cause);
      assert asWritten == Ok(KeepUnselected(ws, cause));
    } else {
      var i := s.record[0];
      if |s.record| > 1 {
        FirstTwo(s.record);
        assert false;
      }
      assert s.record == [i];
      assert forall j :: 0 <= j < |ws| && j != i ==> !Selected(ws[j], cause);
      assert s.marked[..i] == ws[..i];
      assert s.marked[i + 1..] == ws[i + 1..];
      assert s.record[1..] == [] && i < |s.marked|;
      assert asWritten == RemoveEach(s.marked[..i] + s.marked[i + 1..], []);
      KeepAllButOne(ws, cause, i);
      assert asWritten == Ok(KeepUnselected(ws, cause));
    }
  }

  /** The exact sweep of a queue of waiting tasks neither loses nor invents a
      task: every task is either pushed or still waiting, and the queue left
      behind still holds only waiting tasks. */
  lemma {:induction false} ExactSweepConservesTasks(ws: seq<Waiter>, cause: Cause)
    requires AllWaiting(ws)
    ensures AllWaiting(KeepUnselected(ws, cause))
    ensures multiset(TasksOf(ws)) == multiset(SelectedTasks(ws, cause)) + multiset(TasksOf(KeepUnselected(ws, cause)))
  {
    if ws != [] {
      var w, tail := ws[0], ws[1..];
      assert ws == [w] + tail;
      AllWaitingCons(w, tail);
      ExactSweepConservesTasks(tail, cause);
      var rest := KeepUnselected(tail, cause);
      var t0 := w.task.value;
      assert multiset(TasksOf(ws)) == multiset{t0} + multiset(TasksOf(tail));
      if Selected(w, cause) {
        assert SelectedTasks(ws, cause) == [t0] + SelectedTasks(tail, cause);
        assert KeepUnselected(ws, cause) == rest;
      } else {
        assert SelectedTasks(ws, cause) == SelectedTasks(tail, cause);
        assert KeepUnselected(ws, cause) == [w] + rest;
        TasksOfCons(w, rest);
      }
    }
  }

  /** The tasks of a queue with one more waiter at the front. */
  lemma TasksOfCons(w: Waiter, ws: seq<Waiter>)
    requires w.task.Some? && AllWaiting(ws)
    ensures AllWaiting([w] + ws)
    ensures TasksOf([w] + ws) == [w.task.value] + TasksOf(ws)
  {
    AllWaitingCons(w, ws);
    assert ([w] + ws)[1..] == ws;
  }

  /** Two waiters that time out together in one queue: the first removal
      shifts the second to index 0, so removing recorded index 1 panics. */
  lemma TimeoutTwoExpiredPanics()
    ensures var ws := [Waiter(Some(1), Some(0), 11), Waiter(Some(2), Some(0), 12)];
            && SweepQueue(ws, Timeout(5), false) == Abort(IndexOutOfBounds(1, 1))
            && WakeForTimeout(Manager(map[7 := ws]), 5).Abort?
            && WakeForTimeoutFixed(Manager(map[7 := ws]), 5).Ok?
  {
    var e1 := Waiter(Some(1), Some(0), 11);
    var e2 := Waiter(Some(2), Some(0), 12);
    var ws := [e1, e2];
    TimeoutScan(e1, e2);
    assert RemoveEach([e1.(task := None), e2.(task := None)], [0, 1]) == RemoveEach([e2.(task := None)], [1]);
    var m := Manager(map[7 := ws]);
    assert 7 in m.queues && m.queues[7] == ws;
    assert WellFormed(m);
  }

  /** The enumerate loop of a timeout sweep over two expired waiters. */
  lemma TimeoutScan(e1: Waiter, e2: Waiter)
    requires e1 == Waiter(Some(1), Some(0), 11) && e2 == Waiter(Some(2), Some(0), 12)
    ensures ScanFrom([e1, e2], Timeout(5), 0)
            == Ok(Scan([e1.(task := None), e2.(task := None)], [0, 1], [1, 2], [11, 12]))
  {
    var ws := [e1, e2];
    var c := Timeout(5);
    var d1 := e1.(task := None);
    var d2 := e2.(task := None);
    assert ScanFrom(ws, c, 2) == Ok(Scan([], [], [], []));
    assert ScanFrom(ws, c, 1) == Ok(Scan([d2] + [], [1] + [], [2] + [], [12] + []));
    assert [d2] + [] == [d2] && [1] + [] == [1] && [2] + [] == [2] && [12] + [] == [12];
    assert ScanFrom(ws, c, 0) == Ok(Scan([d1] + [d2], [0] + [1], [1] + [2], [11] + [12]));
    assert [d1] + [d2] == [d1, d2] && [0] + [1] == [0, 1] && [1] + [2] == [1, 2] && [11] + [12] == [11, 12];
  }

  /** Two waiters of one queue with pending signals: the same shift makes
      the second removal panic, while the corrected sweep wakes both. */
  lemma SignalTwoPendingPanics(hasSignal: TaskId -> bool)
    requires hasSignal(1) && hasSignal(2)
    ensures var ws := [Waiter(Some(1), None, 11), Waiter(Some(2), None, 12)];
            && SweepQueue(ws, Signal(hasSignal), false) == Abort(IndexOutOfBounds(1, 1))
            && WakeForSignal(Manager(map[7 := ws]), hasSignal).Abort?
            && WakeForSignalFixed(Manager(map[7 := ws]), hasSignal).Ok?
  {
    var e1 := Waiter(Some(1), None, 11);
    var e2 := Waiter(Some(2), None, 12);
    var ws := [e1, e2];
    SignalScan(e1, e2, hasSignal);
    assert RemoveEach([e1.(task := None), e2.(task := None)], [0, 1]) == RemoveEach([e2.(task := None)], [1]);
    var m := Manager(map[7 := ws]);
    assert 7 in m.queues && m.queues[7] == ws;
    assert WellFormed(m);
  }

  /** The enumerate loop of a signal sweep over two signalled waiters. */
  lemma SignalScan(e1: Waiter, e2: Waiter, hasSignal: TaskId -> bool)
    requires e1 == Waiter(Some(1), None, 11) && e2 == Waiter(Some(2), None, 12)
    requires hasSignal(1) && hasSignal(2)
    ensures ScanFrom([e1, e2], Signal(hasSignal), 0)
            == Ok(Scan([e1.(task := None), e2.(task := None)], [0, 1], [1, 2], []))
  {
    var d1 := e1.(task := None);
    var d2 := e2.(task := None);
    SignalScanLast(e1, e2, hasSignal);
    assert [d1] + [d2] == [d1, d2] && [0] + [1] == [0, 1] && [1] + [2] == [1, 2];
  }

  /** The last step of that loop, over the second waiter alone. */
  lemma SignalScanLast(e1: Waiter, e2: Waiter, hasSignal: TaskId -> bool)
    requires e2 == Waiter(Some(2), None, 12)
    requires hasSignal(2)
    ensures ScanFrom([e1, e2], Signal(hasSignal), 1) == Ok(Scan([e2.(task := None)], [1], [2], []))
  {
    var ws := [e1, e2];
    var c := Signal(hasSignal);
    var d2 := e2.(task := None);
    var none: seq<FlagId> := [];
    assert ScanFrom(ws, c, 2) == Ok(Scan([], [], [], []));
    assert [d2] + [] == [d2] && [1] + [] == [1] && [2] + [] == [2] && none + none == none;
  }

  /** The enumerate loop over two expired waiters and one that waits without a timeout. */
  lemma ShiftScan(e1: Waiter, e2: Waiter, n3: Waiter)
    requires e1 == Waiter(Some(1), Some(0), 11) && e2 == Waiter(Some(2), Some(0), 12) && n3 == Waiter(Some(3), None, 13)
    ensures ScanFrom([e1, e2, n3], Timeout(5), 0)
            == Ok(Scan([e1.(task := None), e2.(task := None), n3], [0, 1], [1, 2], [11, 12]))
  {
    var ws := [e1, e2, n3];
    var c := Timeout(5);
    var d1 := e1.(task := None);
    var d2 := e2.(task := None);
    assert ScanFrom(ws, c, 3) == Ok(Scan([], [], [], []));
    assert ScanFrom(ws, c, 2) == Ok(Scan([n3] + [], [], [], []));
    assert [n3] + [] == [n3];
    assert ScanFrom(ws, c, 1) == Ok(Scan([d2] + [n3], [1] + [], [2] + [], [12] + []));
    assert [1] + [] == [1] && [2] + [] == [2] && [12] + [] == [12] && [d2] + [n3] == [d2, n3];
    assert ScanFrom(ws, c, 0) == Ok(Scan([d1] + [d2, n3], [0] + [1], [1] + [2], [11] + [12]));
    assert [d1] + [d2, n3] == [d1, d2, n3] && [0] + [1] == [0, 1] && [1] + [2] == [1, 2] && [11] + [12] == [11, 12];
  }

  /** Two expired waiters followed by one still waiting: the as-written
      removals drop the waiting task 3, which is never pushed, and leave the
      second woken waiter behind without its task, so the next timeout sweep
      panics on it. The exact removal keeps task 3 waiting. */
  lemma TimeoutShiftLosesWaiter()
    ensures var e1 := Waiter(Some(1), Some(0), 11);
            var e2 := Waiter(Some(2), Some(0), 12);
            var n3 := Waiter(Some(3), None, 13);
            var ws := [e1, e2, n3];
            && SweepQueue(ws, Timeout(5), false) == Ok(Swept([e2.(task := None)], [1, 2], [11, 12]))
            && SweepQueue(ws, Timeout(5), true) == Ok(Swept([n3], [1, 2], [11, 12]))
            && WakeForTimeout(Manager(map[7 := [e2.(task := None)]]), 5).Abort?
  {
    var e1 := Waiter(Some(1), Some(0), 11);
    var e2 := Waiter(Some(2), Some(0), 12);
    var n3 := Waiter(Some(3), None, 13);
    ShiftAsWritten(e1, e2, n3);
    ShiftExact(e1, e2, n3);
    var left := [e2.(task := None)];
    assert PanicsOn(left[0], Timeout(5));
    var m := Manager(map[7 := left]);
    assert 7 in m.queues && m.queues[7] == left;
  }

  /** The removals of the sweep as written on the three-waiter queue. */
  lemma ShiftAsWritten(e1: Waiter, e2: Waiter, n3: Waiter)
    requires e1 == Waiter(Some(1), Some(0), 11) && e2 == Waiter(Some(2), Some(0), 12) && n3 == Waiter(Some(3), None, 13)
    ensures SweepQueue([e1, e2, n3], Timeout(5), false) == Ok(Swept([e2.(task := None)], [1, 2], [11, 12]))
  {
    var d1 := e1.(task := None);
    var d2 := e2.(task := None);
    ShiftScan(e1, e2, n3);
    var marked := [d1, d2, n3];
    assert marked[..0] + marked[1..] == [d2, n3];
    assert RemoveEach(marked, [0, 1]) == RemoveEach([d2, n3], [1]);
    assert [d2, n3][..1] + [d2, n3][2..] == [d2];
    assert RemoveEach([d2, n3], [1]) == RemoveEach([d2], []);
  }

  /** The corrected sweep on the three-waiter queue keeps the waiter without a timeout. */
  lemma ShiftExact(e1: Waiter, e2: Waiter, n3: Waiter)
    requires e1 == Waiter(Some(1), Some(0), 11) && e2 == Waiter(Some(2), Some(0), 12) && n3 == Waiter(Some(3), None, 13)
    ensures SweepQueue([e1, e2, n3], Timeout(5), true) == Ok(Swept([n3], [1, 2], [11, 12]))
  {
    var ws := [e1, e2, n3];
    var c := Timeout(5);
    ShiftScan(e1, e2, n3);
    assert ws[1..] == [e2, n3] && [e2, n3][1..] == [n3] && [n3][1..] == [];
    assert KeepUnselected([n3], c) == [n3] + [];
    assert KeepUnselected(ws, c) == [n3];
  }
}
