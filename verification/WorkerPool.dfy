/**
 The bounded worker pool of backend/src/lib/WorkerPool.ts. A promise is known by its place in the order
 of `enqueue` calls. The worker returns a promise; before that it may itself enqueue further tasks, and
 so re-enter `drain`. A finished worker first settles the promise of its task and, in a later
 microtask, frees its slot; anything may happen in between.
 */
module WorkerPool {

  datatype QueuedTask<T> = QueuedTask(task: T, promise: nat)

  datatype Outcome = Resolved | Rejected(error: string)

  /** The tasks waiting once the first `started` of the log have been started. */
  ghost predicate Waiting<T>(queue: seq<QueuedTask<T>>, log: seq<T>, started: nat) {
    && |queue| + started == |log|
    && forall i :: 0 <= i < |queue| ==> queue[i] == QueuedTask(log[started + i], started + i)
  }

  /** Tasks have been started in the order of enqueueing, each once. */
  ghost predicate StartedInOrder<T>(runs: seq<QueuedTask<T>>, log: seq<T>) {
    && |runs| <= |log|
    && forall i :: 0 <= i < |runs| ==> runs[i] == QueuedTask(log[i], i)
  }

  /** Every started task holds a slot until it has settled; only settled tasks have given theirs up. */
  ghost predicate SlotsAccounted(holding: set<nat>, settled: set<nat>, started: nat, running: int, concurrency: int) {
    && (forall i :: i in holding ==> i < started)
    && (forall i :: i in settled ==> i < started)
    && (forall i: nat :: i < started && i !in holding ==> i in settled)
    && running == |holding| && running <= concurrency
  }

  /** How many tasks fit below a limit that need not be a whole number. */
  function Ceil(limit: real): (n: int)
    ensures limit <= n as real < limit + 1.0
    ensures n as real <= limit <==> Whole(limit)
  {
    if Whole(limit) then limit.Floor else limit.Floor + 1
  }

  predicate Whole(limit: real) { limit.Floor as real == limit }

  /** What an observer sees of a pool: tasks enqueued, tasks started, slots taken. */
  datatype View = View(enqueued: nat, started: nat, running: int)

  datatype Kind = Enqueued | Settled | Released

  /** Between events, tasks wait only while every slot is taken. */
  predicate Saturated(v: View, concurrency: int) {
    v.started <= v.enqueued && v.running <= concurrency && (v.started < v.enqueued ==> v.running == concurrency)
  }

  /** What one event does to the view. */
  predicate Step(e: Kind, v: View, w: View, concurrency: int) {
    && Saturated(v, concurrency) && Saturated(w, concurrency)
    && match e
       case Enqueued =>
         && v.enqueued < w.enqueued && v.started <= w.started && v.running <= w.running
         && (v.running == concurrency ==> w.started == v.started && w.enqueued == v.enqueued + 1)
       case Settled => w == v
       case Released =>
         && v.enqueued <= w.enqueued
         && w.started == v.started + (if v.started < v.enqueued then 1 else 0)
         && w.running == v.running - (if v.started < v.enqueued then 0 else 1)
  }

  class Pool<T> {
    const concurrency: real
    ghost const slots: int
    /** The tasks that the worker enqueues, on each of its runs, before it returns its promise. */
    const spawns: QueuedTask<T> -> seq<T>
    var queue: seq<QueuedTask<T>>
    var running: int
    var nextPromise: nat
    /** The closures handed to `then` and `finally`, by order of start, and the settled promises. */
    var runs: seq<QueuedTask<T>>
    var settled: map<nat, Outcome>
    ghost var log: seq<T>
    ghost var holding: set<nat>

    /** Holds at every point, also inside `drain`. */
    ghost predicate Accounted()
      reads this
    {
      && concurrency >= 1.0 && slots == Ceil(concurrency) && nextPromise == |log|
      && StartedInOrder(runs, log)
      && Waiting(queue, log, |runs|)
      && SlotsAccounted(holding, settled.Keys, |runs|, running, slots)
    }

    /** Holds between events: in addition, a task waits only while every slot is taken. */
    ghost predicate Valid()
      reads this
    {
      Accounted() && (queue != [] ==> running == slots)
    }

    ghost function Now(): View
      reads this
    {
      View(|log|, |runs|, running)
    }

    constructor (concurrency: real, spawns: QueuedTask<T> -> seq<T>)
      requires concurrency >= 1.0
      ensures Valid() && log == [] && runs == [] && settled == map[] && holding == {}
      ensures this.concurrency == concurrency && this.spawns == spawns
    {
      this.concurrency, this.spawns, slots := concurrency, spawns, Ceil(concurrency);
      queue, running, nextPromise, runs, settled, log, holding := [], 0, 0, [], map[], [], {};
    }

    /** Appends the task and drains. Re-entrant calls come from inside `drain`, where only Accounted()
        is known; on return no task waits for a free slot. */
    method Enqueue(task: T) returns (promise: nat)
      requires Accounted()
      modifies this`queue, this`running, this`nextPromise, this`runs, this`log, this`holding
      ensures Valid()
      ensures promise == |old(log)| && old(log) + [task] <= log && old(runs) <= runs
      ensures old(running) <= running && holding >= old(holding)
      ensures old(running) == slots ==> log == old(log) + [task] && runs == old(runs) && holding == old(holding)
      ensures old(Valid()) ==> Step(Enqueued, old(Now()), Now(), slots)
      decreases slots - running, 1
    {
      promise := nextPromise;
      nextPromise := nextPromise + 1;
      queue := queue + [QueuedTask(task, promise)];
      log := log + [task];
      Drain();
    }

    method Drain()
      requires Accounted()
      modifies this`queue, this`running, this`nextPromise, this`runs, this`log, this`holding
      ensures Valid()
      ensures old(log) <= log && old(runs) <= runs && old(running) <= running && holding >= old(holding)
      ensures old(running) == slots || old(queue) == [] ==>
                log == old(log) && runs == old(runs) && holding == old(holding) && running == old(running)
      ensures old(running) + 1 == slots && old(queue) != [] ==>
                && runs == old(runs) + [old(queue)[0]] && running == slots
                && log == old(log) + spawns(old(queue)[0])
      decreases slots - running, 0
    {
      while running as real < concurrency && |queue| > 0
        invariant Accounted()
        invariant old(log) <= log && old(runs) <= runs && old(running) <= running && holding >= old(holding)
        invariant runs == old(runs) ==>
                    log == old(log) && queue == old(queue) && holding == old(holding) && running == old(running)
        invariant runs != old(runs) ==> old(running) < running && old(queue) != []
        invariant runs != old(runs) && old(running) + 1 == slots ==>
                    && runs == old(runs) + [old(queue)[0]] && running == slots
                    && log == old(log) + spawns(old(queue)[0])
        decreases slots - running
      {
        var next := TakeSlot();
        StartWorker(next);
      }
    }

    /** `shift` and `running++`. */
    method TakeSlot() returns (next: QueuedTask<T>)
      requires Accounted() && running < slots && |queue| > 0
      modifies this`queue, this`running, this`runs, this`holding
      ensures Accounted() && next == old(queue)[0] && queue == old(queue)[1..]
      ensures running == old(running) + 1 && runs == old(runs) + [next]
      ensures holding == old(holding) + {|old(runs)|}
    {
      next := queue[0];
      queue := queue[1..];
      holding := holding + {|runs|};
      runs := runs + [next];
      running := running + 1;
    }

    /** The part of the worker that runs before it returns its promise. */
    method StartWorker(next: QueuedTask<T>)
      requires Accounted()
      modifies this`queue, this`running, this`nextPromise, this`runs, this`log, this`holding
      ensures Accounted()
      ensures old(log) <= log && old(runs) <= runs && old(running) <= running && holding >= old(holding)
      ensures old(running) == slots ==>
                log == old(log) + spawns(next) && runs == old(runs) && running == slots
      decreases slots - running, 2
    {
      var ts := spawns(next);
      for i := 0 to |ts|
        invariant Accounted()
        invariant old(log) <= log && old(runs) <= runs && old(running) <= running && holding >= old(holding)
        invariant old(running) == slots ==>
                    log == old(log) + ts[..i] && runs == old(runs) && running == slots
      {
        var _ := Enqueue(ts[i]);
      }
    }

    /** A run finishes: it settles the promise it was handed, which is that of its own task. */
    method Settle(run: nat, outcome: Outcome)
      requires Valid() && run in holding && run !in settled
      modifies this`settled
      ensures Valid() && Step(Settled, old(Now()), Now(), slots)
      ensures run < |runs| && runs[run] == QueuedTask(log[run], run)
      ensures settled == old(settled)[run := outcome]
    {
      settled := settled[runs[run].promise := outcome];
    }

    /** The `finally` of a run: frees the slot and drains. If any task waits, the first one is started
        and no other. */
    method Release(run: nat)
      requires Valid() && run in holding && run in settled
      modifies this`queue, this`running, this`nextPromise, this`runs, this`log, this`holding
      ensures Valid() && Step(Released, old(Now()), Now(), slots)
      ensures runs == (if old(queue) == [] then old(runs) else old(runs) + [old(queue)[0]])
      ensures log == (if old(queue) == [] then old(log) else old(log) + spawns(old(queue)[0]))
    {
      holding := holding - {run};
      running := running - 1;
      Drain();
    }

    /** Each task is in exactly one place: it waits in the queue, or it runs, or it has settled. */
    lemma ExactlyOnePlace(promise: nat)
      requires Valid() && promise < |log|
      ensures (exists i :: 0 <= i < |queue| && queue[i].promise == promise) <==> promise >= |runs|
      ensures promise in settled ==> promise < |runs|
      ensures promise < |runs| && promise !in settled ==> promise in holding
    {
      if promise >= |runs| { assert queue[promise - |runs|].promise == promise; }
    }

    /** No more than `concurrency` tasks run at once if that is a whole number. With a fraction one more is
        started, which shows whenever a task waits. */
    lemma RunningBound()
      requires Valid()
      ensures running as real < concurrency + 1.0
      ensures Whole(concurrency) ==> running as real <= concurrency
      ensures queue != [] ==> (running as real <= concurrency <==> Whole(concurrency))
    {
      assert running <= slots && (queue != [] ==> running == slots);
    }

    /** When no slot is taken, nothing waits and every promise has settled. */
    lemma IdleMeansDone()
      requires Valid() && running == 0
      ensures queue == [] && |runs| == |log|
      ensures forall i: nat :: i < |log| ==> i in settled
    {
      assert holding == {};
    }
  }

  // ---------------------------------------------------------------- progress over whole runs

  /** A run of the pool, as a sequence of views with the event between each and the next. */
  predicate Run(vs: seq<View>, es: seq<Kind>, concurrency: int) {
    && |vs| == |es| + 1
    && forall i :: 0 <= i < |es| ==> Step(es[i], vs[i], vs[i + 1], concurrency)
  }

  function Releases(es: seq<Kind>): nat {
    if es == [] then 0 else Releases(es[..|es| - 1]) + if es[|es| - 1].Released? then 1 else 0
  }

  /** A task at queue index k starts at exactly the (k+1)-th release that follows: until then each
      release brings it one place forward, and nothing else moves it. */
  lemma {:induction false} QueueAdvances(vs: seq<View>, es: seq<Kind>, concurrency: int, k: nat)
    requires Run(vs, es, concurrency) && vs[0].started + k < vs[0].enqueued
    ensures Releases(es) <= k ==>
              && vs[|es|].started == vs[0].started + Releases(es)
              && vs[|es|].started <= vs[0].started + k < vs[|es|].enqueued
    ensures Releases(es) > k ==> vs[0].started + k < vs[|es|].started
  {
    if es != [] {
      var n := |es| - 1;
      QueueAdvances(vs[..|vs| - 1], es[..n], concurrency, k);
      assert Step(es[n], vs[n], vs[n + 1], concurrency);
    }
  }
}
