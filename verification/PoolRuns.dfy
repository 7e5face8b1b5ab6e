/** Runs of the thread pool of Chat/src/thpool.c: any number of workers and submitting threads,
    one mutex, one condition variable, every thread moving one step at a time in any order. */
module PoolRuns {
  import opened Sequences

  /** Where Thpool_routine is. Nodes of the linked list are named by numbers. */
  datatype Worker =
    | Locking  // about to lock
    | Checking  // holds the mutex, looks at the counter
    | Waiting  // asleep in pthread_cond_wait
    | Woken  // must lock again inside pthread_cond_wait
    | Taking  // holds the mutex, has seen a job
    | Unlinking(node: nat)  // holds the mutex, has moved pool->tasks on
    | Taken(node: nat)  // holds the mutex, has counted down
    | Running(node: nat)  // runs the job
    | Unwinding  // cancelled inside pthread_cond_wait, which locks first
    | Cleaning  // holds the mutex, about to run cleanup_handler
    | Dead

  /** Where a call of Thpool_add_task is. */
  datatype Submitter =
    | Idle
    | Allocated(node: nat)  // about to lock
    | Holding(node: nat)  // holds the mutex
    | Linked  // holds it, the node is in the list
    | Counted  // holds it, about to signal
    | Signalled  // holds it, about to unlock

  datatype Owner = Free | ByWorker(i: nat) | BySubmitter(j: nat) | ByDestroyer

  /** A worker has taken a node. */
  datatype Claim = Claim(node: nat, worker: nat)

  datatype State = State(
    workers: seq<Worker>,
    submitters: seq<Submitter>,
    owner: Owner,
    cancelled: set<nat>,  // the workers pthread_cancel was called for
    tasks: seq<nat>,
    counter: int,
    unused: nat,  // the next node malloc returns
    added: seq<nat>,  // every node ever linked, in lock order
    taken: seq<Claim>,
    freed: seq<Claim>,
    lost: seq<Claim>  // taken by a worker that was cancelled during the job
  )

  // ---------------------------------------------------------------- the steps

  function Put(s: State, i: nat, w: Worker): State
    requires i < |s.workers|
  {
    s.(workers := s.workers[i := w])
  }

  function PutS(s: State, j: nat, x: Submitter): State
    requires j < |s.submitters|
  {
    s.(submitters := s.submitters[j := x])
  }

  ghost predicate WorkerStep(s: State, i: nat, t: State)
    requires i < |s.workers|
  {
    match s.workers[i]
    case Locking => s.owner.Free? && t == Put(s, i, Checking).(owner := ByWorker(i))
    case Checking =>
      if s.counter == 0 then t == Put(s, i, Waiting).(owner := Free) else t == Put(s, i, Taking)
    case Waiting =>  // nobody has to signal for a thread to wake up
      t == Put(s, i, Woken) || (i in s.cancelled && t == Put(s, i, Unwinding))
    case Woken =>
      || (s.owner.Free? && t == Put(s, i, Checking).(owner := ByWorker(i)))
      || (i in s.cancelled && t == Put(s, i, Unwinding))
    case Taking =>
      && s.tasks != []
      && t == Put(s, i, Unlinking(s.tasks[0])).(tasks := s.tasks[1..], taken := s.taken + [Claim(s.tasks[0], i)])
    case Unlinking(n) => t == Put(s, i, Taken(n)).(counter := s.counter - 1)
    case Taken(n) => t == Put(s, i, Running(n)).(owner := Free)
    case Running(n) =>
      || t == Put(s, i, Locking).(freed := s.freed + [Claim(n, i)])
      || (i in s.cancelled && t == Put(s, i, Dead).(lost := s.lost + [Claim(n, i)]))
    case Unwinding => s.owner.Free? && t == Put(s, i, Cleaning).(owner := ByWorker(i))
    case Cleaning => t == Put(s, i, Dead).(owner := Free)
    case Dead => false
  }

  /** pthread_cond_signal wakes one sleeper if there is any. */
  ghost predicate Signal(s: State, j: nat, t: State)
    requires j < |s.submitters|
  {
    if exists i :: 0 <= i < |s.workers| && s.workers[i].Waiting? then
      exists i :: 0 <= i < |s.workers| && s.workers[i].Waiting? && t == PutS(Put(s, i, Woken), j, Signalled)
    else t == PutS(s, j, Signalled)
  }

  ghost predicate SubmitterStep(s: State, j: nat, t: State)
    requires j < |s.submitters|
  {
    match s.submitters[j]
    case Idle => t == PutS(s, j, Allocated(s.unused)).(unused := s.unused + 1)
    case Allocated(n) => s.owner.Free? && t == PutS(s, j, Holding(n)).(owner := BySubmitter(j))
    case Holding(n) => t == PutS(s, j, Linked).(tasks := s.tasks + [n], added := s.added + [n])
    case Linked => t == PutS(s, j, Counted).(counter := s.counter + 1)
    case Counted => Signal(s, j, t)
    case Signalled => t == PutS(s, j, Idle).(owner := Free)
  }

  /** Thpool_destroy locks and unlocks once, then cancels every worker. */
  ghost predicate DestroyerStep(s: State, t: State) {
    || (s.owner.Free? && t == s.(owner := ByDestroyer))
    || (s.owner.ByDestroyer? && t == s.(owner := Free))
    || (exists i :: 0 <= i < |s.workers| && t == s.(cancelled := s.cancelled + {i}))
  }

  ghost predicate Step(s: State, t: State) {
    || (exists i :: 0 <= i < |s.workers| && WorkerStep(s, i, t))
    || (exists j :: 0 <= j < |s.submitters| && SubmitterStep(s, j, t))
    || DestroyerStep(s, t)
  }

  /** Thpool_create: an empty list and workers on their way to the lock. */
  ghost predicate Init(s: State) {
    && (forall i | 0 <= i < |s.workers| :: s.workers[i] == Locking)
    && (forall j | 0 <= j < |s.submitters| :: s.submitters[j] == Idle)
    && s.owner == Free && s.cancelled == {} && s.tasks == [] && s.counter == 0 && s.unused == 0
    && s.added == [] && s.taken == [] && s.freed == [] && s.lost == []
  }

  ghost predicate Run(run: seq<State>) {
    run != [] && Init(run[0]) && forall k | 0 < k < |run| :: Step(run[k - 1], run[k])
  }

  /** What Thpool_routine does first is lock, and then look at an empty list and go to sleep. */
  lemma FirstSteps(s: State, i: nat, t: State, u: State)
    requires Init(s) && i < |s.workers| && WorkerStep(s, i, t) && WorkerStep(t, i, u)
    ensures t.owner == ByWorker(i) && t.workers == s.workers[i := Checking]
    ensures u.owner == Free && u.workers == s.workers[i := Waiting]
  {
  }

  // ---------------------------------------------------------------- the mutex

  predicate Inside(w: Worker) {
    w.Checking? || w.Taking? || w.Unlinking? || w.Taken? || w.Cleaning?
  }

  predicate InsideS(x: Submitter) {
    x.Holding? || x.Linked? || x.Counted? || x.Signalled?
  }

  /** Who is between lock and unlock is exactly who owns the mutex; so nobody else is, and in
      particular cleanup_handler only ever unlocks a mutex its own thread holds. */
  ghost predicate Exclusive(s: State) {
    && (forall i | 0 <= i < |s.workers| :: Inside(s.workers[i]) <==> s.owner == ByWorker(i))
    && (forall j | 0 <= j < |s.submitters| :: InsideS(s.submitters[j]) <==> s.owner == BySubmitter(j))
    && (s.owner.ByWorker? ==> s.owner.i < |s.workers|)
    && (s.owner.BySubmitter? ==> s.owner.j < |s.submitters|)
  }

  /** Only cancelled workers leave. */
  ghost predicate Leaving(s: State) {
    && (forall i | 0 <= i < |s.workers| ::
          s.workers[i].Unwinding? || s.workers[i].Cleaning? || s.workers[i].Dead? ==> i in s.cancelled)
    && (forall c | c in s.lost :: c.worker in s.cancelled)
  }

  lemma WorkerExclusive(s: State, i: nat, t: State)
    requires Exclusive(s) && i < |s.workers| && WorkerStep(s, i, t)
    ensures Exclusive(t)
  {
  }

  lemma WorkerLeaving(s: State, i: nat, t: State)
    requires Leaving(s) && i < |s.workers| && WorkerStep(s, i, t)
    ensures Leaving(t)
  {
  }

  lemma SubmitterExclusive(s: State, j: nat, t: State)
    requires Exclusive(s) && Leaving(s) && j < |s.submitters| && SubmitterStep(s, j, t)
    ensures Exclusive(t) && Leaving(t)
  {
  }

  lemma DestroyerExclusive(s: State, t: State)
    requires Exclusive(s) && Leaving(s) && DestroyerStep(s, t)
    ensures Exclusive(t) && Leaving(t)
  {
  }

  // ---------------------------------------------------------------- the counter

  /** How far the list is ahead of the counter: never, unless somebody inside is between the two. */
  function Ahead(s: State): int {
    if s.owner.ByWorker? && s.owner.i < |s.workers| && s.workers[s.owner.i].Unlinking? then -1
    else if s.owner.BySubmitter? && s.owner.j < |s.submitters| && s.submitters[s.owner.j].Linked? then 1
    else 0
  }

  ghost predicate Counts(s: State) {
    && |s.tasks| == s.counter + Ahead(s)
    && forall i | 0 <= i < |s.workers| && s.workers[i].Taking? :: s.counter != 0
  }

  lemma WorkerCounts(s: State, i: nat, t: State)
    requires Exclusive(s) && Leaving(s) && Counts(s) && i < |s.workers| && WorkerStep(s, i, t)
    ensures Counts(t)
  {
  }

  lemma SubmitterCounts(s: State, j: nat, t: State)
    requires Exclusive(s) && Leaving(s) && Counts(s) && j < |s.submitters| && SubmitterStep(s, j, t)
    ensures Counts(t)
  {
  }

  // ---------------------------------------------------------------- first in, first out

  function Nodes(c: seq<Claim>): (n: seq<nat>)
    ensures |n| == |c| && forall k | 0 <= k < |c| :: n[k] == c[k].node
  {
    seq(|c|, k requires 0 <= k < |c| => c[k].node)
  }

  /** Jobs are taken in the order in which they were added. */
  ghost predicate Fifo(s: State) {
    s.added == Nodes(s.taken) + s.tasks
  }

  predicate Carries(x: Submitter, n: nat) {
    (x.Allocated? || x.Holding?) && x.node == n
  }

  /** No node is allocated twice. */
  ghost predicate Named(s: State) {
    && NoRepeats(s.added)
    && (forall k | 0 <= k < |s.added| :: s.added[k] < s.unused)
    && (forall j | 0 <= j < |s.submitters| && (s.submitters[j].Allocated? || s.submitters[j].Holding?) ::
          s.submitters[j].node < s.unused && s.submitters[j].node !in s.added)
    && (forall i, j | 0 <= i < j < |s.submitters| && (s.submitters[i].Allocated? || s.submitters[i].Holding?) ::
          !Carries(s.submitters[j], s.submitters[i].node))
  }

  lemma WorkerFifo(s: State, i: nat, t: State)
    requires Fifo(s) && Named(s) && i < |s.workers| && WorkerStep(s, i, t)
    ensures Fifo(t) && Named(t)
  {
    hide Named;
    assert Named(t) by { SameNames(s, t); }
    if s.workers[i].Taking? {
      assert Nodes(t.taken) == Nodes(s.taken) + [s.tasks[0]];
    }
  }

  lemma SameNames(s: State, t: State)
    requires Named(s) && t.added == s.added && t.unused == s.unused && t.submitters == s.submitters
    ensures Named(t)
  {
  }

  lemma SubmitterAdds(s: State, j: nat, t: State)
    requires Fifo(s) && Named(s) && j < |s.submitters| && SubmitterStep(s, j, t) && s.submitters[j].Holding?
    ensures Fifo(t) && Named(t)
  {
  }

  lemma SubmitterNames(s: State, j: nat, t: State)
    requires Named(s) && j < |s.submitters| && SubmitterStep(s, j, t) && !s.submitters[j].Holding?
    ensures Named(t)
  {
  }

  lemma SubmitterFifo(s: State, j: nat, t: State)
    requires Fifo(s) && Named(s) && j < |s.submitters| && SubmitterStep(s, j, t)
    ensures Fifo(t) && Named(t)
  {
    hide Named;
    if s.submitters[j].Holding? {
      hide SubmitterStep;
      SubmitterAdds(s, j, t);
    } else {
      SubmitterNames(s, j, t);
    }
  }

  // ---------------------------------------------------------------- every node once

  function HeldBy(i: nat, w: Worker): multiset<Claim> {
    if w.Unlinking? || w.Taken? || w.Running? then multiset{Claim(w.node, i)} else multiset{}
  }

  /** The nodes workers hold, from taking them off the list to freeing them. */
  function Held(ws: seq<Worker>): multiset<Claim> {
    if ws == [] then multiset{} else Held(ws[..|ws| - 1]) + HeldBy(|ws| - 1, ws[|ws| - 1])
  }

  lemma {:induction false} HeldUpdate(ws: seq<Worker>, i: nat, w: Worker)
    requires i < |ws|
    ensures Held(ws[i := w]) + HeldBy(i, ws[i]) == Held(ws) + HeldBy(i, w)
  {
    hide HeldBy;
    var k, vs := |ws| - 1, ws[i := w];
    if i < k {
      HeldUpdate(ws[..k], i, w);
      assert vs[..k] == ws[..k][i := w];
      Beside(Held(vs[..k]), HeldBy(i, ws[i]), Held(ws[..k]), HeldBy(i, w), HeldBy(k, ws[k]));
    } else {
      assert vs[..k] == ws[..k];
      Beside(HeldBy(k, w), HeldBy(k, ws[k]), HeldBy(k, ws[k]), HeldBy(k, w), Held(ws[..k]));
    }
  }

  lemma Beside(a: multiset<Claim>, b: multiset<Claim>, c: multiset<Claim>, d: multiset<Claim>, e: multiset<Claim>)
    requires a + b == c + d
    ensures (a + e) + b == (c + e) + d
    ensures (e + a) + b == (e + c) + d
  {
    forall x ensures ((a + e) + b)[x] == ((c + e) + d)[x] {
      assert (a + b)[x] == (c + d)[x];
    }
    assert a + e == e + a && c + e == e + c;
  }

  /** What was taken is held, freed or lost, by the worker that took it. */
  ghost predicate Accounted(s: State) {
    multiset(s.taken) == multiset(s.freed) + multiset(s.lost) + Held(s.workers)
  }

  lemma OneMore(c: seq<Claim>, x: Claim)
    ensures multiset(c + [x]) == multiset(c) + multiset{x}
  {
  }

  lemma Picked(taken: multiset<Claim>, gone: multiset<Claim>, before: multiset<Claim>,
               after: multiset<Claim>, x: multiset<Claim>)
    requires taken == gone + before && after + multiset{} == before + x
    ensures taken + x == gone + after
  {
    forall c ensures (taken + x)[c] == (gone + after)[c] {
      assert (after + multiset{})[c] == (before + x)[c] && taken[c] == (gone + before)[c];
    }
  }

  lemma Dropped(taken: multiset<Claim>, freed: multiset<Claim>, lost: multiset<Claim>,
                before: multiset<Claim>, after: multiset<Claim>, x: multiset<Claim>)
    requires taken == freed + lost + before && after + x == before + multiset{}
    ensures taken == (freed + x) + lost + after
    ensures taken == freed + (lost + x) + after
  {
    forall c ensures taken[c] == freed[c] + lost[c] + x[c] + after[c] {
      assert (after + x)[c] == (before + multiset{})[c] && taken[c] == (freed + lost + before)[c];
    }
  }

  lemma Same(before: multiset<Claim>, after: multiset<Claim>, x: multiset<Claim>)
    requires after + x == before + x
    ensures after == before
  {
    forall c ensures after[c] == before[c] {
      assert (after + x)[c] == (before + x)[c];
    }
  }

  lemma WorkerAccounted(s: State, i: nat, t: State)
    requires Accounted(s) && i < |s.workers| && WorkerStep(s, i, t)
    ensures Accounted(t)
  {
    hide Held;
    var v, w := s.workers[i], t.workers[i];
    HeldUpdate(s.workers, i, w);
    assert t.workers == s.workers[i := w];
    assert v.Running? <== t.freed != s.freed || t.lost != s.lost;
    hide WorkerStep;
    if v.Taking? {
      hide HeldBy;
      WorkerTakes(s, i, t);
    } else if v.Running? {
      WorkerDrops(s, i, t);
    } else {
      WorkerKeepsHeld(s, i, t);
      Same(Held(s.workers), Held(t.workers), HeldBy(i, v));
    }
  }

  lemma WorkerKeepsHeld(s: State, i: nat, t: State)
    requires i < |s.workers| && WorkerStep(s, i, t) && !s.workers[i].Taking? && !s.workers[i].Running?
    ensures HeldBy(i, s.workers[i]) == HeldBy(i, t.workers[i])
    ensures t.taken == s.taken && t.freed == s.freed && t.lost == s.lost
  {
  }

  lemma WorkerTakes(s: State, i: nat, t: State)
    requires Accounted(s) && i < |s.workers| && WorkerStep(s, i, t) && s.workers[i].Taking?
    requires Held(t.workers) + HeldBy(i, s.workers[i]) == Held(s.workers) + HeldBy(i, t.workers[i])
    ensures Accounted(t)
  {
    hide Held;
    var x := Claim(s.tasks[0], i);
    OneMore(s.taken, x);
    Picked(multiset(s.taken), multiset(s.freed) + multiset(s.lost), Held(s.workers), Held(t.workers), multiset{x});
  }

  lemma WorkerDrops(s: State, i: nat, t: State)
    requires Accounted(s) && i < |s.workers| && WorkerStep(s, i, t) && s.workers[i].Running?
    requires Held(t.workers) + HeldBy(i, s.workers[i]) == Held(s.workers) + HeldBy(i, t.workers[i])
    ensures Accounted(t)
  {
    hide Held;
    var x := Claim(s.workers[i].node, i);
    OneMore(s.freed, x);
    OneMore(s.lost, x);
    Dropped(multiset(s.taken), multiset(s.freed), multiset(s.lost), Held(s.workers), Held(t.workers), multiset{x});
  }

  lemma SubmitterAccounted(s: State, j: nat, t: State)
    requires Accounted(s) && j < |s.submitters| && SubmitterStep(s, j, t)
    ensures Accounted(t)
  {
    hide Held;
    if s.submitters[j].Counted? && t.workers != s.workers {
      var i :| 0 <= i < |s.workers| && s.workers[i].Waiting? && t == PutS(Put(s, i, Woken), j, Signalled);
      HeldUpdate(s.workers, i, Woken);
      Same(Held(s.workers), Held(t.workers), multiset{});
    }
  }

  // ---------------------------------------------------------------- no wake-up is lost

  /** Workers that will look at the counter before they sleep. */
  predicate Eager(w: Worker) {
    w.Locking? || w.Woken? || w.Checking? || w.Taking?
  }

  function Number(ws: seq<Worker>, p: Worker -> bool): nat {
    if ws == [] then 0
    else Number(ws[..|ws| - 1], p) + if p(ws[|ws| - 1]) then 1 else 0
  }

  lemma {:induction false} NumberUpdate(ws: seq<Worker>, i: nat, w: Worker, p: Worker -> bool)
    requires i < |ws|
    ensures Number(ws[i := w], p) == Number(ws, p) - (if p(ws[i]) then 1 else 0) + (if p(w) then 1 else 0)
  {
    var k, vs := |ws| - 1, ws[i := w];
    if i < k {
      NumberUpdate(ws[..k], i, w, p);
      assert vs[..k] == ws[..k][i := w];
    } else {
      assert vs[..k] == ws[..k];
    }
  }

  /** A job that is in the list and has not been signalled yet. */
  function Unsignalled(s: State): int {
    if s.owner.BySubmitter? && s.owner.j < |s.submitters|
       && (s.submitters[s.owner.j].Linked? || s.submitters[s.owner.j].Counted?) then 1 else 0
  }

  ghost predicate Asleep(ws: seq<Worker>) {
    exists i :: 0 <= i < |ws| && ws[i].Waiting?
  }

  /** While anyone sleeps, there are enough eager workers for the jobs in the list. */
  ghost predicate Attended(s: State) {
    s.cancelled == {} && Asleep(s.workers) ==> Number(s.workers, Eager) >= |s.tasks| - Unsignalled(s)
  }

  lemma WorkerAttended(s: State, i: nat, t: State)
    requires Exclusive(s) && Leaving(s) && Counts(s) && Attended(s) && i < |s.workers| && WorkerStep(s, i, t)
    ensures Attended(t)
  {
    hide Number;
    NumberUpdate(s.workers, i, t.workers[i], Eager);
    assert t.workers == s.workers[i := t.workers[i]];
    if Asleep(t.workers) && !Asleep(s.workers) {
      assert s.workers[i].Checking?;
    }
  }

  lemma SubmitterAttended(s: State, j: nat, t: State)
    requires Exclusive(s) && Attended(s) && j < |s.submitters| && SubmitterStep(s, j, t)
    ensures Attended(t)
  {
    hide Number;
    if s.submitters[j].Counted? && t.workers != s.workers {
      var i :| 0 <= i < |s.workers| && s.workers[i].Waiting? && t == PutS(Put(s, i, Woken), j, Signalled);
      NumberUpdate(s.workers, i, Woken, Eager);
      assert Asleep(s.workers);
    }
  }

  // ---------------------------------------------------------------- every run

  ghost predicate Inv(s: State) {
    Exclusive(s) && Leaving(s) && Counts(s) && Fifo(s) && Named(s) && Accounted(s) && Attended(s)
  }

  lemma DestroyerKeeps(s: State, t: State)
    requires Inv(s) && DestroyerStep(s, t)
    ensures Inv(t)
  {
    DestroyerExclusive(s, t);
    SameNames(s, t);
  }

  lemma StepKeeps(s: State, t: State)
    requires Inv(s) && Step(s, t)
    ensures Inv(t)
  {
    hide WorkerStep, SubmitterStep, DestroyerStep, Exclusive, Leaving, Counts, Fifo, Named, Accounted, Attended;
    if exists i :: 0 <= i < |s.workers| && WorkerStep(s, i, t) {
      var i: nat :| 0 <= i < |s.workers| && WorkerStep(s, i, t);
      WorkerExclusive(s, i, t);
      WorkerLeaving(s, i, t);
      WorkerCounts(s, i, t);
      WorkerFifo(s, i, t);
      WorkerAccounted(s, i, t);
      WorkerAttended(s, i, t);
    } else if exists j :: 0 <= j < |s.submitters| && SubmitterStep(s, j, t) {
      var j: nat :| 0 <= j < |s.submitters| && SubmitterStep(s, j, t);
      SubmitterExclusive(s, j, t);
      SubmitterCounts(s, j, t);
      SubmitterFifo(s, j, t);
      SubmitterAccounted(s, j, t);
      SubmitterAttended(s, j, t);
    } else {
      DestroyerKeeps(s, t);
    }
  }

  lemma {:induction false} NothingHeld(ws: seq<Worker>)
    requires forall i | 0 <= i < |ws| :: ws[i] == Locking
    ensures Held(ws) == multiset{}
  {
    if ws == [] {
    } else {
      NothingHeld(ws[..|ws| - 1]);
    }
  }

  lemma InitHolds(s: State)
    requires Init(s)
    ensures Inv(s)
  {
    NothingHeld(s.workers);
  }

  lemma {:induction false} RunKeeps(run: seq<State>, k: nat)
    requires Run(run) && k < |run|
    ensures Inv(run[k])
  {
    hide Inv, Step, Init;
    if k == 0 {
      InitHolds(run[0]);
    } else {
      RunKeeps(run, k - 1);
      StepKeeps(run[k - 1], run[k]);
    }
  }

  // ---------------------------------------------------------------- what this is for

  predicate Heading(w: Worker) {
    w.Locking? || w.Woken?
  }

  predicate Busy(w: Worker) {
    w.Running?
  }

  function Min(a: int, b: int): int {
    if a < b then a else b
  }

  lemma {:induction false} OutsideCounts(ws: seq<Worker>)
    requires forall i | 0 <= i < |ws| :: !Inside(ws[i])
    ensures Number(ws, Eager) == Number(ws, Heading)
    ensures (forall i | 0 <= i < |ws| :: Heading(ws[i]) || Busy(ws[i])) ==>
              Number(ws, Heading) + Number(ws, Busy) == |ws|
  {
    if ws == [] {
    } else {
      OutsideCounts(ws[..|ws| - 1]);
    }
  }

  /** No lost wake-up. Until somebody is cancelled, whenever the mutex is free, as many workers are on
      their way to it as there are jobs, or else every worker that is not running a job. */
  lemma NobodySleepsOnWork(run: seq<State>, k: nat)
    requires Run(run) && k < |run|
    requires run[k].owner.Free? && run[k].cancelled == {}
    ensures var s := run[k];
            && s.counter == |s.tasks|
            && Number(s.workers, Heading) >= Min(s.counter, |s.workers| - Number(s.workers, Busy))
  {
    hide Number, Fifo, Named, Accounted, Run;
    RunKeeps(run, k);
    var s := run[k];
    OutsideCounts(s.workers);
    if !Asleep(s.workers) {
      forall i | 0 <= i < |s.workers| ensures Heading(s.workers[i]) || Busy(s.workers[i]) {
        assert !Inside(s.workers[i]) && !s.workers[i].Waiting?;
      }
    }
  }

  /** Conservation. Jobs are taken in the order they were added; every one is in the list, held by one
      worker, freed by the worker that took it or lost with it, and only one of these. */
  lemma EveryJobOnce(run: seq<State>, k: nat)
    requires Run(run) && k < |run|
    ensures var s := run[k];
            && Nodes(s.taken) <= s.added && s.added[|s.taken|..] == s.tasks
            && NoRepeats(s.added)
            && multiset(s.taken) == multiset(s.freed) + multiset(s.lost) + Held(s.workers)
            && (s.owner.Free? ==> s.counter == |s.tasks|)
  {
    hide Exclusive, Leaving, Named, Accounted, Attended, Run, Held;
    RunKeeps(run, k);
    var s := run[k];
    assert NoRepeats(s.added) by { NamedApart(s); }
    assert Accounted(s);
    AccountedMeans(s);
  }

  lemma NamedApart(s: State)
    requires Named(s)
    ensures NoRepeats(s.added)
  {
  }

  lemma AccountedMeans(s: State)
    requires Accounted(s)
    ensures multiset(s.taken) == multiset(s.freed) + multiset(s.lost) + Held(s.workers)
  {
  }

  /** So no node is freed twice, and none is freed while a worker still uses it. */
  lemma FreedOnce(run: seq<State>, k: nat, a: nat)
    requires Run(run) && k < |run| && a < |run[k].freed|
    ensures var s := run[k];
            && s.freed[a] in s.taken
            && (forall b | 0 <= b < |s.freed| && b != a :: s.freed[b].node != s.freed[a].node)
            && (forall c | c in Held(s.workers) || c in s.lost :: c.node != s.freed[a].node)
            && s.freed[a].node !in s.tasks
  {
    hide Run, Held;
    EveryJobOnce(run, k);
    var s := run[k];
    var f := s.freed[a];
    assert f in multiset(s.freed);
    assert f in multiset(s.taken);
    OnceTaken(s, f);
    forall b | 0 <= b < |s.freed| && b != a ensures s.freed[b].node != f.node {
      TwiceInMultiset(s.freed, a, b);
      assert s.freed[b] in multiset(s.freed);
      assert s.freed[b] in multiset(s.taken);
    }
    forall c | c in Held(s.workers) || c in s.lost ensures c.node != f.node {
      assert c in multiset(s.lost) <==> c in s.lost;
      assert c in multiset(s.taken);
    }
  }

  lemma TwiceInMultiset<T>(s: seq<T>, a: nat, b: nat)
    requires a < |s| && b < |s| && a != b
    ensures s[a] == s[b] ==> multiset(s)[s[a]] >= 2
  {
    var i, j := if a < b then a else b, if a < b then b else a;
    assert s == s[..j] + [s[j]] + s[j + 1..];
    assert s[i] in s[..j];
  }

  /** Distinct nodes have been taken by distinct claims, each of them once. */
  lemma OnceTaken(s: State, f: Claim)
    requires NoRepeats(s.added) && Nodes(s.taken) <= s.added && s.added[|s.taken|..] == s.tasks && f in s.taken
    ensures multiset(s.taken)[f] == 1
    ensures forall c | c in s.taken && c != f :: c.node != f.node
    ensures f.node !in s.tasks
  {
    var k :| 0 <= k < |s.taken| && s.taken[k] == f;
    forall j | 0 <= j < |s.taken| && j != k ensures s.taken[j].node != f.node {
      assert s.added[j] == Nodes(s.taken)[j] && s.added[k] == Nodes(s.taken)[k];
    }
    ExactlyOne(s.taken, k);
    forall j | 0 <= j < |s.tasks| ensures s.tasks[j] != f.node {
      assert s.added[|s.taken| + j] == s.tasks[j] && s.added[k] == Nodes(s.taken)[k];
    }
  }

  lemma ExactlyOne(c: seq<Claim>, k: nat)
    requires k < |c| && forall j | 0 <= j < |c| && j != k :: c[j] != c[k]
    ensures multiset(c)[c[k]] == 1
  {
    assert c == c[..k] + [c[k]] + c[k + 1..];
  }

  /** A worker that has seen the counter finds a node in the list. */
  lemma NeverTakesFromEmpty(run: seq<State>, k: nat, i: nat)
    requires Run(run) && k < |run| && i < |run[k].workers| && run[k].workers[i].Taking?
    ensures run[k].tasks != []
  {
    hide Run, Fifo, Named, Accounted, Attended;
    RunKeeps(run, k);
  }

  /** When all workers are joined, none of them left the mutex locked. */
  lemma DestroyLeavesNoLock(run: seq<State>, k: nat)
    requires Run(run) && k < |run|
    requires forall i | 0 <= i < |run[k].workers| :: run[k].workers[i].Dead?
    ensures !run[k].owner.ByWorker?
    ensures forall i | 0 <= i < |run[k].workers| :: i in run[k].cancelled
  {
    hide Run, Fifo, Named, Accounted, Attended, Counts;
    RunKeeps(run, k);
  }

  lemma {:induction false} SleepersHoldNothing(ws: seq<Worker>)
    requires forall i | 0 <= i < |ws| :: ws[i].Waiting?
    ensures Held(ws) == multiset{} && Number(ws, Heading) == 0 && Number(ws, Busy) == 0
  {
    if ws == [] {
    } else {
      SleepersHoldNothing(ws[..|ws| - 1]);
    }
  }

  /** A pool that is all asleep has done all its work. */
  lemma AllAsleepAllDone(run: seq<State>, k: nat)
    requires Run(run) && k < |run| && run[k].cancelled == {} && run[k].owner.Free?
    requires run[k].workers != [] && forall i | 0 <= i < |run[k].workers| :: run[k].workers[i].Waiting?
    ensures var s := run[k];
            s.tasks == [] && s.lost == [] && s.added == Nodes(s.taken) && multiset(s.taken) == multiset(s.freed)
  {
    hide Exclusive, Fifo, Named, Attended, Run, Held, Number;
    var s := run[k];
    NobodySleepsOnWork(run, k);
    SleepersHoldNothing(s.workers);
    EveryJobOnce(run, k);
    assert s.lost == [] by {
      RunKeeps(run, k);
      assert |s.lost| == 0 || s.lost[0].worker in s.cancelled;
    }
    assert Nodes(s.taken) == s.added[..|s.taken|] == s.added;
  }

  /** While a job waits, whoever owns the mutex can go on, and if nobody does, some worker can. */
  lemma NeverStuck(run: seq<State>, k: nat)
    requires Run(run) && k < |run| && run[k].cancelled == {} && run[k].workers != [] && run[k].tasks != []
    ensures var s := run[k];
            match s.owner
            case Free => exists i, t :: 0 <= i < |s.workers| && !s.workers[i].Waiting? && WorkerStep(s, i, t)
            case ByWorker(i) => i < |s.workers| && exists t :: WorkerStep(s, i, t)
            case BySubmitter(j) => j < |s.submitters| && exists t :: SubmitterStep(s, j, t)
            case ByDestroyer => DestroyerStep(s, s.(owner := Free))
  {
    hide Fifo, Named, Accounted, Attended, Run, Number;
    RunKeeps(run, k);
    var s := run[k];
    match s.owner
    case Free =>
      NobodySleepsOnWork(run, k);
      SomeoneAwake(s.workers);
      var i :| 0 <= i < |s.workers| && (Heading(s.workers[i]) || Busy(s.workers[i]));
      OutsideCanMove(s, i);
    case ByWorker(i) => InsideCanMove(s, i);
    case BySubmitter(j) => SubmitterCanMove(s, j);
    case ByDestroyer =>
  }

  /** After pthread_cancel nothing blocks the join for good: while a cancelled worker is still there,
      whoever owns the mutex can go on, and if nobody does, that worker can. */
  lemma CancelledCanLeave(run: seq<State>, k: nat, i: nat)
    requires Run(run) && k < |run| && i < |run[k].workers|
    requires i in run[k].cancelled && !run[k].workers[i].Dead?
    ensures var s := run[k];
            match s.owner
            case Free => exists t :: WorkerStep(s, i, t)
            case ByWorker(j) => j < |s.workers| && exists t :: WorkerStep(s, j, t)
            case BySubmitter(j) => j < |s.submitters| && exists t :: SubmitterStep(s, j, t)
            case ByDestroyer => DestroyerStep(s, s.(owner := Free))
  {
    hide Fifo, Named, Accounted, Attended, Run;
    RunKeeps(run, k);
    var s := run[k];
    match s.owner
    case Free => CancelledCanMove(s, i);
    case ByWorker(j) => InsideCanMove(s, j);
    case BySubmitter(j) => SubmitterCanMove(s, j);
    case ByDestroyer =>
  }

  lemma CancelledCanMove(s: State, i: nat)
    requires i < |s.workers| && s.owner.Free? && !Inside(s.workers[i]) && !s.workers[i].Dead? && i in s.cancelled
    ensures exists t :: WorkerStep(s, i, t)
  {
    if Heading(s.workers[i]) || Busy(s.workers[i]) {
      OutsideCanMove(s, i);
    } else if s.workers[i].Waiting? {
      assert WorkerStep(s, i, Put(s, i, Unwinding));
    } else {
      assert WorkerStep(s, i, Put(s, i, Cleaning).(owner := ByWorker(i)));
    }
  }

  lemma {:induction false} SomeoneAwake(ws: seq<Worker>)
    requires Number(ws, Heading) + Number(ws, Busy) > 0
    ensures exists i :: 0 <= i < |ws| && (Heading(ws[i]) || Busy(ws[i]))
  {
    var k := |ws| - 1;
    if !Heading(ws[k]) && !Busy(ws[k]) {
      SomeoneAwake(ws[..k]);
      var i :| 0 <= i < k && (Heading(ws[..k][i]) || Busy(ws[..k][i]));
      assert ws[i] == ws[..k][i];
    }
  }

  lemma OutsideCanMove(s: State, i: nat)
    requires i < |s.workers| && s.owner.Free? && (Heading(s.workers[i]) || Busy(s.workers[i]))
    ensures exists t :: WorkerStep(s, i, t)
  {
    if Heading(s.workers[i]) {
      assert WorkerStep(s, i, Put(s, i, Checking).(owner := ByWorker(i)));
    } else {
      var n := s.workers[i].node;
      assert WorkerStep(s, i, Put(s, i, Locking).(freed := s.freed + [Claim(n, i)]));
    }
  }

  lemma InsideCanMove(s: State, i: nat)
    requires i < |s.workers| && Inside(s.workers[i]) && (s.workers[i].Taking? ==> s.tasks != [])
    ensures exists t :: WorkerStep(s, i, t)
  {
    match s.workers[i]
    case Checking =>
      assert WorkerStep(s, i, if s.counter == 0 then Put(s, i, Waiting).(owner := Free) else Put(s, i, Taking));
    case Taking =>
      var n := s.tasks[0];
      assert WorkerStep(s, i, Put(s, i, Unlinking(n)).(tasks := s.tasks[1..], taken := s.taken + [Claim(n, i)]));
    case Unlinking(n) => assert WorkerStep(s, i, Put(s, i, Taken(n)).(counter := s.counter - 1));
    case Taken(n) => assert WorkerStep(s, i, Put(s, i, Running(n)).(owner := Free));
    case Cleaning => assert WorkerStep(s, i, Put(s, i, Dead).(owner := Free));
  }

  lemma SubmitterCanMove(s: State, j: nat)
    requires j < |s.submitters| && InsideS(s.submitters[j])
    ensures exists t :: SubmitterStep(s, j, t)
  {
    match s.submitters[j]
    case Holding(n) => assert SubmitterStep(s, j, PutS(s, j, Linked).(tasks := s.tasks + [n], added := s.added + [n]));
    case Linked => assert SubmitterStep(s, j, PutS(s, j, Counted).(counter := s.counter + 1));
    case Counted =>
      if Asleep(s.workers) {
        var i :| 0 <= i < |s.workers| && s.workers[i].Waiting?;
        assert Signal(s, j, PutS(Put(s, i, Woken), j, Signalled));
        assert SubmitterStep(s, j, PutS(Put(s, i, Woken), j, Signalled));
      } else {
        assert SubmitterStep(s, j, PutS(s, j, Signalled));
      }
    case Signalled => assert SubmitterStep(s, j, PutS(s, j, Idle).(owner := Free));
  }
}
