/** The linked list of Chat/src/thpool.c: what Thpool_add_task and Thpool_routine do to it while
    they hold the mutex. */
module TaskQueue {
  import opened Sequences

  /** A routine and its argument. */
  datatype Job = Job(routine: int, arg: int)

  class Task {
    const job: Job
    var next: Task?

    constructor (job: Job)
      ensures this.job == job && next == null
    {
      this.job, this.next := job, null;
    }
  }

  /** The next node of a chain that visits s. */
  ghost function After(s: seq<Task>, i: nat): Task?
    requires i < |s|
  {
    if i + 1 < |s| then s[i + 1] else null
  }

  function Jobs(s: seq<Task>): (t: seq<Job>)
    ensures |t| == |s| && forall i | 0 <= i < |s| :: t[i] == s[i].job
  {
    seq(|s|, i requires 0 <= i < |s| => s[i].job)
  }

  class ThreadPool {
    var tasks: Task?
    var counter: int
    ghost var spine: seq<Task>  // the nodes in the order the next pointers visit them

    ghost predicate Valid()
      reads this, spine
    {
      && counter == |spine|
      && (tasks == if spine == [] then null else spine[0])
      && NoRepeats(spine)
      && forall i {:trigger After(spine, i)} | 0 <= i < |spine| :: spine[i].next == After(spine, i)
    }

    /** The jobs waiting, first to be taken first. */
    ghost function Queue(): seq<Job>
      reads this
    {
      Jobs(spine)
    }

    constructor ()
      ensures Valid() && Queue() == []
    {
      tasks, counter, spine := null, 0, [];
    }

    /** Thpool_add_task between lock and unlock. */
    method AddTask(job: Job)
      requires Valid()
      modifies this, spine
      ensures Valid() && Queue() == old(Queue()) + [job]
      ensures |spine| == |old(spine)| + 1 && old(spine) <= spine && fresh(spine[|old(spine)|])
    {
      var newTask := new Task(job);
      if tasks == null {
        tasks := newTask;
        counter := counter + 1;
        spine := [newTask];
        return;
      }
      var p := LastTask();
      LinkLast(p, newTask);
    }

    /** The loop to the end of the list. */
    method LastTask() returns (p: Task)
      requires Valid() && tasks != null
      ensures spine != [] && p == spine[|spine| - 1]
    {
      p := tasks;
      ghost var i := 0;
      while p.next != null
        invariant 0 <= i < |spine| && p == spine[i]
        decreases |spine| - i
      {
        assert p.next == After(spine, i);
        p, i := p.next, i + 1;
      }
      assert p.next == After(spine, i);
    }

    method LinkLast(p: Task, newTask: Task)
      requires Valid() && spine != [] && p == spine[|spine| - 1]
      requires newTask !in spine && newTask.next == null
      modifies this, p
      ensures Valid() && spine == old(spine) + [newTask]
    {
      ghost var before := spine;
      assert p.next == After(spine, |spine| - 1);
      p.next := newTask;
      counter := counter + 1;
      spine := spine + [newTask];
      forall i | 0 <= i < |spine| ensures spine[i].next == After(spine, i) {
        assert i < |before| - 1 ==> before[i].next == After(before, i);
      }
    }

    /** What Thpool_routine does once the counter is not zero. The node stays allocated until its
        job has run, but the list no longer knows it. */
    method TakeFirst() returns (first: Task, job: Job)
      requires Valid() && counter != 0
      modifies this
      ensures Valid() && first == old(spine[0]) && first !in spine && spine == old(spine[1..])
      ensures old(Queue()) == [job] + Queue()
    {
      first := tasks;
      job := first.job;
      assert first.next == After(spine, 0);
      ghost var before := spine;
      tasks := tasks.next;
      counter := counter - 1;
      spine := spine[1..];
      forall i | 0 <= i < |spine| ensures spine[i].next == After(spine, i) {
        assert before[i + 1].next == After(before, i + 1);
      }
    }
  }
}
