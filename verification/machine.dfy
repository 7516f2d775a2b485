// Planner, job queue and timer interrupt together: where the head is, where it
// will be, and where the planner believes it will be.
module Machine {
  import opened ArcTracer
  import opened ArcOctants
  import opened ArcDryRun
  import opened Motion
  import opened Stepper
  import opened RingBuffer

  // The ticks of a queue of jobs.
  function QueueTicks(blocks: seq<Block>): nat
    requires forall b :: b in blocks ==> ValidBlock(b)
  {
    if blocks == [] then 0 else BlockTicks(blocks[0]) + QueueTicks(blocks[1..])
  }

  // G28: only the reference switches know when such a job is done.
  predicate IsSearch(b: Block) { b.Reference? && b.search }

  ghost predicate AnySearch(blocks: seq<Block>) {
    exists b :: b in blocks && IsSearch(b)
  }

  const QUEUE_SIZE := 32

  class Machine {
    const motor: Motor
    const queue: Ring<Block>

    ghost predicate Valid()
      reads this, motor, queue, queue.data
    {
      && motor.Valid()
      && queue.Valid() && queue.size == QUEUE_SIZE
      && (forall b :: b in queue.Contents() ==> ValidBlock(b))
    }

    // The job that was queued last.
    ghost predicate Newest(b: Block)
      requires Valid()
      reads this, motor, queue, queue.data
    {
      queue.Contents() != [] && NewestJob() == b
    }

    ghost function NewestJob(): Block
      requires Valid() && queue.Contents() != []
      reads this, motor, queue, queue.data
    {
      queue.Contents()[|queue.Contents()| - 1]
    }

    // Where the head will be when everything queued is done.
    ghost function Final(): Vec
      requires Valid()
      reads this, motor, queue, queue.data
    {
      Fold(queue.Contents(), motor.JobEnd())
    }

    // Interrupts until everything is done; one that finds the motor idle only
    // fetches a job.
    ghost function Work(): nat
      requires Valid()
      reads this, motor, queue, queue.data
    {
      motor.TicksLeft() + QueueTicks(queue.Contents()) +
        if motor.job == IDLE && queue.Contents() != [] then 1 else 0
    }

    ghost predicate Searching()
      requires Valid()
      reads this, motor, queue, queue.data
    {
      motor.Searching() || AnySearch(queue.Contents())
    }

    constructor ()
      ensures Valid() && queue.Contents() == [] && motor.job == IDLE && Final() == ORIGIN
      ensures fresh(motor) && fresh(queue) && fresh(queue.data)
    {
      motor := new Motor();
      queue := new Ring<Block>(QUEUE_SIZE);
    }

    // The motor has nothing to do: take the next job, if there is one.
    method FetchJob()
      requires Valid() && motor.job == IDLE
      modifies motor, queue`tail
      ensures Valid() && Final() == old(Final()) && queue.head == old(queue.head)
      ensures Fetched(old(queue.Contents()), queue.Contents(), motor.job)
      ensures !AnySearch(old(queue.Contents())) ==> !Searching()
      ensures Work() == old(QueueTicks(queue.Contents()))
    {
      if !queue.IsEmpty() {
        var b := queue.Peek();
        assert b in queue.Contents();
        motor.Load(b);
        queue.Pop();
      } else {
        assert queue.Contents() == [];
      }
    }

    // The timer interrupt: go on with the job, or take the next one.
    method Irq(switches: Axes)
      requires Valid()
      modifies motor, queue`tail
      ensures Valid() && Final() == old(Final()) && queue.head == old(queue.head)
      ensures queue.Contents() == old(queue.Contents()) || Fetched(old(queue.Contents()), queue.Contents(), motor.job)
      ensures !old(motor.Searching()) && old(queue.Contents()) == queue.Contents() != [] ==>
        !motor.Searching() && motor.TicksLeft() == old(motor.TicksLeft()) - 1
      ensures !old(Searching()) ==> !Searching() && Work() == Before(old(Work()))
    {
      var busy := motor.RunJob(switches);
      if busy {
        return;
      }
      motor.GoIdle();
      FetchJob();
    }

    // Any number of interrupts between two statements of the planner, each
    // with its own reading of the switches.
    method Interrupts(readings: seq<Axes>)
      requires Valid()
      modifies motor, queue`tail
      ensures Valid() && Final() == old(Final()) && queue.head == old(queue.head)
      ensures |queue.Contents()| <= |old(queue.Contents())|
      ensures !old(Searching()) ==> !Searching()
    {
      for i := 0 to |readings|
        invariant Valid() && Final() == old(Final()) && queue.head == old(queue.head)
        invariant |queue.Contents()| <= |old(queue.Contents())|
        invariant !old(Searching()) ==> !Searching()
      {
        Irq(readings[i]);
      }
    }

    // Push the job that was built in the slot at head: wait while there is no
    // free slot.  That takes no longer than the job under way, unless it is one
    // that waits for a switch.
    method Push(waiting: seq<Axes>, ghost b: Block) returns (done: bool)
      requires Valid() && ValidBlock(b) && queue.data[queue.head] == b
      modifies motor, queue
      ensures Valid()
      ensures done ==> Final() == Effect(b, old(Final())) && Newest(b)
      ensures !done ==> Final() == old(Final()) && queue.IsFull()
      ensures !old(queue.IsFull()) ==> done
      ensures !old(motor.Searching()) && |waiting| > old(motor.TicksLeft()) ==> done
      ensures !old(Searching()) && !IsSearch(b) ==> !Searching()
    {
      var i := 0;
      while queue.IsFull() && i < |waiting|
        invariant 0 <= i <= |waiting|
        invariant Valid() && Final() == old(Final()) && queue.head == old(queue.head)
        invariant !old(queue.IsFull()) ==> i == 0 && !queue.IsFull()
        invariant !old(motor.Searching()) && queue.IsFull() ==>
          !motor.Searching() && motor.TicksLeft() + i <= old(motor.TicksLeft())
        invariant !old(Searching()) ==> !Searching()
      {
        Irq(waiting[i]);
        i := i + 1;
      }
      done := !queue.IsFull();
      if done {
        PushNow(b);
      }
    }

    method PushNow(ghost b: Block)
      requires Valid() && ValidBlock(b) && !queue.IsFull() && queue.data[queue.head] == b
      modifies queue`head
      ensures Valid() && Final() == Effect(b, old(Final())) && Newest(b)
      ensures !old(Searching()) && !IsSearch(b) ==> !Searching()
    {
      FoldAppend(queue.Contents(), b, motor.JobEnd());
      queue.Push();
    }

    // Interrupts as long as there are jobs in the queue.
    method DrainQueue(readings: seq<Axes>) returns (used: nat)
      requires Valid()
      modifies motor, queue`tail
      ensures Valid() && Final() == old(Final())
      ensures used <= |readings|
      ensures used < |readings| ==> queue.Contents() == []
      ensures !old(Searching()) ==> !Searching() && Work() + used <= old(Work())
    {
      used := 0;
      while !queue.IsEmpty() && used < |readings|
        invariant used <= |readings|
        invariant Valid() && Final() == old(Final())
        invariant !old(Searching()) ==> !Searching() && Work() + used <= old(Work())
      {
        Progress();
        Irq(readings[used]);
        used := used + 1;
      }
    }

    // And until the last job is done.
    method DrainMotor(readings: seq<Axes>)
      requires Valid() && queue.Contents() == []
      modifies motor, queue`tail
      ensures Valid() && Final() == old(Final()) && queue.Contents() == []
      ensures !old(Searching()) && |readings| >= old(Work()) ==> motor.job == IDLE
    {
      var used := 0;
      while motor.job != IDLE && used < |readings|
        invariant used <= |readings|
        invariant Valid() && Final() == old(Final()) && queue.Contents() == []
        invariant !old(Searching()) ==> !Searching() && Work() + used <= old(Work())
        decreases |readings| - used
      {
        Progress();
        Irq(readings[used]);
        used := used + 1;
      }
      Progress();
    }

    // Wait until everything is done.  Then the head is where it was to be; and
    // without a search for the switches that takes no more interrupts than
    // there is work.
    method Drain(readings: seq<Axes>) returns (done: bool)
      requires Valid()
      modifies motor, queue`tail
      ensures Valid() && Final() == old(Final())
      ensures done ==> queue.Contents() == [] && motor.job == IDLE && motor.position == old(Final())
      ensures !old(Searching()) && |readings| >= old(Work()) ==> done
    {
      var used := DrainQueue(readings);
      Progress();
      if !queue.IsEmpty() {
        return false;
      }
      DrainMotor(readings[used..]);
      done := motor.job == IDLE;
    }

    lemma Progress()
      requires Valid()
      ensures queue.Contents() != [] || motor.job != IDLE ==> Work() > 0
    {}
  }

  ghost predicate Fetched(before: seq<Block>, after: seq<Block>, job: int) {
    if before == [] then after == [] && job == IDLE else after == before[1..] && job != IDLE
  }

  function Before(n: nat): nat { if n == 0 then 0 else n - 1 }
}
