/**
 * Two queues that admit a bounded number of asynchronous reads: the diff queue with three readers and no
 * bound on waiting reads, and the image queue with two readers that refuses when 64 reads wait.
 */
module BoundedQueues {
  import opened Options
  import opened Sequences

  const DIFF_READERS := 3
  const IMAGE_READERS := 2
  const IMAGE_WAITING := 64

  /** Jobs by number: what was accepted, started and settled so far, in order. */
  datatype Queue = Queue(accepted: seq<nat>, started: nat, settled: set<nat>, refused: seq<nat>)

  const EMPTY := Queue([], 0, {}, [])

  datatype Limits = Limits(readers: nat, waiting: Option<nat>)

  /** At least one reader, and at least one place in a bounded line. */
  predicate Usable(l: Limits) {
    l.readers >= 1 && (l.waiting.Some? ==> l.waiting.value >= 1)
  }

  /** Jobs start in the order they were accepted, so the started ones are the first ones. */
  function Waiting(q: Queue): seq<nat>
    requires q.started <= |q.accepted|
  {
    q.accepted[q.started..]
  }

  function Started(q: Queue): seq<nat>
    requires q.started <= |q.accepted|
  {
    q.accepted[..q.started]
  }

  function Running(q: Queue): set<nat>
    requires q.started <= |q.accepted|
  {
    set j | j in q.accepted[..q.started] && j !in q.settled
  }

  ghost predicate Valid(q: Queue, l: Limits) {
    && q.started <= |q.accepted|
    && Distinct(q.accepted)
    && (forall j | j in q.settled :: j in q.accepted[..q.started])
    && |Running(q)| <= l.readers
    && (Waiting(q) != [] ==> |Running(q)| == l.readers)
    && (l.waiting.Some? ==> |Waiting(q)| <= l.waiting.value)
  }

  // ---------------------------------------------------------------- steps

  /** Starts waiting jobs while a reader is free. */
  function Pump(q: Queue, readers: nat): Queue
    requires q.started <= |q.accepted|
    decreases |q.accepted| - q.started
  {
    if |Running(q)| < readers && q.started < |q.accepted| then Pump(q.(started := q.started + 1), readers) else q
  }

  predicate Refuses(q: Queue, l: Limits)
    requires q.started <= |q.accepted|
  {
    l.waiting.Some? && |Waiting(q)| >= l.waiting.value
  }

  function Enqueue(q: Queue, job: nat, l: Limits): Queue
    requires q.started <= |q.accepted|
  {
    if Refuses(q, l) then q.(refused := q.refused + [job])
    else Pump(q.(accepted := q.accepted + [job]), l.readers)
  }

  function Settle(q: Queue, job: nat, l: Limits): Queue
    requires q.started <= |q.accepted|
  {
    Pump(q.(settled := q.settled + {job}), l.readers)
  }

  // ---------------------------------------------------------------- the invariant

  /** What holds between two starts: one reader may be free although jobs wait. */
  ghost predicate Pumping(q: Queue, l: Limits) {
    && q.started <= |q.accepted|
    && Distinct(q.accepted)
    && (forall j | j in q.settled :: j in q.accepted[..q.started])
    && |Running(q)| <= l.readers
  }

  lemma StartOne(q: Queue, l: Limits)
    requires Pumping(q, l) && q.started < |q.accepted| && |Running(q)| < l.readers
    ensures var next := q.(started := q.started + 1);
      && Pumping(next, l)
      && Running(next) == Running(q) + {q.accepted[q.started]}
      && q.accepted[q.started] !in Running(q)
      && |Running(next)| == |Running(q)| + 1
  {
    var next, job := q.(started := q.started + 1), q.accepted[q.started];
    assert q.accepted[..next.started] == q.accepted[..q.started] + [job];
    assert job !in q.accepted[..q.started];
    assert Running(next) == Running(q) + {job};
  }

  lemma PumpStops(q: Queue, readers: nat)
    requires q.started <= |q.accepted| && (|Running(q)| >= readers || q.started == |q.accepted|)
    ensures Pump(q, readers) == q
  {
  }

  lemma PumpGoesOn(q: Queue, next: Queue, readers: nat)
    requires q.started < |q.accepted| && |Running(q)| < readers && next == q.(started := q.started + 1)
    ensures Pump(q, readers) == Pump(next, readers)
  {
  }

  /** `r` is `q` with jobs started until the readers are busy or nothing waits. */
  ghost predicate Filled(q: Queue, r: Queue, l: Limits)
    requires q.started <= |q.accepted|
  {
    && Pumping(r, l)
    && r == q.(started := r.started) && r.started >= q.started
    && (Waiting(r) != [] ==> |Running(r)| == l.readers)
    && |Running(r)| + |Waiting(r)| == |Running(q)| + |Waiting(q)|
  }

  lemma FilledFrom(q: Queue, r: Queue, l: Limits)
    requires Pumping(q, l) && q.started < |q.accepted| && |Running(q)| < l.readers
    requires Filled(q.(started := q.started + 1), r, l)
    ensures Filled(q, r, l)
  {
    StartOne(q, l);
  }

  lemma {:induction false} PumpFills(q: Queue, l: Limits)
    requires Pumping(q, l)
    ensures Filled(q, Pump(q, l.readers), l)
    decreases |q.accepted| - q.started
  {
    if |Running(q)| < l.readers && q.started < |q.accepted| {
      var next := q.(started := q.started + 1);
      StartOne(q, l);
      PumpFills(next, l);
      PumpGoesOn(q, next, l.readers);
      FilledFrom(q, Pump(q, l.readers), l);
    } else {
      PumpStops(q, l.readers);
    }
  }

  /** A new job starts at once if a reader is free, waits otherwise, and is refused only when the line is full. */
  lemma EnqueueKeepsValid(q: Queue, job: nat, l: Limits)
    requires Valid(q, l) && Usable(l) && job !in q.accepted
    ensures Valid(Enqueue(q, job, l), l)
    ensures Refuses(q, l) <==> l.waiting.Some? && |Waiting(q)| == l.waiting.value
    ensures Refuses(q, l) ==> |Running(q)| == l.readers
    ensures var next := Enqueue(q, job, l);
      next.refused == (if Refuses(q, l) then q.refused + [job] else q.refused)
      && next.accepted == (if Refuses(q, l) then q.accepted else q.accepted + [job])
  {
    var more := q.(accepted := q.accepted + [job]);
    assert more.accepted[..q.started] == q.accepted[..q.started];
    assert Running(more) == Running(q);
    PumpFills(more, l);
  }

  /** A finished job frees its reader for the first job waiting. */
  lemma SettleKeepsValid(q: Queue, job: nat, l: Limits)
    requires Valid(q, l) && job in Running(q)
    ensures var next := Settle(q, job, l);
      && Valid(next, l)
      && next.accepted == q.accepted
      && job in next.settled && job !in Running(next)
      && |Running(next)| + |Waiting(next)| == |Running(q)| + |Waiting(q)| - 1
      && next.started == (if Waiting(q) == [] then q.started else q.started + 1)
  {
    var freed := q.(settled := q.settled + {job});
    assert Running(freed) == Running(q) - {job};
    PumpFills(freed, l);
    if Waiting(q) != [] {
      StartOne(freed, l);
      PumpOnce(freed, l);
    }
  }

  lemma PumpOnce(q: Queue, l: Limits)
    requires Pumping(q, l) && q.started < |q.accepted| && |Running(q)| + 1 == l.readers
    ensures Pump(q, l.readers) == q.(started := q.started + 1)
  {
    var next := q.(started := q.started + 1);
    StartOne(q, l);
    PumpGoesOn(q, next, l.readers);
    PumpStops(next, l.readers);
  }

  // ---------------------------------------------------------------- every run

  datatype Op = Enqueued(job: nat) | Settled(job: nat)

  ghost predicate Enabled(q: Queue, op: Op) {
    q.started <= |q.accepted|
    && match op
       case Enqueued(job) => job !in q.accepted
       case Settled(job) => job in Running(q)
  }

  ghost function Next(q: Queue, op: Op, l: Limits): Queue
    requires Enabled(q, op)
  {
    match op
    case Enqueued(job) => Enqueue(q, job, l)
    case Settled(job) => Settle(q, job, l)
  }

  ghost predicate Stepped(q: Queue, op: Op, next: Queue, l: Limits) {
    Enabled(q, op) && next == Next(q, op, l)
  }

  ghost predicate Run(queues: seq<Queue>, ops: seq<Op>, l: Limits) {
    && |queues| == |ops| + 1 && queues[0] == EMPTY
    && forall i {:trigger ops[i]} | 0 <= i < |ops| :: Stepped(queues[i], ops[i], queues[i + 1], l)
  }

  lemma {:induction false} PumpOnlyStarts(q: Queue, readers: nat)
    requires q.started <= |q.accepted|
    ensures Pump(q, readers) == q.(started := Pump(q, readers).started)
    ensures q.started <= Pump(q, readers).started <= |q.accepted|
    decreases |q.accepted| - q.started
  {
    if |Running(q)| < readers && q.started < |q.accepted| {
      PumpOnlyStarts(q.(started := q.started + 1), readers);
    }
  }

  /** Nothing is taken back: what was accepted stays accepted, and what was started stays started. */
  predicate Grows(q: Queue, next: Queue) {
    q.accepted <= next.accepted && q.started <= next.started <= |next.accepted| && q.started <= |q.accepted|
  }

  lemma StepGrows(q: Queue, op: Op, next: Queue, l: Limits)
    requires Stepped(q, op, next, l)
    ensures Grows(q, next)
  {
    match op
    case Enqueued(job) => PumpOnlyStarts(q.(accepted := q.accepted + [job]), l.readers);
    case Settled(job) => PumpOnlyStarts(q.(settled := q.settled + {job}), l.readers);
  }

  lemma StepKeepsValid(q: Queue, op: Op, next: Queue, l: Limits)
    requires Valid(q, l) && Stepped(q, op, next, l) && Usable(l)
    ensures Valid(next, l)
  {
    match op
    case Enqueued(job) => EnqueueKeepsValid(q, job, l);
    case Settled(job) => SettleKeepsValid(q, job, l);
  }

  lemma EmptyIsValid(l: Limits)
    ensures Valid(EMPTY, l)
  {
    assert Running(EMPTY) == {};
  }

  /**
   * In every run the readers are never exceeded, jobs start first come first served, and none waits beside a
   * free reader.
   */
  lemma {:induction false} RunStaysValid(queues: seq<Queue>, ops: seq<Op>, l: Limits, n: nat)
    requires Run(queues, ops, l) && Usable(l) && n <= |ops|
    ensures Valid(queues[n], l)
    decreases n
  {
    if n == 0 {
      EmptyIsValid(l);
    } else {
      RunStaysValid(queues, ops, l, n - 1);
      StepKeepsValid(queues[n - 1], ops[n - 1], queues[n - 1 + 1], l);
    }
  }

  lemma RunStepGrows(queues: seq<Queue>, ops: seq<Op>, l: Limits, i: nat)
    requires Run(queues, ops, l) && i < |ops|
    ensures Grows(queues[i], queues[i + 1])
  {
    assert Stepped(queues[i], ops[i], queues[i + 1], l);
    StepGrows(queues[i], ops[i], queues[i + 1], l);
  }

  lemma GrowsOn(a: Queue, b: Queue, c: Queue)
    requires Grows(a, b) && Grows(b, c)
    ensures Grows(a, c) && Grows(c, c)
  {
  }

  /** Jobs are started in the order in which they were accepted, and what was started stays so. */
  lemma {:induction false} RunGrows(queues: seq<Queue>, ops: seq<Op>, l: Limits, i: nat, j: nat)
    requires Run(queues, ops, l) && i <= j <= |ops|
    ensures Grows(queues[i], queues[j])
    decreases j
  {
    if j == 0 {
      assert queues[0] == EMPTY;
    } else {
      var k := if i < j then i else j - 1;
      RunGrows(queues, ops, l, k, j - 1);
      RunStepGrows(queues, ops, l, j - 1);
      GrowsOn(queues[k], queues[j - 1], queues[j - 1 + 1]);
    }
  }

  lemma StartedIsPrefix(q: Queue, next: Queue)
    requires Grows(q, next)
    ensures Started(q) <= Started(next) <= next.accepted
  {
    assert next.accepted[..q.started] == q.accepted[..q.started];
  }

  /** The step makes the job start. */
  predicate Starts(q: Queue, next: Queue, job: nat) {
    Grows(q, next) && job !in Started(q) && job in Started(next)
  }

  lemma {:induction false} StartStep(queues: seq<Queue>, ops: seq<Op>, l: Limits, n: nat, job: nat) returns (k: nat)
    requires Run(queues, ops, l) && n <= |ops| && queues[n].started <= |queues[n].accepted|
    requires job in Started(queues[n])
    ensures k < n && Starts(queues[k], queues[k + 1], job)
    decreases n
  {
    RunGrows(queues, ops, l, n - 1, n);
    if job in Started(queues[n - 1]) {
      k := StartStep(queues, ops, l, n - 1, job);
    } else {
      k := n - 1;
    }
  }

  /** Every job that is running or has been is started by exactly one step of the run. */
  lemma JobsStartOnce(queues: seq<Queue>, ops: seq<Op>, l: Limits, n: nat, job: nat) returns (k: nat)
    requires Run(queues, ops, l) && n <= |ops| && queues[n].started <= |queues[n].accepted|
    requires job in Started(queues[n])
    ensures k < n && Starts(queues[k], queues[k + 1], job)
    ensures forall i | 0 <= i < |ops| && Starts(queues[i], queues[i + 1], job) :: i == k
  {
    k := StartStep(queues, ops, l, n, job);
    forall i | 0 <= i < |ops| && Starts(queues[i], queues[i + 1], job) ensures i == k {
      StartsDoNotRepeat(queues, ops, l, i, k, job);
      StartsDoNotRepeat(queues, ops, l, k, i, job);
    }
  }

  lemma StartsDoNotRepeat(queues: seq<Queue>, ops: seq<Op>, l: Limits, i: nat, k: nat, job: nat)
    requires Run(queues, ops, l) && i < |ops| && k < |ops|
    requires Starts(queues[i], queues[i + 1], job) && Starts(queues[k], queues[k + 1], job)
    ensures i >= k
  {
    if i < k {
      RunGrows(queues, ops, l, i + 1, k);
      StartedIsPrefix(queues[i + 1], queues[k]);
    }
  }

  function Outstanding(q: Queue): nat
    requires q.started <= |q.accepted|
  {
    |Running(q)| + |Waiting(q)|
  }

  lemma NothingOutstanding(q: Queue, l: Limits)
    requires Valid(q, l) && l.readers >= 1
    ensures Outstanding(q) > 0 ==> Running(q) != {}
    ensures Outstanding(q) == 0 ==> forall j | j in q.accepted :: j in q.settled
  {
    if Outstanding(q) == 0 {
      assert q.accepted[..q.started] == q.accepted;
      assert Running(q) == {};
      forall j | j in q.accepted ensures j in q.settled {
        assert j in q.accepted[..q.started] && j !in Running(q);
      }
    }
  }

  /** `n` jobs were settled and none was added. */
  ghost predicate Fallen(from: Queue, q: Queue, n: nat, l: Limits) {
    Valid(from, l) && Valid(q, l) && q.accepted == from.accepted && Outstanding(q) + n == Outstanding(from)
  }

  lemma SettlingReduces(from: Queue, n: nat, q: Queue, job: nat, next: Queue, l: Limits)
    requires Fallen(from, q, n, l) && Stepped(q, Settled(job), next, l)
    ensures Fallen(from, next, n + 1, l)
  {
    SettleKeepsValid(q, job, l);
  }

  lemma {:induction false} OutstandingFalls(jobs: seq<nat>, queues: seq<Queue>, l: Limits, n: nat)
    requires n <= |jobs| && |queues| == |jobs| + 1 && Valid(queues[0], l)
    requires forall i {:trigger jobs[i]} | 0 <= i < |jobs| :: Stepped(queues[i], Settled(jobs[i]), queues[i + 1], l)
    ensures Fallen(queues[0], queues[n], n, l)
    decreases n
  {
    if n > 0 {
      OutstandingFalls(jobs, queues, l, n - 1);
      SettlingReduces(queues[0], n - 1, queues[n - 1], jobs[n - 1], queues[n - 1 + 1], l);
    }
  }

  /**
   * Nothing is stuck: while a job is outstanding one is running, and once `Outstanding` jobs have settled
   * with none added, every accepted job has settled.
   */
  lemma QueueDrains(jobs: seq<nat>, queues: seq<Queue>, l: Limits)
    requires |queues| == |jobs| + 1 && Valid(queues[0], l) && l.readers >= 1
    requires forall i {:trigger jobs[i]} | 0 <= i < |jobs| :: Stepped(queues[i], Settled(jobs[i]), queues[i + 1], l)
    ensures Outstanding(queues[0]) > 0 ==> Running(queues[0]) != {}
    ensures |jobs| <= Outstanding(queues[0])
    ensures |jobs| == Outstanding(queues[0]) ==> forall j | j in queues[0].accepted :: j in queues[|jobs|].settled
  {
    OutstandingFalls(jobs, queues, l, |jobs|);
    NothingOutstanding(queues[0], l);
    NothingOutstanding(queues[|jobs|], l);
  }

  // ---------------------------------------------------------------- the two queues

  /** Each job adds itself to `running` when it is called. */
  class DiffQueue {
    var pending: seq<nat>
    var running: nat
    ghost var q: Queue

    ghost predicate Matches()
      reads this
    {
      Pumping(q, DiffLimits()) && pending == Waiting(q) && running == |Running(q)|
    }

    constructor ()
      ensures Matches() && q == EMPTY
    {
      pending, running, q := [], 0, EMPTY;
      assert Running(EMPTY) == {};
    }

    /** The next job in line, which was taken off it, is called and counts itself as running. */
    method Call(job: nat)
      requires Pumping(q, DiffLimits()) && q.started < |q.accepted| && job == q.accepted[q.started]
      requires running == |Running(q)| < DIFF_READERS && pending == Waiting(q)[1..]
      modifies this`running, this`q
      ensures Matches() && q == old(q).(started := old(q).started + 1)
    {
      running := running + 1;
      q := Starting(q, DiffLimits());
    }

    method StartNext(ghost next: Queue)
      requires Matches() && PumpsTo(q, next, DIFF_READERS)
      modifies this
      ensures Matches() && q == next
    {
      while running < DIFF_READERS && pending != []
        invariant Matches() && PumpsTo(q, next, DIFF_READERS)
        decreases |pending|
      {
        PumpsOn(q, next, DIFF_READERS);
        var job := pending[0];
        pending := pending[1..];
        Call(job);
      }
      PumpsNoMore(q, next, DIFF_READERS);
    }

    method Add(job: nat)
      requires Matches() && Valid(q, DiffLimits()) && job !in q.accepted
      modifies this
      ensures Matches() && Valid(q, DiffLimits()) && q == Enqueue(old(q), job, DiffLimits())
    {
      ghost var next := Admitting(q, job, DiffLimits());
      pending := pending + [job];
      q := Accepting(q, job);
      StartNext(next);
    }

    method JobDone(job: nat)
      requires Matches() && Valid(q, DiffLimits()) && job in Running(q)
      modifies this
      ensures Matches() && Valid(q, DiffLimits()) && q == Settle(old(q), job, DiffLimits())
    {
      ghost var next := Freeing(q, job, DiffLimits());
      running := running - 1;
      q := Finishing(q, job);
      StartNext(next);
    }
  }

  /** The reader is counted before the job is called, and a full line refuses. */
  class ImageQueue {
    var queue: seq<nat>
    var readers: nat
    ghost var q: Queue

    ghost predicate Matches()
      reads this
    {
      Pumping(q, ImageLimits()) && queue == Waiting(q) && readers == |Running(q)|
    }

    constructor ()
      ensures Matches() && q == EMPTY
    {
      queue, readers, q := [], 0, EMPTY;
      assert Running(EMPTY) == {};
    }

    method PumpReads(ghost next: Queue)
      requires Matches() && PumpsTo(q, next, IMAGE_READERS)
      modifies this
      ensures Matches() && q == next
    {
      while readers < IMAGE_READERS && queue != []
        invariant Matches() && PumpsTo(q, next, IMAGE_READERS)
        decreases |queue|
      {
        PumpsOn(q, next, IMAGE_READERS);
        readers := readers + 1;
        queue := queue[1..];
        q := Starting(q, ImageLimits());
      }
      PumpsNoMore(q, next, IMAGE_READERS);
    }

    method ImageRead(job: nat) returns (refused: bool)
      requires Matches() && Valid(q, ImageLimits()) && job !in q.accepted
      modifies this
      ensures Matches() && Valid(q, ImageLimits()) && q == Enqueue(old(q), job, ImageLimits())
      ensures refused <==> old(readers) == IMAGE_READERS && old(|queue|) == IMAGE_WAITING
    {
      if |queue| >= IMAGE_WAITING {
        q := Refusing(q, job, ImageLimits());
        return true;
      }
      ghost var next := Admitting(q, job, ImageLimits());
      queue := queue + [job];
      q := Accepting(q, job);
      PumpReads(next);
      return false;
    }

    method ReadDone(job: nat)
      requires Matches() && Valid(q, ImageLimits()) && job in Running(q)
      modifies this
      ensures Matches() && Valid(q, ImageLimits()) && q == Settle(old(q), job, ImageLimits())
    {
      ghost var next := Freeing(q, job, ImageLimits());
      readers := readers - 1;
      q := Finishing(q, job);
      PumpReads(next);
    }
  }

  function DiffLimits(): Limits {
    Limits(DIFF_READERS, None)
  }

  function ImageLimits(): Limits {
    Limits(IMAGE_READERS, Some(IMAGE_WAITING))
  }

  ghost function Accepting(q: Queue, job: nat): (r: Queue)
    requires q.started <= |q.accepted|
    ensures r == q.(accepted := q.accepted + [job])
    ensures Waiting(r) == Waiting(q) + [job] && Running(r) == Running(q)
  {
    var r := q.(accepted := q.accepted + [job]);
    assert r.accepted[..q.started] == q.accepted[..q.started];
    r
  }

  ghost function Refusing(q: Queue, job: nat, l: Limits): (r: Queue)
    requires Valid(q, l) && Usable(l) && job !in q.accepted && Refuses(q, l)
    ensures r == Enqueue(q, job, l) && Valid(r, l)
    ensures Waiting(r) == Waiting(q) && Running(r) == Running(q)
    ensures |Running(q)| == l.readers && |Waiting(q)| == l.waiting.value
  {
    EnqueueKeepsValid(q, job, l);
    q.(refused := q.refused + [job])
  }

  ghost predicate PumpsTo(q: Queue, next: Queue, readers: nat) {
    q.started <= |q.accepted| && Pump(q, readers) == next
  }

  lemma PumpsOn(q: Queue, next: Queue, readers: nat)
    requires PumpsTo(q, next, readers) && |Running(q)| < readers && q.started < |q.accepted|
    ensures PumpsTo(q.(started := q.started + 1), next, readers)
  {
  }

  lemma PumpsNoMore(q: Queue, next: Queue, readers: nat)
    requires PumpsTo(q, next, readers) && (|Running(q)| >= readers || Waiting(q) == [])
    ensures q == next
  {
  }

  /** Where a queue that does not refuse ends up. */
  ghost function Admitting(q: Queue, job: nat, l: Limits): (next: Queue)
    requires Valid(q, l) && Usable(l) && job !in q.accepted && !Refuses(q, l)
    ensures next == Enqueue(q, job, l) && PumpsTo(Accepting(q, job), next, l.readers)
    ensures Valid(next, l) && Pumping(Accepting(q, job), l)
  {
    EnqueueKeepsValid(q, job, l);
    Enqueue(q, job, l)
  }

  ghost function Finishing(q: Queue, job: nat): (r: Queue)
    requires q.started <= |q.accepted| && job in Running(q)
    ensures r == q.(settled := q.settled + {job})
    ensures Waiting(r) == Waiting(q) && Running(r) == Running(q) - {job} && |Running(r)| == |Running(q)| - 1
  {
    q.(settled := q.settled + {job})
  }

  /** Where a queue ends up when a job finishes. */
  ghost function Freeing(q: Queue, job: nat, l: Limits): (next: Queue)
    requires Valid(q, l) && job in Running(q)
    ensures next == Settle(q, job, l) && PumpsTo(Finishing(q, job), next, l.readers)
    ensures Valid(next, l) && Pumping(Finishing(q, job), l)
  {
    SettleKeepsValid(q, job, l);
    Settle(q, job, l)
  }

  ghost function Starting(q: Queue, l: Limits): (r: Queue)
    requires Pumping(q, l) && q.started < |q.accepted| && |Running(q)| < l.readers
    ensures r == q.(started := q.started + 1) && Pumping(r, l)
    ensures Waiting(r) == Waiting(q)[1..] && |Running(r)| == |Running(q)| + 1
  {
    StartOne(q, l);
    q.(started := q.started + 1)
  }
}
