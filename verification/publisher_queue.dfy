/** The local queue of `MessagingPublisher`, flushed by many threads at once. A flush swaps the list
    out under the lock, sends from it outside the lock, and merges what is left back under the lock. The
    merge and the length check first copy the list and then store the copy in the attribute. Appending
    takes no lock: it first reads the attribute and then appends to the list it found. */
module PublisherQueue {
  import opened Sequences
  import opened Wrappers

  /** A topic with its messages. */
  type Batch(==, !new)

  datatype Policy = Default | Queue | Drop

  datatype Config = Config(policy: Policy, maxQueueLength: int, maxRetry: int)

  /** Lists are objects: a thread may hold on to one that is no longer the local queue. */
  type Ref = nat

  datatype Thread =
    | Idle
    | Appending(target: Ref, batch: Batch)  // has read `self.local_queue`, is about to append
    | Sending(queue: Ref, retries: nat)     // in the loop of `_process_queue`
    | Merging(queue: Ref)                   // about to take the lock for the second time
    | Storing(queue: Ref, merged: bool)     // holds the lock; has copied, is about to store the copy
    | Measuring                             // holds the lock; is about to measure the local queue
    | Trimming(seen: nat, count: nat)       // holds the lock; has measured, is about to slice

  datatype State = State(
    lists: seq<seq<Batch>>,
    local: Ref,
    threads: seq<Thread>,
    appended: multiset<Batch>,   // every batch handed to `append` so far
    sent: multiset<Batch>,
    evicted: multiset<Batch>,    // cut off at the front by the length check
    abandoned: multiset<Batch>)  // given up by policy `drop`, or by running out of retries

  datatype Step =
    | DoRead(t: nat, batch: Batch)
    | DoAppend(t: nat)
    | DoSwap(t: nat)
    | DoSend(t: nat, delivered: bool)
    | DoFinish(t: nat)
    | DoMerge(t: nat)
    | DoStore(t: nat)
    | DoMeasure(t: nat)
    | DoTrim(t: nat)

  function Init(n: nat): State {
    State([[]], 0, seq(n, _ => Idle), multiset{}, multiset{}, multiset{}, multiset{})
  }

  predicate HoldsLock(th: Thread) {
    th.Storing? || th.Measuring? || th.Trimming?
  }

  predicate LockFree(s: State) {
    forall t :: 0 <= t < |s.threads| ==> !HoldsLock(s.threads[t])
  }

  predicate Flushing(th: Thread) {
    th.Sending? || th.Merging? || th.Storing?
  }

  predicate InFlight(th: Thread, r: Ref) {
    Flushing(th) && th.queue == r
  }

  /** The local queue has been copied, and the copy will replace it. */
  predicate Copied(s: State) {
    exists t :: 0 <= t < |s.threads| && s.threads[t].Storing?
  }

  /** The list is in use: it is in the hands of a thread that is flushing, or it is the local queue and has not
      been copied. */
  predicate Live(s: State, r: Ref) {
    (r == s.local && !Copied(s)) || exists t :: 0 <= t < |s.threads| && InFlight(s.threads[t], r)
  }

  predicate ThreadFits(s: State, th: Thread)
    requires s.local < |s.lists|
  {
    match th
    case Appending(r, _) => r < |s.lists|
    case Sending(r, _) => r < |s.lists| && r != s.local
    case Merging(r) => r < |s.lists| && r != s.local
    case Storing(r, _) => r < |s.lists| && r != s.local
    case Measuring => true
    case Trimming(seen, count) => count <= seen <= |s.lists[s.local]|
    case Idle => true
  }

  /** The threads do not flush the same list and do not hold the lock together. */
  predicate Disjoint(a: Thread, b: Thread) {
    !(Flushing(a) && Flushing(b) && a.queue == b.queue) && !(HoldsLock(a) && HoldsLock(b))
  }

  /** The references make sense, and no list has two owners. */
  predicate WellFormed(s: State) {
    && s.local < |s.lists|
    && (forall t :: 0 <= t < |s.threads| ==> ThreadFits(s, s.threads[t]))
    && (forall t, u :: 0 <= t < u < |s.threads| ==> Disjoint(s.threads[t], s.threads[u]))
  }

  // ---------------------------------------------------------------- the steps

  // Where the code copies from a list or drops it, the list is emptied here, so that a batch counts once.

  /** The second half of `self.local_queue.append(..)`: appends to the list object that was read. */
  function Append(s: State, t: nat): State
    requires WellFormed(s) && t < |s.threads| && s.threads[t].Appending?
  {
    var Appending(r, batch) := s.threads[t];
    s.(lists := s.lists[r := s.lists[r] + [batch]],
       threads := s.threads[t := Idle],
       appended := s.appended + multiset{batch})
  }

  /** The locked swap that starts a flush. An append between its two halves goes to a list that is then flushed,
      as if it came before. */
  function Swap(s: State, t: nat): State
    requires WellFormed(s) && t < |s.threads|
  {
    s.(lists := s.lists + [[]], local := |s.lists|, threads := s.threads[t := Sending(s.local, 0)])
  }

  /** The first batch of the thread's list was sent and is popped. */
  function Deliver(s: State, t: nat): State
    requires WellFormed(s) && t < |s.threads| && s.threads[t].Sending? && s.lists[s.threads[t].queue] != []
  {
    var q := s.threads[t].queue;
    s.(lists := s.lists[q := s.lists[q][1..]], sent := s.sent + multiset{s.lists[q][0]})
  }

  /** The loop gives up with a fresh empty list to merge, or (to merge nothing) with an exception. */
  function GiveUp(s: State, t: nat, raises: bool): State
    requires WellFormed(s) && t < |s.threads| && s.threads[t].Sending?
  {
    var q := s.threads[t].queue;
    var s' := s.(lists := s.lists[q := []] + [[]], abandoned := s.abandoned + multiset(s.lists[q]));
    s'.(threads := s.threads[t := if raises then Idle else Merging(|s.lists|)])
  }

  /** Sending the first batch of the thread's list failed. */
  function Fail(c: Config, s: State, t: nat): State
    requires WellFormed(s) && t < |s.threads| && s.threads[t].Sending?
  {
    var Sending(q, retries) := s.threads[t];
    match c.policy
    case Queue => s.(threads := s.threads[t := Merging(q)])
    case Drop => GiveUp(s, t, false)
    case Default =>
      if retries + 1 >= c.maxRetry then
        GiveUp(s, t, true)
      else
        s.(threads := s.threads[t := Sending(q, retries + 1)])
  }

  /** The first half of the merge, which takes the lock: a new list is made of both. */
  function Merge(s: State, t: nat): State
    requires WellFormed(s) && t < |s.threads| && s.threads[t].Merging?
  {
    var q := s.threads[t].queue;
    s.(lists := s.lists[q := []][s.local := []] + [s.lists[q] + s.lists[s.local]],
       threads := s.threads[t := Storing(|s.lists|, true)])
  }

  /** The second half of a merge or a slicing: the copy becomes the local queue. With policy `queue` a merge
      is followed, under the same lock, by the length check. */
  function Store(c: Config, s: State, t: nat): State
    requires WellFormed(s) && t < |s.threads| && s.threads[t].Storing?
  {
    var Storing(copy, merged) := s.threads[t];
    s.(local := copy, threads := s.threads[t := if merged && c.policy == Queue then Measuring else Idle])
  }

  function Measure(c: Config, s: State, t: nat): State
    requires WellFormed(s) && t < |s.threads| && s.threads[t].Measuring?
  {
    var length := |s.lists[s.local]|;
    s.(threads := s.threads[t := if length > c.maxQueueLength > 0 then Trimming(length, length - c.maxQueueLength)
                                 else Idle])
  }

  /** The slicing of a queue that was found too long. */
  function Trim(s: State, t: nat): State
    requires WellFormed(s) && t < |s.threads| && s.threads[t].Trimming?
  {
    var count := s.threads[t].count;
    var queue := s.lists[s.local];
    s.(lists := s.lists[s.local := []] + [queue[count..]],
       evicted := s.evicted + multiset(queue[..count]),
       threads := s.threads[t := Storing(|s.lists|, false)])
  }

  predicate Enabled(s: State, step: Step)
    requires WellFormed(s)
  {
    step.t < |s.threads| &&
    var th := s.threads[step.t];
    match step
    case DoRead(_, _) => th.Idle?
    case DoAppend(_) => th.Appending?
    case DoSwap(_) => th.Idle? && LockFree(s)
    case DoSend(_, _) => th.Sending? && s.lists[th.queue] != []
    case DoFinish(_) => th.Sending? && s.lists[th.queue] == []
    case DoMerge(_) => th.Merging? && LockFree(s)
    case DoStore(_) => th.Storing?
    case DoMeasure(_) => th.Measuring?
    case DoTrim(_) => th.Trimming?
  }

  /** One atomic step of one thread. */
  function Next(c: Config, s: State, step: Step): State
    requires WellFormed(s) && Enabled(s, step)
  {
    match step
    case DoRead(t, batch) => s.(threads := s.threads[t := Appending(s.local, batch)])
    case DoAppend(t) => Append(s, t)
    case DoSwap(t) => Swap(s, t)
    case DoSend(t, delivered) => if delivered then Deliver(s, t) else Fail(c, s, t)
    case DoFinish(t) => GiveUp(s, t, false)
    case DoMerge(t) => Merge(s, t)
    case DoStore(t) => Store(c, s, t)
    case DoMeasure(t) => Measure(c, s, t)
    case DoTrim(t) => Trim(s, t)
  }

  /** How often a batch occurs in the lists. */
  ghost function Copies(lists: seq<seq<Batch>>, b: Batch): nat {
    if lists == [] then 0 else multiset(lists[0])[b] + Copies(lists[1..], b)
  }

  lemma {:induction false} CopiesUpdate(lists: seq<seq<Batch>>, r: Ref, l: seq<Batch>, b: Batch)
    requires r < |lists|
    ensures Copies(lists[r := l], b) == Copies(lists, b) - multiset(lists[r])[b] + multiset(l)[b]
  {
    if r == 0 {
      assert lists[r := l][1..] == lists[1..];
    } else {
      CopiesUpdate(lists[1..], r - 1, l, b);
      assert lists[r := l][1..] == lists[1..][r - 1 := l];
    }
  }

  lemma {:induction false} CopiesAdd(lists: seq<seq<Batch>>, l: seq<Batch>, b: Batch)
    ensures Copies(lists + [l], b) == Copies(lists, b) + multiset(l)[b]
  {
    if lists != [] {
      CopiesAdd(lists[1..], l, b);
      assert (lists + [l])[1..] == lists[1..] + [l];
    }
  }

  /** Every batch is in a list, sent, evicted or abandoned as often as it was appended. */
  ghost predicate Balanced(s: State, b: Batch) {
    s.appended[b] == s.sent[b] + s.evicted[b] + s.abandoned[b] + Copies(s.lists, b)
  }

  lemma AppendKeepsBalance(s: State, t: nat, b: Batch)
    requires WellFormed(s) && t < |s.threads| && s.threads[t].Appending? && Balanced(s, b)
    ensures Balanced(Append(s, t), b)
  {
    var Appending(r, batch) := s.threads[t];
    CopiesUpdate(s.lists, r, s.lists[r] + [batch], b);
  }

  lemma DeliverKeepsBalance(s: State, t: nat, b: Batch)
    requires WellFormed(s) && t < |s.threads| && s.threads[t].Sending? && s.lists[s.threads[t].queue] != []
    requires Balanced(s, b)
    ensures Balanced(Deliver(s, t), b)
  {
    var q := s.threads[t].queue;
    assert s.lists[q] == [s.lists[q][0]] + s.lists[q][1..];
    CopiesUpdate(s.lists, q, s.lists[q][1..], b);
  }

  lemma GiveUpKeepsBalance(s: State, t: nat, raises: bool, b: Batch)
    requires WellFormed(s) && t < |s.threads| && s.threads[t].Sending? && Balanced(s, b)
    ensures Balanced(GiveUp(s, t, raises), b)
  {
    var q := s.threads[t].queue;
    CopiesUpdate(s.lists, q, [], b);
    CopiesAdd(s.lists[q := []], [], b);
  }

  lemma MergeKeepsBalance(s: State, t: nat, b: Batch)
    requires WellFormed(s) && t < |s.threads| && s.threads[t].Merging? && Balanced(s, b)
    ensures Balanced(Merge(s, t), b)
  {
    var q := s.threads[t].queue;
    var emptied := s.lists[q := []];
    CopiesUpdate(s.lists, q, [], b);
    CopiesUpdate(emptied, s.local, [], b);
    CopiesAdd(emptied[s.local := []], s.lists[q] + s.lists[s.local], b);
  }

  lemma TrimKeepsBalance(s: State, t: nat, b: Batch)
    requires WellFormed(s) && t < |s.threads| && s.threads[t].Trimming? && Balanced(s, b)
    ensures Balanced(Trim(s, t), b)
  {
    var count, queue := s.threads[t].count, s.lists[s.local];
    assert queue == queue[..count] + queue[count..];
    CopiesUpdate(s.lists, s.local, [], b);
    CopiesAdd(s.lists[s.local := []], queue[count..], b);
  }

  lemma StepKeepsBalance(c: Config, s: State, step: Step, b: Batch)
    requires WellFormed(s) && Enabled(s, step) && Balanced(s, b)
    ensures Balanced(Next(c, s, step), b)
  {
    match step {
      case DoRead(_, _) =>
      case DoAppend(t) => AppendKeepsBalance(s, t, b);
      case DoSwap(t) => CopiesAdd(s.lists, [], b);
      case DoSend(t, delivered) =>
        if delivered {
          DeliverKeepsBalance(s, t, b);
        } else {
          GiveUpKeepsBalance(s, t, c.policy == Default, b);
        }
      case DoFinish(t) => GiveUpKeepsBalance(s, t, false, b);
      case DoMerge(t) => MergeKeepsBalance(s, t, b);
      case DoStore(_) =>
      case DoMeasure(_) =>
      case DoTrim(t) => TrimKeepsBalance(s, t, b);
    }
  }

  /** A step replaces one thread's state; the others only have to keep fitting. */
  lemma ReplacingThreadKeepsForm(s: State, s': State, t: nat, th: Thread)
    requires WellFormed(s) && t < |s.threads|
    requires s'.threads == s.threads[t := th] && s'.local < |s'.lists|
    requires ThreadFits(s', th)
    requires forall u :: 0 <= u < |s.threads| && u != t ==>
               ThreadFits(s', s.threads[u]) && Disjoint(th, s.threads[u])
    ensures WellFormed(s')
  {
  }

  lemma AppendKeepsForm(s: State, t: nat)
    requires WellFormed(s) && t < |s.threads| && s.threads[t].Appending?
    ensures WellFormed(Append(s, t))
  {
    ReplacingThreadKeepsForm(s, Append(s, t), t, Idle);
  }

  lemma SwapKeepsForm(s: State, t: nat)
    requires WellFormed(s) && t < |s.threads| && s.threads[t].Idle? && LockFree(s)
    ensures WellFormed(Swap(s, t))
  {
    ReplacingThreadKeepsForm(s, Swap(s, t), t, Sending(s.local, 0));
  }

  lemma DeliverKeepsForm(s: State, t: nat)
    requires WellFormed(s) && t < |s.threads| && s.threads[t].Sending? && s.lists[s.threads[t].queue] != []
    ensures WellFormed(Deliver(s, t))
  {
    assert s.threads[t := s.threads[t]] == s.threads;
    ReplacingThreadKeepsForm(s, Deliver(s, t), t, s.threads[t]);
  }

  lemma GiveUpKeepsForm(s: State, t: nat, raises: bool)
    requires WellFormed(s) && t < |s.threads| && s.threads[t].Sending?
    ensures WellFormed(GiveUp(s, t, raises))
  {
    var s' := GiveUp(s, t, raises);
    ReplacingThreadKeepsForm(s, s', t, s'.threads[t]);
  }

  lemma FailKeepsForm(c: Config, s: State, t: nat)
    requires WellFormed(s) && t < |s.threads| && s.threads[t].Sending?
    ensures WellFormed(Fail(c, s, t))
  {
    GiveUpKeepsForm(s, t, c.policy == Default);
    var s' := Fail(c, s, t);
    if c.policy == Queue || (c.policy == Default && s'.threads[t].Sending?) {
      ReplacingThreadKeepsForm(s, s', t, s'.threads[t]);
    }
  }

  lemma MergeKeepsForm(s: State, t: nat)
    requires WellFormed(s) && t < |s.threads| && s.threads[t].Merging? && LockFree(s)
    ensures WellFormed(Merge(s, t))
  {
    ReplacingThreadKeepsForm(s, Merge(s, t), t, Storing(|s.lists|, true));
  }

  lemma StoreKeepsForm(c: Config, s: State, t: nat)
    requires WellFormed(s) && t < |s.threads| && s.threads[t].Storing?
    ensures WellFormed(Store(c, s, t))
  {
    var s' := Store(c, s, t);
    ReplacingThreadKeepsForm(s, s', t, s'.threads[t]);
  }

  lemma MeasureKeepsForm(c: Config, s: State, t: nat)
    requires WellFormed(s) && t < |s.threads| && s.threads[t].Measuring?
    ensures WellFormed(Measure(c, s, t))
  {
    var s' := Measure(c, s, t);
    ReplacingThreadKeepsForm(s, s', t, s'.threads[t]);
  }

  lemma TrimKeepsForm(s: State, t: nat)
    requires WellFormed(s) && t < |s.threads| && s.threads[t].Trimming?
    ensures WellFormed(Trim(s, t))
  {
    ReplacingThreadKeepsForm(s, Trim(s, t), t, Storing(|s.lists|, false));
  }

  /** The state is sound and every batch is accounted for. */
  ghost predicate Accounted(s: State) {
    WellFormed(s) && forall b :: Balanced(s, b)
  }

  lemma StepKeepsForm(c: Config, s: State, step: Step)
    requires WellFormed(s) && Enabled(s, step)
    ensures WellFormed(Next(c, s, step))
  {
    match step {
      case DoRead(t, batch) => ReplacingThreadKeepsForm(s, Next(c, s, step), t, Appending(s.local, batch));
      case DoAppend(t) => AppendKeepsForm(s, t);
      case DoSwap(t) => SwapKeepsForm(s, t);
      case DoSend(t, delivered) => if delivered { DeliverKeepsForm(s, t); } else { FailKeepsForm(c, s, t); }
      case DoFinish(t) => GiveUpKeepsForm(s, t, false);
      case DoMerge(t) => MergeKeepsForm(s, t);
      case DoStore(t) => StoreKeepsForm(c, s, t);
      case DoMeasure(t) => MeasureKeepsForm(c, s, t);
      case DoTrim(t) => TrimKeepsForm(s, t);
    }
  }

  lemma StepKeepsAccounts(c: Config, s: State, step: Step)
    requires Accounted(s) && Enabled(s, step)
    ensures Accounted(Next(c, s, step))
  {
    StepKeepsForm(c, s, step);
    forall b ensures Balanced(Next(c, s, step), b) {
      StepKeepsBalance(c, s, step, b);
    }
  }

  predicate MeasuredThread(c: Config, th: Thread) {
    match th
    case Measuring => c.policy == Queue
    case Trimming(seen, count) => c.policy == Queue && c.maxQueueLength > 0 && count == seen - c.maxQueueLength
    case _ => true
  }

  /** Threads that are about to slice have measured what they slice by, and only policy `queue` measures. */
  predicate Measured(c: Config, s: State) {
    forall t :: 0 <= t < |s.threads| ==> MeasuredThread(c, s.threads[t])
  }

  lemma OthersKeepTheirThreads(c: Config, s: State, step: Step, u: nat)
    requires WellFormed(s) && Enabled(s, step)
    ensures |Next(c, s, step).threads| == |s.threads|
    ensures u < |s.threads| && u != step.t ==> Next(c, s, step).threads[u] == s.threads[u]
  {
  }

  lemma StepMeasures(c: Config, s: State, step: Step)
    requires WellFormed(s) && Enabled(s, step) && MeasuredThread(c, s.threads[step.t])
    ensures step.t < |Next(c, s, step).threads| && MeasuredThread(c, Next(c, s, step).threads[step.t])
  {
  }

  lemma StepKeepsMeasured(c: Config, s: State, step: Step)
    requires WellFormed(s) && Enabled(s, step) && Measured(c, s)
    ensures Measured(c, Next(c, s, step))
  {
    StepMeasures(c, s, step);
    forall u: nat | u < |Next(c, s, step).threads|
      ensures MeasuredThread(c, Next(c, s, step).threads[u])
    {
      OthersKeepTheirThreads(c, s, step, u);
    }
  }

  /** Only policy `queue` evicts, and it abandons nothing. */
  predicate LosesByPolicy(c: Config, s: State) {
    && Measured(c, s)
    && (c.policy == Queue ==> s.abandoned == multiset{})
    && (c.policy != Queue || c.maxQueueLength <= 0 ==> s.evicted == multiset{})
  }

  lemma StepLosesByPolicy(c: Config, s: State, step: Step)
    requires WellFormed(s) && Enabled(s, step) && LosesByPolicy(c, s)
    ensures LosesByPolicy(c, Next(c, s, step))
  {
    StepKeepsMeasured(c, s, step);
  }

  // ---------------------------------------------------------------- lists out of use

  /** A merge or a slicing copies the local queue, and the store that follows ends that. */
  lemma CopiedAfter(c: Config, s: State, step: Step)
    requires WellFormed(s) && Enabled(s, step)
    ensures Copied(Next(c, s, step)) <==> step.DoMerge? || step.DoTrim? || (Copied(s) && !step.DoStore?)
  {
    var s' := Next(c, s, step);
    if step.DoMerge? || step.DoTrim? {
      assert s'.threads[step.t].Storing?;
    } else {
      forall u: nat | u < |s.threads| && u != step.t
        ensures s'.threads[u] == s.threads[u]
        ensures step.DoStore? ==> !s.threads[u].Storing?
      {
        OthersKeepTheirThreads(c, s, step, u);
        assert if u < step.t then Disjoint(s.threads[u], s.threads[step.t])
               else Disjoint(s.threads[step.t], s.threads[u]);
      }
      if Copied(s) && !step.DoStore? {
        var u :| 0 <= u < |s.threads| && s.threads[u].Storing?;
        assert s'.threads[u].Storing?;
      }
    }
  }

  /** While the local queue is copied, no thread swaps, merges or slices: the lock is held. */
  lemma CopiedHoldsLock(s: State, step: Step)
    requires WellFormed(s) && Enabled(s, step) && Copied(s)
    ensures !step.DoSwap? && !step.DoMerge? && !step.DoTrim? && !step.DoMeasure?
  {
    var u :| 0 <= u < |s.threads| && s.threads[u].Storing?;
    assert HoldsLock(s.threads[u]);
    if u != step.t {
      assert if u < step.t then Disjoint(s.threads[u], s.threads[step.t])
             else Disjoint(s.threads[step.t], s.threads[u]);
    }
  }

  lemma DeadKeepsBatches(c: Config, s: State, step: Step, r: Ref)
    requires WellFormed(s) && Enabled(s, step) && r < |s.lists| && !Live(s, r)
    ensures var s' := Next(c, s, step);
            && r < |s'.lists|
            && (s'.lists[r] == s.lists[r]
                || (step.DoAppend? && s.threads[step.t].target == r
                    && s'.lists[r] == s.lists[r] + [s.threads[step.t].batch]))
  {
    assert !InFlight(s.threads[step.t], r);
    if r == s.local {
      CopiedHoldsLock(s, step);
    }
  }

  lemma DeadNotTaken(c: Config, s: State, step: Step, r: Ref)
    requires WellFormed(s) && Enabled(s, step) && r < |s.lists| && !Live(s, r)
    ensures var s' := Next(c, s, step);
            (r != s'.local || Copied(s')) && !InFlight(s'.threads[step.t], r)
  {
    assert !InFlight(s.threads[step.t], r);
    CopiedAfter(c, s, step);
    if r == s.local {
      CopiedHoldsLock(s, step);
    }
  }

  /** A list that is out of use stays so, and what is in it stays there: it only grows by appends to it. */
  lemma DeadStaysDead(c: Config, s: State, step: Step, r: Ref)
    requires WellFormed(s) && Enabled(s, step) && r < |s.lists| && !Live(s, r)
    ensures var s' := Next(c, s, step);
            && r < |s'.lists| && !Live(s', r)
            && (s'.lists[r] == s.lists[r]
                || (step.DoAppend? && s.threads[step.t].target == r
                    && s'.lists[r] == s.lists[r] + [s.threads[step.t].batch]))
  {
    DeadKeepsBatches(c, s, step, r);
    DeadNotTaken(c, s, step, r);
    forall u: nat | u < |s.threads|
      ensures !InFlight(Next(c, s, step).threads[u], r)
    {
      OthersKeepTheirThreads(c, s, step, u);
      assert !InFlight(s.threads[u], r);
    }
    OthersKeepTheirThreads(c, s, step, 0);
  }

  /** A list that goes out of use, or is new and not in use, is empty. */
  lemma NewlyDeadIsEmpty(c: Config, s: State, step: Step, r: Ref)
    requires WellFormed(s) && Enabled(s, step)
    requires var s' := Next(c, s, step);
             r < |s'.lists| && !Live(s', r) && (r < |s.lists| ==> Live(s, r))
    ensures Next(c, s, step).lists[r] == []
  {
    var s' := Next(c, s, step);
    CopiedAfter(c, s, step);
    if r < |s.lists| && r != s.local {
      var u :| 0 <= u < |s.threads| && InFlight(s.threads[u], r);
      assert !InFlight(s'.threads[u], r);
      OthersKeepTheirThreads(c, s, step, u);
      DroppedByOwner(c, s, step, r);
    } else {
      LocalOutOfUse(c, s, step, r);
    }
  }

  lemma LocalOutOfUse(c: Config, s: State, step: Step, r: Ref)
    requires WellFormed(s) && Enabled(s, step)
    requires var s' := Next(c, s, step);
             r < |s'.lists| && !Live(s', r) && (r < |s.lists| ==> r == s.local && Live(s, r))
    ensures Next(c, s, step).lists[r] == []
  {
    var s' := Next(c, s, step);
    CopiedAfter(c, s, step);
    assert !InFlight(s'.threads[step.t], r);
    if r == s.local {
      LocalNotInFlight(s);
    }
  }

  lemma LocalNotInFlight(s: State)
    requires WellFormed(s)
    ensures Live(s, s.local) <==> !Copied(s)
  {
    forall u | 0 <= u < |s.threads|
      ensures !InFlight(s.threads[u], s.local)
    {
      assert ThreadFits(s, s.threads[u]);
    }
  }

  /** A thread that is done with the list it flushed leaves it empty. */
  lemma DroppedByOwner(c: Config, s: State, step: Step, r: Ref)
    requires WellFormed(s) && Enabled(s, step) && InFlight(s.threads[step.t], r)
    requires !InFlight(Next(c, s, step).threads[step.t], r) && !step.DoStore?
    ensures Next(c, s, step).lists[r] == []
  {
  }

  /** What is in a list if it is out of use. */
  function DeadList(s: State, r: Ref): seq<Batch> {
    if r < |s.lists| && !Live(s, r) then s.lists[r] else []
  }

  function DeadLists(s: State): (r: seq<seq<Batch>>)
    ensures |r| == |s.lists| && forall i :: 0 <= i < |r| ==> r[i] == DeadList(s, i)
  {
    seq(|s.lists|, i requires 0 <= i < |s.lists| => DeadList(s, i))
  }

  /** How often a batch is in lists out of use: no thread will ever send it. */
  ghost function Stranded(s: State, b: Batch): nat {
    Copies(DeadLists(s), b)
  }

  function Empties(k: nat): (r: seq<seq<Batch>>)
    ensures |r| == k && forall i :: 0 <= i < k ==> r[i] == []
  {
    seq(k, _ => [])
  }

  lemma {:induction false} CopiesOfEmpties(lists: seq<seq<Batch>>, k: nat, b: Batch)
    ensures Copies(lists + Empties(k), b) == Copies(lists, b)
  {
    if k == 0 {
      assert lists + Empties(0) == lists;
    } else {
      CopiesOfEmpties(lists, k - 1, b);
      CopiesAdd(lists + Empties(k - 1), [], b);
      assert lists + Empties(k) == (lists + Empties(k - 1)) + [[]];
    }
  }

  /** The step appends to this list, which is out of use. */
  predicate Strands(s: State, step: Step, r: Ref)
    requires WellFormed(s) && Enabled(s, step)
  {
    step.DoAppend? && s.threads[step.t].target == r && !Live(s, r)
  }

  lemma DeadListAfter(c: Config, s: State, step: Step, r: Ref)
    requires WellFormed(s) && Enabled(s, step)
    ensures DeadList(Next(c, s, step), r)
         == DeadList(s, r) + (if Strands(s, step, r) then [s.threads[step.t].batch] else [])
  {
    var s' := Next(c, s, step);
    if r < |s.lists| && !Live(s, r) {
      DeadStaysDead(c, s, step, r);
      if step.DoAppend? && s.threads[step.t].target == r {
        assert s'.lists[r] == s.lists[r] + [s.threads[step.t].batch];
      }
    } else if r < |s'.lists| && !Live(s', r) {
      NewlyDeadIsEmpty(c, s, step, r);
    }
  }

  lemma DeadListsKept(c: Config, s: State, step: Step)
    requires WellFormed(s) && Enabled(s, step)
    requires step.DoAppend? ==> Live(s, s.threads[step.t].target)
    ensures |s.lists| <= |Next(c, s, step).lists|
    ensures DeadLists(Next(c, s, step)) == DeadLists(s) + Empties(|Next(c, s, step).lists| - |s.lists|)
  {
    forall r: Ref
      ensures DeadList(Next(c, s, step), r) == DeadList(s, r)
    {
      DeadListAfter(c, s, step, r);
    }
  }

  lemma DeadListsAppended(c: Config, s: State, step: Step)
    requires WellFormed(s) && Enabled(s, step) && step.DoAppend? && !Live(s, s.threads[step.t].target)
    ensures var Appending(r, batch) := s.threads[step.t];
            r < |s.lists| && DeadLists(Next(c, s, step)) == DeadLists(s)[r := DeadLists(s)[r] + [batch]]
  {
    assert ThreadFits(s, s.threads[step.t]);
    forall r: Ref
      ensures DeadList(Next(c, s, step), r)
           == if r == s.threads[step.t].target then DeadList(s, r) + [s.threads[step.t].batch] else DeadList(s, r)
    {
      DeadListAfter(c, s, step, r);
    }
  }

  /** A step strands a batch exactly if it appends it to a list out of use. */
  lemma StepStrands(c: Config, s: State, step: Step, b: Batch)
    requires WellFormed(s) && Enabled(s, step)
    ensures Stranded(Next(c, s, step), b) == Stranded(s, b)
            + (if step.DoAppend? && !Live(s, s.threads[step.t].target) && s.threads[step.t].batch == b then 1 else 0)
  {
    if step.DoAppend? && !Live(s, s.threads[step.t].target) {
      DeadListsAppended(c, s, step);
      var Appending(r, batch) := s.threads[step.t];
      CopiesUpdate(DeadLists(s), r, DeadLists(s)[r] + [batch], b);
    } else {
      DeadListsKept(c, s, step);
      CopiesOfEmpties(DeadLists(s), |Next(c, s, step).lists| - |s.lists|, b);
    }
  }

  // ---------------------------------------------------------------- schedules

  /** The state after a run, or None when some step of it could not be taken. */
  function Run(c: Config, s: State, steps: seq<Step>): Option<State> {
    if steps == [] then Some(s) else
    var n := |steps| - 1;
    var before := Run(c, s, steps[..n]);
    if before.Some? && WellFormed(before.value) && Enabled(before.value, steps[n])
    then Some(Next(c, before.value, steps[n])) else None
  }

  /** From any sound state, every run keeps every batch accounted for. */
  lemma {:induction false} RunKeepsAccounts(c: Config, s: State, steps: seq<Step>)
    requires Accounted(s) && Run(c, s, steps).Some?
    ensures Accounted(Run(c, s, steps).value)
  {
    if steps != [] {
      var n := |steps| - 1;
      RunKeepsAccounts(c, s, steps[..n]);
      StepKeepsAccounts(c, Run(c, s, steps[..n]).value, steps[n]);
    }
  }

  // Within one flush the batches leave in their order, whatever other threads do.

  ghost predicate Sends(s: State, t: nat, q: Ref) {
    t < |s.threads| && s.threads[t].Sending? && s.threads[t].queue == q && q < |s.lists|
  }

  /** The thread is in its loop over the list all the time. */
  ghost predicate KeepsSending(c: Config, s: State, steps: seq<Step>, t: nat, q: Ref) {
    && Run(c, s, steps).Some? && Sends(Run(c, s, steps).value, t, q)
    && (steps != [] ==> KeepsSending(c, s, steps[..|steps| - 1], t, q))
  }

  /** How many batches the thread has sent. */
  function Delivered(steps: seq<Step>, t: nat): nat {
    if steps == [] then 0 else
    Delivered(steps[..|steps| - 1], t) + if steps[|steps| - 1] == DoSend(t, true) then 1 else 0
  }

  lemma StepSendsInOrder(c: Config, s: State, step: Step, t: nat, q: Ref) returns (came: seq<Batch>)
    requires WellFormed(s) && Enabled(s, step) && Sends(s, t, q) && Sends(Next(c, s, step), t, q)
    ensures var s' := Next(c, s, step);
            if step == DoSend(t, true)
            then came == [] && s.lists[q] == [s.lists[q][0]] + s'.lists[q]
                 && s'.sent == s.sent + multiset{s.lists[q][0]}
            else s'.lists[q] == s.lists[q] + came && s.sent <= s'.sent
  {
    came := if step.DoAppend? && s.threads[step.t].target == q then [s.threads[step.t].batch] else [];
    assert step.t != t ==> Disjoint(s.threads[step.t], s.threads[t]);
    assert s.lists[q] + [] == s.lists[q];
  }

  lemma SentOne(all: seq<Batch>, k: nat, rest: seq<Batch>)
    requires k < |all| && all[k..] == [all[k]] + rest
    ensures rest == all[k + 1..] && multiset(all[..k + 1]) == multiset(all[..k]) + multiset{all[k]}
  {
    assert all[k..][1..] == rest;
    assert all[..k + 1] == all[..k] + [all[k]];
  }

  lemma GrownBehind(front: seq<Batch>, came: seq<Batch>, more: seq<Batch>, k: nat)
    requires k <= |front + came|
    ensures (front + (came + more))[k..] == (front + came)[k..] + more
    ensures (front + (came + more))[..k] == (front + came)[..k]
  {
    assert front + (came + more) == (front + came) + more;
  }

  /** While a thread sends from its list, in any interleaving, what it has sent is the beginning of what was in the
      list and of what came, in this order, and the list has the rest. */
  lemma {:induction false} SentInOrder(c: Config, s: State, steps: seq<Step>, t: nat, q: Ref)
    returns (came: seq<Batch>)
    requires WellFormed(s) && q < |s.lists| && KeepsSending(c, s, steps, t, q)
    ensures var s', k, all := Run(c, s, steps).value, Delivered(steps, t), s.lists[q] + came;
            && WellFormed(s') && k <= |all| && s'.lists[q] == all[k..] && s.sent + multiset(all[..k]) <= s'.sent
  {
    came := [];
    if steps == [] {
      assert s.lists[q] + [] == s.lists[q];
    } else {
      var n := |steps| - 1;
      came := SentInOrder(c, s, steps[..n], t, q);
      var s1, step, k, all := Run(c, s, steps[..n]).value, steps[n], Delivered(steps[..n], t), s.lists[q] + came;
      StepKeepsForm(c, s1, step);
      var more := StepSendsInOrder(c, s1, step, t, q);
      if step == DoSend(t, true) {
        SentOne(all, k, Next(c, s1, step).lists[q]);
      } else {
        GrownBehind(s.lists[q], came, more, k);
        came := came + more;
      }
    }
  }

  /** How many attempts of the thread to send have failed. */
  function Failed(steps: seq<Step>, t: nat): nat {
    if steps == [] then 0 else
    Failed(steps[..|steps| - 1], t) + if steps[|steps| - 1] == DoSend(t, false) then 1 else 0
  }

  /** What a failed attempt leads to: with the default policy the loop goes on as long as it has had fewer failures
      than it may, and then raises; else it ends, and merges all that is left or nothing. */
  lemma FailureExactly(c: Config, s: State, t: nat, q: Ref)
    requires WellFormed(s) && Sends(s, t, q) && Enabled(s, DoSend(t, false))
    ensures var s', goesOn := Next(c, s, DoSend(t, false)), s.threads[t].retries + 1 < c.maxRetry;
            && (c.policy == Default && goesOn ==>
                  s'.threads[t] == Sending(q, s.threads[t].retries + 1) && s'.lists == s.lists)
            && (c.policy == Queue ==> s'.threads[t] == Merging(q) && s'.lists == s.lists)
            && (c.policy == Default && !goesOn ==>
                  s'.threads[t] == Idle && s'.abandoned == s.abandoned + multiset(s.lists[q]))
            && (c.policy == Drop ==>
                  && s'.threads[t].Merging? && s'.lists[s'.threads[t].queue] == []
                  && s'.abandoned == s.abandoned + multiset(s.lists[q]))
  {
  }

  lemma StepCountsFailures(c: Config, s: State, step: Step, t: nat, q: Ref)
    requires WellFormed(s) && Enabled(s, step) && Sends(s, t, q) && Sends(Next(c, s, step), t, q)
    ensures var before, after := s.threads[t].retries, Next(c, s, step).threads[t].retries;
            if step == DoSend(t, false) then after == before + 1 && c.policy == Default && after < c.maxRetry
            else after == before
  {
    if step == DoSend(t, false) {
      FailureExactly(c, s, t, q);
    }
  }

  /** So, in any interleaving, a flush goes on after a failure only under the default policy, and only until it has
      failed as often as it may. */
  lemma {:induction false} FailuresBounded(c: Config, s: State, steps: seq<Step>, t: nat, q: Ref)
    requires WellFormed(s) && q < |s.lists| && KeepsSending(c, s, steps, t, q) && Sends(s, t, q)
    ensures WellFormed(Run(c, s, steps).value)
    ensures Run(c, s, steps).value.threads[t].retries == s.threads[t].retries + Failed(steps, t)
    ensures Failed(steps, t) > 0 ==> c.policy == Default && s.threads[t].retries + Failed(steps, t) < c.maxRetry
  {
    if steps != [] {
      var n := |steps| - 1;
      FailuresBounded(c, s, steps[..n], t, q);
      StepKeepsForm(c, Run(c, s, steps[..n]).value, steps[n]);
      StepCountsFailures(c, Run(c, s, steps[..n]).value, steps[n], t, q);
    }
  }

  /** And batches in lists are lost only by eviction under policy `queue`, only by giving up under the others. */
  lemma {:induction false} RunLosesByPolicy(c: Config, s: State, steps: seq<Step>)
    requires LosesByPolicy(c, s) && Run(c, s, steps).Some?
    ensures LosesByPolicy(c, Run(c, s, steps).value)
  {
    if steps != [] {
      var n := |steps| - 1;
      RunLosesByPolicy(c, s, steps[..n]);
      StepLosesByPolicy(c, Run(c, s, steps[..n]).value, steps[n]);
    }
  }

  /** What has become of a list since it was read as the local queue: it still is and has not been copied, a
      thread has swapped it out and is flushing it (having failed so many times), or it has gone out of use. */
  datatype Fate = Current | TakenBy(t: nat, retries: nat) | Gone

  /** Merges and trims copy the local queue, swaps take it, and the thread that took it is done with it
      when it finishes, gives up or merges. */
  function FateAfter(c: Config, f: Fate, step: Step): Fate {
    match f
    case Current =>
      (match step
       case DoSwap(u) => TakenBy(u, 0)
       case DoMerge(_) => Gone
       case DoTrim(_) => Gone
       case _ => Current)
    case TakenBy(u, retries) =>
      if step.t != u then f else
      (match step
       case DoFinish(_) => Gone
       case DoMerge(_) => Gone
       case DoSend(_, delivered) =>
         if delivered || c.policy == Queue then f
         else if c.policy == Drop || retries + 1 >= c.maxRetry then Gone
         else TakenBy(u, retries + 1)
       case _ => f)
    case Gone => Gone
  }

  /** After these steps the local queue has been copied and the copy has not been stored. */
  predicate CopyPending(steps: seq<Step>) {
    steps != [] &&
    var n := |steps| - 1;
    match steps[n]
    case DoMerge(_) => true
    case DoTrim(_) => true
    case DoStore(_) => false
    case _ => CopyPending(steps[..n])
  }

  /** The fate of the list that is read after some steps, over the steps since. */
  function FateOver(c: Config, pending: bool, between: seq<Step>): Fate {
    if between == [] then (if pending then Gone else Current)
    else FateAfter(c, FateOver(c, pending, between[..|between| - 1]), between[|between| - 1])
  }

  function FateOfRead(c: Config, steps: seq<Step>, read: nat): Fate
    requires read < |steps|
  {
    FateOver(c, CopyPending(steps[..read]), steps[read + 1..])
  }

  /** Where the thread last read the attribute. */
  function LastRead(steps: seq<Step>, t: nat): (r: Option<nat>)
    ensures r.Some? ==> r.value < |steps| && steps[r.value].DoRead? && steps[r.value].t == t
  {
    if steps == [] then None else
    var n := |steps| - 1;
    if steps[n].DoRead? && steps[n].t == t then Some(n) else LastRead(steps[..n], t)
  }

  lemma Snoc(steps: seq<Step>, step: Step, r: nat)
    requires r <= |steps|
    ensures (steps + [step])[..|steps|] == steps && (steps + [step])[r..] == steps[r..] + [step]
  {
  }

  lemma FateOfReadSnoc(c: Config, steps: seq<Step>, step: Step, read: nat)
    requires read < |steps|
    ensures FateOfRead(c, steps + [step], read) == FateAfter(c, FateOfRead(c, steps, read), step)
  {
    Snoc(steps, step, read + 1);
    assert (steps + [step])[..read] == steps[..read];
    var between := steps[read + 1..];
    assert (between + [step])[..|between|] == between;
  }

  lemma FateOfNewRead(c: Config, steps: seq<Step>, step: Step)
    ensures FateOfRead(c, steps + [step], |steps|) == if CopyPending(steps) then Gone else Current
  {
    Snoc(steps, step, 0);
    assert (steps + [step])[|steps| + 1..] == [];
  }

  lemma CopyPendingSnoc(steps: seq<Step>, step: Step)
    ensures CopyPending(steps + [step]) <==>
              step.DoMerge? || step.DoTrim? || (CopyPending(steps) && !step.DoStore?)
  {
    Snoc(steps, step, 0);
  }

  lemma LastReadSnoc(steps: seq<Step>, step: Step, t: nat)
    ensures LastRead(steps + [step], t) == if step.DoRead? && step.t == t then Some(|steps|) else LastRead(steps, t)
  {
    Snoc(steps, step, 0);
  }

  /** The batch that a step, after the others, appends too late: the list that its thread read had been copied
      already or has gone out of use in between. Only the schedule is looked at. */
  function AppendedTooLate(c: Config, before: seq<Step>, step: Step): Option<Batch> {
    if !step.DoAppend? then None else
    var r := LastRead(before, step.t);
    if r.Some? && FateOfRead(c, before, r.value) == Gone then Some(before[r.value].batch) else None
  }

  /** All batches that a schedule appends too late. */
  function TooLate(c: Config, steps: seq<Step>): multiset<Batch> {
    if steps == [] then multiset{} else
    var n := |steps| - 1;
    var late := AppendedTooLate(c, steps[..n], steps[n]);
    TooLate(c, steps[..n]) + (if late.Some? then multiset{late.value} else multiset{})
  }

  /** The fate told from the schedule is the list's place in the state. */
  ghost predicate Fits(s: State, r: Ref, f: Fate) {
    match f
    case Current => r == s.local && !Copied(s)
    case TakenBy(u, retries) => u < |s.threads| && (s.threads[u] == Sending(r, retries) || s.threads[u] == Merging(r))
    case Gone => !Live(s, r)
  }

  /** A list leaves use when its only owner drops it. */
  lemma NoLongerLive(s: State, s': State, t: nat, r: Ref)
    requires WellFormed(s) && t < |s.threads| == |s'.threads| && s'.threads == s.threads[t := s'.threads[t]]
    requires r == s.local || InFlight(s.threads[t], r)
    requires (r != s'.local || Copied(s')) && !InFlight(s'.threads[t], r)
    ensures !Live(s', r)
  {
    forall u | 0 <= u < |s'.threads|
      ensures !InFlight(s'.threads[u], r)
    {
      if u != t {
        assert ThreadFits(s, s.threads[u]);
        assert if u < t then Disjoint(s.threads[u], s.threads[t]) else Disjoint(s.threads[t], s.threads[u]);
      }
    }
  }

  lemma CurrentAfter(c: Config, s: State, step: Step)
    requires WellFormed(s) && Enabled(s, step) && !Copied(s)
    ensures Fits(Next(c, s, step), s.local, FateAfter(c, Current, step))
  {
    var s' := Next(c, s, step);
    CopiedAfter(c, s, step);
    if step.DoMerge? || step.DoTrim? {
      NoLongerLive(s, s', step.t, s.local);
    }
    assert !step.DoStore?;
  }

  lemma TakenAfter(c: Config, s: State, step: Step, r: Ref, u: nat, retries: nat)
    requires WellFormed(s) && Enabled(s, step) && r < |s.lists| && Fits(s, r, TakenBy(u, retries))
    ensures Fits(Next(c, s, step), r, FateAfter(c, TakenBy(u, retries), step))
  {
    OthersKeepTheirThreads(c, s, step, u);
    if step.t == u && FateAfter(c, TakenBy(u, retries), step) == Gone {
      assert ThreadFits(s, s.threads[u]);
      NoLongerLive(s, Next(c, s, step), u, r);
    }
  }

  lemma FitsAfter(c: Config, s: State, step: Step, r: Ref, f: Fate)
    requires WellFormed(s) && Enabled(s, step) && r < |s.lists| && Fits(s, r, f)
    ensures Fits(Next(c, s, step), r, FateAfter(c, f, step))
  {
    match f {
      case Current => CurrentAfter(c, s, step);
      case TakenBy(u, retries) => TakenAfter(c, s, step, r, u, retries);
      case Gone => DeadStaysDead(c, s, step, r);
    }
  }

  /** What the schedule says about a thread that is about to append is right. */
  ghost predicate Foretold(c: Config, s: State, steps: seq<Step>, t: nat) {
    t < |s.threads| && s.threads[t].Appending? ==>
      var read := LastRead(steps, t);
      && read.Some? && steps[read.value].batch == s.threads[t].batch
      && Fits(s, s.threads[t].target, FateOfRead(c, steps, read.value))
  }

  lemma StillAppending(c: Config, s: State, step: Step, t: nat)
    requires WellFormed(s) && Enabled(s, step) && t < |s.threads| && Next(c, s, step).threads[t].Appending?
    ensures if step.DoRead? && step.t == t then Next(c, s, step).threads[t] == Appending(s.local, step.batch)
            else Next(c, s, step).threads[t] == s.threads[t] && s.threads[t].target < |s.lists|
    ensures step.DoRead? ==> Next(c, s, step).local == s.local
  {
    assert ThreadFits(s, s.threads[t]);
  }

  lemma ForetoldAfter(c: Config, s: State, steps: seq<Step>, step: Step, t: nat)
    requires WellFormed(s) && Enabled(s, step) && Foretold(c, s, steps, t)
    requires CopyPending(steps) <==> Copied(s)
    ensures Foretold(c, Next(c, s, step), steps + [step], t)
  {
    OthersKeepTheirThreads(c, s, step, t);
    if t < |s.threads| && Next(c, s, step).threads[t].Appending? {
      StillAppending(c, s, step, t);
      LastReadSnoc(steps, step, t);
      if step.DoRead? && step.t == t {
        FateOfNewRead(c, steps, step);
        CopiedAfter(c, s, step);
        StepKeepsForm(c, s, step);
        LocalNotInFlight(Next(c, s, step));
      } else {
        var read := LastRead(steps, t).value;
        FateOfReadSnoc(c, steps, step, read);
        FitsAfter(c, s, step, s.threads[t].target, FateOfRead(c, steps, read));
      }
    }
  }

  lemma LateExactly(c: Config, s: State, steps: seq<Step>, step: Step)
    requires WellFormed(s) && Enabled(s, step) && Foretold(c, s, steps, step.t)
    ensures AppendedTooLate(c, steps, step) ==
            if step.DoAppend? && !Live(s, s.threads[step.t].target) then Some(s.threads[step.t].batch) else None
  {
  }

  /** What is known of the state that a run has led to. */
  ghost predicate RunsTo(c: Config, steps: seq<Step>, s: State) {
    && Accounted(s) && LosesByPolicy(c, s) && (CopyPending(steps) <==> Copied(s))
    && (forall t: nat :: Foretold(c, s, steps, t))
    && (forall b :: Stranded(s, b) == TooLate(c, steps)[b])
  }

  lemma RunsToNext(c: Config, steps: seq<Step>, s: State, step: Step)
    requires RunsTo(c, steps, s) && Enabled(s, step)
    ensures RunsTo(c, steps + [step], Next(c, s, step))
  {
    var all := steps + [step];
    assert all[..|steps|] == steps;
    StepKeepsAccounts(c, s, step);
    StepLosesByPolicy(c, s, step);
    CopiedAfter(c, s, step);
    CopyPendingSnoc(steps, step);
    forall t: nat ensures Foretold(c, Next(c, s, step), all, t) {
      ForetoldAfter(c, s, steps, step, t);
    }
    forall b ensures Stranded(Next(c, s, step), b) == TooLate(c, all)[b] {
      StepStrands(c, s, step, b);
      LateExactly(c, s, steps, step);
    }
  }

  lemma InitRuns(c: Config, n: nat)
    ensures RunsTo(c, [], Init(n))
  {
    assert DeadLists(Init(n)) == [[]];
    forall b ensures Stranded(Init(n), b) == 0 {
      assert Copies([[]], b) == 0;
    }
  }

  /** In every interleaving of any threads every batch is accounted for, and the batches in lists out of
      use, which no thread will ever send, are exactly those that the schedule appends too late. Under policy
      `queue` batches are else only lost to its bound, and under the others only by giving up. */
  lemma {:induction false} EveryInterleavingAccountsForEveryBatch(c: Config, n: nat, steps: seq<Step>)
    requires Run(c, Init(n), steps).Some?
    ensures var s := Run(c, Init(n), steps).value;
            Accounted(s) && LosesByPolicy(c, s) && forall b :: Stranded(s, b) == TooLate(c, steps)[b]
    ensures RunsTo(c, steps, Run(c, Init(n), steps).value)
  {
    if steps == [] {
      InitRuns(c, n);
    } else {
      var m := |steps| - 1;
      EveryInterleavingAccountsForEveryBatch(c, n, steps[..m]);
      RunsToNext(c, steps[..m], Run(c, Init(n), steps[..m]).value, steps[m]);
      assert steps[..m] + [steps[m]] == steps;
    }
  }

  /** Each append directly follows its own read of the attribute. */
  predicate AtomicAppends(steps: seq<Step>) {
    forall i :: 0 <= i < |steps| && steps[i].DoAppend? ==>
      i > 0 && steps[i - 1].DoRead? && steps[i - 1].t == steps[i].t
  }

  /** An append that directly follows its read is too late exactly if the local queue had been copied. */
  lemma AtomicAppendLateExactly(c: Config, before: seq<Step>, t: nat)
    requires before != [] && before[|before| - 1].DoRead? && before[|before| - 1].t == t
    ensures AppendedTooLate(c, before, DoAppend(t)).Some? <==> CopyPending(before[..|before| - 1])
  {
    var n := |before| - 1;
    assert before == before[..n] + [before[n]];
    LastReadSnoc(before[..n], before[n], t);
    FateOfNewRead(c, before[..n], before[n]);
  }

  /** The lock is free at each read, as it would be if reading and appending took it. */
  predicate ReadsWhileLockFree(c: Config, s: State, steps: seq<Step>) {
    forall i :: 0 <= i < |steps| && steps[i].DoRead? ==>
      var before := Run(c, s, steps[..i]);
      before.Some? && LockFree(before.value)
  }

  lemma LockedPrefix(c: Config, s: State, steps: seq<Step>, m: nat)
    requires m <= |steps| && AtomicAppends(steps) && ReadsWhileLockFree(c, s, steps)
    ensures AtomicAppends(steps[..m]) && ReadsWhileLockFree(c, s, steps[..m])
  {
    forall i | 0 <= i < m && steps[..m][i].DoRead?
      ensures var before := Run(c, s, steps[..m][..i]); before.Some? && LockFree(before.value)
    {
      assert steps[..m][..i] == steps[..i] && steps[i].DoRead?;
    }
  }

  lemma LockedAppendIsTimely(c: Config, n: nat, steps: seq<Step>, m: nat)
    requires m < |steps| && AtomicAppends(steps) && ReadsWhileLockFree(c, Init(n), steps)
    ensures AppendedTooLate(c, steps[..m], steps[m]) == None
  {
    if steps[m].DoAppend? {
      var before := steps[..m];
      assert before[..m - 1] == steps[..m - 1] && before[m - 1] == steps[m - 1];
      LockedReadIsTimely(c, n, steps, m - 1);
      AtomicAppendLateExactly(c, before, steps[m].t);
    }
  }

  /** Appends under the lock are never too late. */
  lemma {:induction false} LockedAppendsNeverStray(c: Config, n: nat, steps: seq<Step>)
    requires AtomicAppends(steps) && ReadsWhileLockFree(c, Init(n), steps)
    ensures TooLate(c, steps) == multiset{}
  {
    if steps != [] {
      var m := |steps| - 1;
      LockedPrefix(c, Init(n), steps, m);
      LockedAppendsNeverStray(c, n, steps[..m]);
      LockedAppendIsTimely(c, n, steps, m);
    }
  }

  lemma LockedReadIsTimely(c: Config, n: nat, steps: seq<Step>, i: nat)
    requires i < |steps| && steps[i].DoRead? && ReadsWhileLockFree(c, Init(n), steps)
    ensures !CopyPending(steps[..i])
  {
    EveryInterleavingAccountsForEveryBatch(c, n, steps[..i]);
    var s := Run(c, Init(n), steps[..i]).value;
    assert forall t :: 0 <= t < |s.threads| && s.threads[t].Storing? ==> HoldsLock(s.threads[t]);
  }

  lemma {:induction false} NoCopies(lists: seq<seq<Batch>>, b: Batch)
    ensures Copies(lists, b) == 0 <==> forall r :: 0 <= r < |lists| ==> b !in lists[r]
  {
    if lists != [] {
      NoCopies(lists[1..], b);
      assert lists == [lists[0]] + lists[1..];
    }
  }

  /** The list is the only one that has the batch. */
  ghost predicate OnlyIn(lists: seq<seq<Batch>>, r: nat, b: Batch) {
    r < |lists| && b in lists[r] && forall q :: 0 <= q < |lists| && q != r ==> b !in lists[q]
  }

  lemma {:induction false} OneCopy(lists: seq<seq<Batch>>, b: Batch) returns (r: nat)
    requires Copies(lists, b) == 1
    ensures OnlyIn(lists, r, b)
  {
    NoCopies(lists[1..], b);
    if b in lists[0] {
      r := 0;
      assert forall q :: 0 < q < |lists| ==> lists[q] == lists[1..][q - 1];
    } else {
      var k := OneCopy(lists[1..], b);
      r := k + 1;
      assert forall q :: 0 < q < |lists| && q != r ==> lists[q] == lists[1..][q - 1];
    }
  }

  /** A batch appended once is in exactly one place: one of the histories, or one list, which is either
      in use or not. */
  lemma ExactlyOnePlace(s: State, b: Batch)
    requires Accounted(s) && s.appended[b] == 1
    ensures s.sent[b] + s.evicted[b] + s.abandoned[b] + Copies(s.lists, b) == 1
    ensures s.sent[b] + s.evicted[b] + s.abandoned[b] == 0 ==> exists r :: OnlyIn(s.lists, r, b)
    ensures s.sent[b] + s.evicted[b] + s.abandoned[b] == 1 ==> forall q :: 0 <= q < |s.lists| ==> b !in s.lists[q]
    ensures Stranded(s, b) > 0 <==> exists r :: 0 <= r < |s.lists| && !Live(s, r) && b in s.lists[r]
  {
    assert Balanced(s, b);
    NoCopies(s.lists, b);
    if Copies(s.lists, b) == 1 {
      var r := OneCopy(s.lists, b);
    }
    NoCopies(DeadLists(s), b);
    if Stranded(s, b) > 0 {
      var r :| 0 <= r < |s.lists| && b in DeadLists(s)[r];
      assert !Live(s, r) && b in s.lists[r];
    }
    if r :| 0 <= r < |s.lists| && !Live(s, r) && b in s.lists[r] {
      assert b in DeadLists(s)[r];
    }
  }

  lemma RunStep(c: Config, s: State, steps: seq<Step>, step: Step)
    requires Run(c, s, steps).Some? && WellFormed(Run(c, s, steps).value) && Enabled(Run(c, s, steps).value, step)
    ensures Run(c, s, steps + [step]) == Some(Next(c, Run(c, s, steps).value, step))
  {
    assert (steps + [step])[..|steps|] == steps;
  }

  /** One thread reads the attribute, and before it appends another one swaps the list out and finds
      nothing to send. */
  function Race(b: Batch): seq<Step> {
    (([DoRead(0, b)] + [DoSwap(1)]) + [DoFinish(1)]) + [DoAppend(0)]
  }

  lemma TooLateSnoc(c: Config, steps: seq<Step>, step: Step)
    ensures var late := AppendedTooLate(c, steps, step);
            TooLate(c, steps + [step]) == TooLate(c, steps) + (if late.Some? then multiset{late.value} else multiset{})
  {
    Snoc(steps, step, 0);
  }

  lemma RaceFate(c: Config, b: Batch, before: seq<Step>)
    requires before == (([] + [DoRead(0, b)]) + [DoSwap(1)]) + [DoFinish(1)]
    ensures AppendedTooLate(c, before, DoAppend(0)) == Some(b)
  {
    var s1 := [] + [DoRead(0, b)];
    LastReadSnoc([], DoRead(0, b), 0);
    LastReadSnoc(s1, DoSwap(1), 0);
    LastReadSnoc(s1 + [DoSwap(1)], DoFinish(1), 0);
    FateOfNewRead(c, [], DoRead(0, b));
    FateOfReadSnoc(c, s1, DoSwap(1), 0);
    FateOfReadSnoc(c, s1 + [DoSwap(1)], DoFinish(1), 0);
  }

  lemma RaceIsLate(c: Config, b: Batch)
    ensures TooLate(c, Race(b)) == multiset{b}
  {
    var s1 := [] + [DoRead(0, b)];
    var s2 := s1 + [DoSwap(1)];
    var s3 := s2 + [DoFinish(1)];
    assert Race(b) == s3 + [DoAppend(0)];
    TooLateSnoc(c, [], DoRead(0, b));
    TooLateSnoc(c, s1, DoSwap(1));
    TooLateSnoc(c, s2, DoFinish(1));
    RaceFate(c, b, s3);
    TooLateSnoc(c, s3, DoAppend(0));
  }

  /** The states on the way, before the last append. */
  function Racing(b: Batch, i: nat): State
    requires i <= 3
  {
    match i
    case 0 => Init(2)
    case 1 => Init(2).(threads := [Appending(0, b), Idle])
    case 2 => Init(2).(lists := [[], []], local := 1, threads := [Appending(0, b), Sending(0, 0)])
    case _ => Init(2).(lists := [[], [], []], local := 1, threads := [Appending(0, b), Merging(2)])
  }

  lemma RacingSteps(c: Config, b: Batch, i: nat)
    requires i < 3
    ensures WellFormed(Racing(b, i)) && Enabled(Racing(b, i), Race(b)[i])
    ensures Next(c, Racing(b, i), Race(b)[i]) == Racing(b, i + 1)
  {
    assert Init(2).threads == [Idle, Idle];
  }

  lemma {:induction false} RaceRunsTo(c: Config, b: Batch, i: nat)
    requires i <= 3
    ensures Run(c, Init(2), Race(b)[..i]) == Some(Racing(b, i))
  {
    if i > 0 {
      RaceRunsTo(c, b, i - 1);
      RacingSteps(c, b, i - 1);
      assert Race(b)[..i] == Race(b)[..i - 1] + [Race(b)[i - 1]];
      RunStep(c, Init(2), Race(b)[..i - 1], Race(b)[i - 1]);
    }
  }

  lemma RaceRuns(c: Config, b: Batch)
    ensures Run(c, Init(2), Race(b)).Some?
  {
    RaceRunsTo(c, b, 3);
    assert Race(b) == Race(b)[..3] + [DoAppend(0)];
    RunStep(c, Init(2), Race(b)[..3], DoAppend(0));
  }

  /** The shortest interleaving that strands a batch, whatever the policy. */
  lemma UnlockedAppendCanStrand(c: Config, b: Batch)
    ensures Run(c, Init(2), Race(b)).Some? && Stranded(Run(c, Init(2), Race(b)).value, b) == 1
  {
    RaceRuns(c, b);
    RaceIsLate(c, b);
    EveryInterleavingAccountsForEveryBatch(c, 2, Race(b));
  }

  /** Another one: a thread has nothing left to send and merges; between its copying and its storing of the
      local queue the other thread reads the attribute and appends at once. */
  function Window(b: Batch): seq<Step> {
    [DoSwap(1), DoFinish(1), DoMerge(1), DoRead(0, b), DoAppend(0), DoStore(1)]
  }

  function InWindow(b: Batch, i: nat): State
    requires i <= 5
  {
    var s := Init(2);
    match i
    case 0 => s
    case 1 => s.(lists := [[], []], local := 1, threads := [Idle, Sending(0, 0)])
    case 2 => s.(lists := [[], [], []], local := 1, threads := [Idle, Merging(2)])
    case 3 => s.(lists := [[], [], [], []], local := 1, threads := [Idle, Storing(3, true)])
    case 4 => s.(lists := [[], [], [], []], local := 1, threads := [Appending(1, b), Storing(3, true)])
    case _ => s.(lists := [[], [b], [], []], local := 1, threads := [Idle, Storing(3, true)], appended := multiset{b})
  }

  /** The i-th step can be taken and leads on. */
  predicate WindowStep(c: Config, b: Batch, i: nat)
    requires i < 5
  {
    var s, step := InWindow(b, i), Window(b)[i];
    WellFormed(s) && Enabled(s, step) && Next(c, s, step) == InWindow(b, i + 1)
  }

  lemma NothingPlus(l: seq<Batch>)
    ensures [] + l == l
  {
  }

  lemma WindowSwaps(c: Config, b: Batch)
    ensures WindowStep(c, b, 0) && WindowStep(c, b, 1)
  {
    assert Init(2).threads == [Idle, Idle];
    assert GiveUp(InWindow(b, 1), 1, false).lists == [[], [], []];
  }

  lemma WindowCopies(c: Config, b: Batch)
    ensures WindowStep(c, b, 2)
  {
    NothingPlus([]);
    assert Merge(InWindow(b, 2), 1).lists == [[], [], [], []];
  }

  lemma WindowReads(c: Config, b: Batch)
    ensures WindowStep(c, b, 3)
  {
  }

  lemma WindowAppends(c: Config, b: Batch)
    ensures WindowStep(c, b, 4)
  {
    NothingPlus([b]);
    assert Append(InWindow(b, 4), 0).lists == [[], [b], [], []];
  }

  lemma WindowGoesOn(c: Config, b: Batch, i: nat)
    requires i < 5 && WindowStep(c, b, i) && Run(c, Init(2), Window(b)[..i]) == Some(InWindow(b, i))
    ensures Run(c, Init(2), Window(b)[..i + 1]) == Some(InWindow(b, i + 1))
  {
    assert Window(b)[..i + 1] == Window(b)[..i] + [Window(b)[i]];
    RunStep(c, Init(2), Window(b)[..i], Window(b)[i]);
  }

  lemma WindowRunsTo(c: Config, b: Batch)
    ensures Run(c, Init(2), Window(b)[..5]) == Some(InWindow(b, 5))
  {
    WindowSwaps(c, b);
    WindowCopies(c, b);
    WindowReads(c, b);
    WindowAppends(c, b);
    WindowGoesOn(c, b, 0);
    WindowGoesOn(c, b, 1);
    WindowGoesOn(c, b, 2);
    WindowGoesOn(c, b, 3);
    WindowGoesOn(c, b, 4);
  }

  lemma WindowEnds(c: Config, b: Batch)
    ensures Run(c, Init(2), Window(b)) == Some(Store(c, InWindow(b, 5), 1))
  {
    WindowRunsTo(c, b);
    assert Window(b) == Window(b)[..5] + [DoStore(1)];
    RunStep(c, Init(2), Window(b)[..5], DoStore(1));
  }

  lemma WindowDead(c: Config, b: Batch)
    ensures DeadLists(Store(c, InWindow(b, 5), 1)) == Empties(4)[1 := [b]]
  {
    var s := Store(c, InWindow(b, 5), 1);
    assert s.local == 3 && s.threads[0] == Idle && !Flushing(s.threads[1]);
  }

  lemma WindowStrands(c: Config, b: Batch)
    ensures Stranded(Store(c, InWindow(b, 5), 1), b) == 1
  {
    assert [] + Empties(4) == Empties(4);
    CopiesOfEmpties([], 4, b);
    CopiesUpdate(Empties(4), 1, [b], b);
    WindowDead(c, b);
  }

  /** Here too the batch is stranded, whatever the policy, though read and append are not interrupted. */
  lemma AtomicAppendCanStrand(c: Config, b: Batch)
    ensures AtomicAppends(Window(b)) && Run(c, Init(2), Window(b)).Some?
    ensures Stranded(Run(c, Init(2), Window(b)).value, b) == 1
  {
    WindowEnds(c, b);
    WindowStrands(c, b);
  }

  // ---------------------------------------------------------------- the bound

  /** The length check cuts the queue to its bound, plus whatever slipped in after the measuring; what slips
      in before the store is not in the new queue. */
  lemma TrimCutsToBound(c: Config, s: State, t: nat)
    requires WellFormed(s) && Measured(c, s) && t < |s.threads| && s.threads[t].Trimming?
    ensures var s' := Trim(s, t);
            && WellFormed(s') && s'.threads[t].Storing?
            && var kept := s'.lists[s'.threads[t].queue];
            && |kept| == c.maxQueueLength + (|s.lists[s.local]| - s.threads[t].seen)
            && Store(c, s', t).lists[Store(c, s', t).local] == kept
            && exists k :: 0 <= k <= |s.lists[s.local]| && kept == s.lists[s.local][k..]
                 && s'.evicted == s.evicted + multiset(s.lists[s.local][..k])
  {
    TrimKeepsForm(s, t);
  }

  /** What the length check leaves of a queue. */
  function Newest(c: Config, queue: seq<Batch>): (kept: seq<Batch>)
    ensures c.maxQueueLength > 0 ==> |kept| <= c.maxQueueLength
    ensures |kept| <= |queue| && kept == queue[|queue| - |kept|..]
    ensures |kept| < |queue| ==> |kept| == c.maxQueueLength
  {
    if |queue| > c.maxQueueLength > 0 then queue[|queue| - c.maxQueueLength..] else queue
  }

  /** The steps of one thread from the merge to the release of the lock. */
  predicate MergeSteps(t: nat, steps: seq<Step>) {
    || steps == [DoMerge(t)] + [DoStore(t)]
    || steps == ([DoMerge(t)] + [DoStore(t)]) + [DoMeasure(t)]
    || steps == ((([DoMerge(t)] + [DoStore(t)]) + [DoMeasure(t)]) + [DoTrim(t)]) + [DoStore(t)]
  }

  lemma MergeAndStore(c: Config, s: State, t: nat) returns (s': State)
    requires WellFormed(s) && t < |s.threads| && s.threads[t].Merging? && LockFree(s)
    ensures Run(c, s, [DoMerge(t)] + [DoStore(t)]) == Some(s') && WellFormed(s') && |s'.threads| == |s.threads|
    ensures s'.threads[t] == (if c.policy == Queue then Measuring else Idle)
    ensures s'.lists[s'.local] == s.lists[s.threads[t].queue] + s.lists[s.local] && s'.evicted == s.evicted
  {
    MergeKeepsForm(s, t);
    StoreKeepsForm(c, Merge(s, t), t);
    assert [] + [DoMerge(t)] == [DoMerge(t)];
    RunStep(c, s, [], DoMerge(t));
    RunStep(c, s, [DoMerge(t)], DoStore(t));
    s' := Store(c, Merge(s, t), t);
  }

  /** The state after the length check that follows a merge. */
  function Checked(c: Config, s: State, t: nat): State
    requires WellFormed(s) && t < |s.threads| && s.threads[t].Measuring?
  {
    MeasureKeepsForm(c, s, t);
    var s1 := Measure(c, s, t);
    if s1.threads[t].Idle? then s1 else
    TrimKeepsForm(s1, t);
    Store(c, Trim(s1, t), t)
  }

  /** The thread is idle again, the local queue is this one, and this was evicted. */
  predicate EndsWith(s: State, s': State, t: nat, queue: seq<Batch>, evicted: seq<Batch>) {
    && t < |s'.threads| && s'.threads[t] == Idle && s'.local < |s'.lists| && s'.lists[s'.local] == queue
    && s'.evicted == s.evicted + multiset(evicted)
  }

  lemma CheckKeepsNewest(c: Config, s: State, t: nat)
    requires WellFormed(s) && t < |s.threads| && s.threads[t].Measuring?
    ensures var queue := s.lists[s.local];
            EndsWith(s, Checked(c, s, t), t, Newest(c, queue), queue[..|queue| - |Newest(c, queue)|])
  {
    assert s.lists[s.local][..0] == [];
  }

  lemma CheckRuns(c: Config, s: State, front: seq<Step>, s1: State, t: nat) returns (steps: seq<Step>)
    requires Run(c, s, front) == Some(s1)
    requires WellFormed(s1) && t < |s1.threads| && s1.threads[t].Measuring?
    ensures steps == front + [DoMeasure(t)] || steps == ((front + [DoMeasure(t)]) + [DoTrim(t)]) + [DoStore(t)]
    ensures Run(c, s, steps) == Some(Checked(c, s1, t))
  {
    RunStep(c, s, front, DoMeasure(t));
    MeasureKeepsForm(c, s1, t);
    steps := front + [DoMeasure(t)];
    var s2 := Measure(c, s1, t);
    if s2.threads[t].Trimming? {
      RunStep(c, s, steps, DoTrim(t));
      TrimKeepsForm(s2, t);
      RunStep(c, s, steps + [DoTrim(t)], DoStore(t));
      steps := (steps + [DoTrim(t)]) + [DoStore(t)];
    }
  }

  lemma MergeAndCheck(c: Config, s: State, t: nat, merged: seq<Batch>) returns (steps: seq<Step>, s': State)
    requires WellFormed(s) && t < |s.threads| && s.threads[t].Merging? && LockFree(s) && c.policy == Queue
    requires merged == s.lists[s.threads[t].queue] + s.lists[s.local]
    ensures MergeSteps(t, steps) && Run(c, s, steps) == Some(s')
    ensures EndsWith(s, s', t, Newest(c, merged), merged[..|merged| - |Newest(c, merged)|])
  {
    var s1 := MergeAndStore(c, s, t);
    steps := CheckRuns(c, s, [DoMerge(t)] + [DoStore(t)], s1, t);
    CheckKeepsNewest(c, s1, t);
    s' := Checked(c, s1, t);
  }

  /** A merge with its length check, with nothing in between, puts what was not sent in front of what has come,
      and under policy `queue` keeps the newest `maxQueueLength` batches. */
  lemma MergeKeepsNewest(c: Config, s: State, t: nat) returns (steps: seq<Step>, s': State)
    requires WellFormed(s) && t < |s.threads| && s.threads[t].Merging? && LockFree(s)
    ensures MergeSteps(t, steps) && Run(c, s, steps) == Some(s')
    ensures var merged := s.lists[s.threads[t].queue] + s.lists[s.local];
            var kept := if c.policy == Queue then Newest(c, merged) else merged;
            EndsWith(s, s', t, kept, merged[..|merged| - |kept|])
  {
    var merged := s.lists[s.threads[t].queue] + s.lists[s.local];
    if c.policy == Queue {
      steps, s' := MergeAndCheck(c, s, t, merged);
    } else {
      steps := [DoMerge(t)] + [DoStore(t)];
      s' := MergeAndStore(c, s, t);
      assert merged[..0] == [];
    }
  }

  // ---------------------------------------------------------------- one thread on its own

  /** How many of the first n attempts to send fail. */
  function Failures(delivers: nat -> bool, n: nat): nat {
    if n == 0 then 0 else Failures(delivers, n - 1) + (if delivers(n - 1) then 0 else 1)
  }

  /** The publisher as one thread uses it: `sent` records what reached the messaging topic. */
  class Publisher {
    const config: Config
    var localQueue: seq<Batch>
    ghost var sent: seq<Batch>

    constructor (config: Config)
      ensures this.config == config && localQueue == [] && sent == []
    {
      this.config := config;
      localQueue, sent := [], [];
    }

    /** `_process_queue`; delivers(i) tells whether the i-th attempt to send succeeds. */
    method ProcessQueue(queue: seq<Batch>, delivers: nat -> bool)
      returns (raised: bool, rest: seq<Batch>, attempts: nat)
      modifies `sent
      ensures var failures := Failures(delivers, attempts);
              var k := attempts - failures;
              && 0 <= k <= |queue| && sent == old(sent) + queue[..k]
              && (failures == 0 ==> !raised && k == |queue| && rest == [])
              && (config.policy == Queue ==> !raised && failures <= 1 && rest == queue[k..])
              && (config.policy == Drop ==> !raised && failures <= 1 && rest == [])
              && (config.policy == Default && !raised ==> k == |queue| && rest == [])
              && (raised <==> config.policy == Default && failures >= config.maxRetry && failures > 0)
      ensures attempts > 0 && Failures(delivers, attempts) > Failures(delivers, attempts - 1) ==>
                attempts - Failures(delivers, attempts) < |queue|
    {
      rest, attempts := queue, 0;
      var currentRetry := 0;
      while rest != []
        invariant currentRetry == Failures(delivers, attempts)
        invariant 0 <= attempts - currentRetry <= |queue|
        invariant rest == queue[attempts - currentRetry..]
        invariant sent == old(sent) + queue[..attempts - currentRetry]
        invariant currentRetry > 0 ==> config.policy == Default && currentRetry < config.maxRetry
        invariant attempts > 0 && !delivers(attempts - 1) ==> rest != []
        decreases |rest|, config.maxRetry - currentRetry
      {
        var batch := rest[0];
        attempts := attempts + 1;
        if delivers(attempts - 1) {
          sent := sent + [batch];
          rest := rest[1..];
        } else if config.policy == Queue {
          return false, rest, attempts;
        } else if config.policy == Drop {
          return false, [], attempts;
        } else {
          currentRetry := currentRetry + 1;
          if currentRetry >= config.maxRetry {
            return true, rest, attempts;
          }
        }
      }
      return false, [], attempts;
    }

    /** `flush`. What an exception leaves behind is the emptied local queue. */
    method Flush(delivers: nat -> bool) returns (raised: bool, delivered: nat)
      modifies this
      ensures delivered <= old(|localQueue|) && sent == old(sent) + old(localQueue)[..delivered]
      ensures localQueue == if config.policy == Queue then Newest(config, old(localQueue)[delivered..]) else []
      ensures config.policy == Default && !raised ==> delivered == old(|localQueue|)
      ensures raised ==> config.policy == Default
      ensures (forall i :: delivers(i)) ==> delivered == old(|localQueue|) && !raised
    {
      var queue := localQueue;
      localQueue := [];
      var rest, attempts;
      raised, rest, attempts := ProcessQueue(queue, delivers);
      delivered := attempts - Failures(delivers, attempts);
      NoFailures(delivers, attempts);
      if raised {
        return;
      }
      localQueue := rest + localQueue;
      if config.policy == Queue {
        CheckQueueLength();
      }
    }

    /** `_check_queue_length`. */
    method CheckQueueLength()
      modifies `localQueue
      ensures localQueue == Newest(config, old(localQueue))
    {
      var queueLength := |localQueue|;
      if queueLength > config.maxQueueLength > 0 {
        var count := queueLength - config.maxQueueLength;
        localQueue := localQueue[count..];
      }
    }

    /** `publish_samples` once the batches for the topics are built: append them, then flush. Under
        policy `queue`, batches leave in the order they came, and only eviction takes any out. */
    method Publish(batches: seq<Batch>, delivers: nat -> bool) returns (raised: bool, delivered: nat)
      modifies this
      ensures delivered <= old(|localQueue|) + |batches|
      ensures sent == old(sent) + (old(localQueue) + batches)[..delivered]
      ensures config.policy == Queue ==>
                !raised && localQueue == Newest(config, (old(localQueue) + batches)[delivered..])
      ensures config.policy == Queue && (config.maxQueueLength <= 0 || |localQueue| < config.maxQueueLength) ==>
                sent + localQueue == old(sent) + old(localQueue) + batches
    {
      ghost var all := localQueue + batches;
      localQueue := localQueue + batches;
      raised, delivered := Flush(delivers);
      TakeThenDrop(all, delivered);
      Regroup(old(sent), all[..delivered], all[delivered..]);
      Regroup(old(sent), old(localQueue), batches);
    }
  }

  lemma TakeThenDrop(queue: seq<Batch>, k: nat)
    requires k <= |queue|
    ensures queue[..k] + queue[k..] == queue
  {
  }

  lemma {:induction false} NoFailures(delivers: nat -> bool, n: nat)
    ensures (forall i :: delivers(i)) ==> Failures(delivers, n) == 0
  {
    if n > 0 {
      NoFailures(delivers, n - 1);
    }
  }
}
