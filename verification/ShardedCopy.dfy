/** The parallel copy of a model's weights to a GPU: every shard process splits its rows of each tensor
    among the threads of its pool, and all the resulting transfers run at the same time. */
module ShardedCopy {
  import opened Quotients

  /** Where the k-th of `parts` parts of `size` rows starts. */
  function Cut(k: nat, size: nat, parts: Positive): nat {
    k * size / parts
  }

  /** How a model is split: the rows of each tensor, the shards, and the threads of a shard. */
  datatype Plan = Plan(sizes: seq<nat>, numShards: Positive, maxThreads: Positive)

  /** One submission to a thread pool. */
  datatype Transfer = Transfer(tensor: nat, shard: nat, broker: nat)

  predicate Planned(plan: Plan, t: Transfer) {
    t.tensor < |plan.sizes| && t.shard < plan.numShards && t.broker < plan.maxThreads
  }

  function LocalSize(size: nat, plan: Plan, shard: nat): nat {
    CutsGrow(shard, size, plan.numShards);
    Cut(shard + 1, size, plan.numShards) - Cut(shard, size, plan.numShards)
  }

  /** The first row of a transfer, and the row after its last. */
  function FirstRow(plan: Plan, t: Transfer): nat
    requires Planned(plan, t)
  {
    var size := plan.sizes[t.tensor];
    Cut(t.shard, size, plan.numShards) + Cut(t.broker, LocalSize(size, plan, t.shard), plan.maxThreads)
  }

  function EndRow(plan: Plan, t: Transfer): nat
    requires Planned(plan, t)
  {
    var size := plan.sizes[t.tensor];
    Cut(t.shard, size, plan.numShards) + Cut(t.broker + 1, LocalSize(size, plan, t.shard), plan.maxThreads)
  }

  // ----- the parts partition the rows -----

  lemma CutsGrow(k: nat, size: nat, parts: Positive)
    ensures Cut(k, size, parts) <= Cut(k + 1, size, parts)
    ensures Cut(0, size, parts) == 0 && Cut(parts, size, parts) == size
  {
    assert (k + 1) * size == k * size + size;
    Cancel(Cut(k + 1, size, parts), Cut(k, size, parts), parts);
    assert parts * size == size * parts;
    Quotient(parts * size, parts, size);
  }

  /** A part starts at the last row that is not beyond its share. */
  lemma CutIsLast(k: nat, size: nat, parts: Positive)
    ensures Cut(k, size, parts) * parts <= k * size < (Cut(k, size, parts) + 1) * parts
  {
    Divided(k * size, parts);
    Grows(Cut(k, size, parts), Cut(k, size, parts), parts);
  }

  lemma {:induction false} CutsAreOrdered(j: nat, k: nat, size: nat, parts: Positive)
    requires j <= k
    ensures Cut(j, size, parts) <= Cut(k, size, parts)
    decreases k
  {
    if j < k {
      CutsAreOrdered(j, k - 1, size, parts);
      CutsGrow(k - 1, size, parts);
    }
  }

  /** A row below the end of the k-th part lies in one of the first k + 1 parts. */
  lemma {:induction false} PartOf(row: nat, k: nat, size: nat, parts: Positive) returns (part: nat)
    requires row < Cut(k, size, parts)
    ensures part < k && Cut(part, size, parts) <= row < Cut(part + 1, size, parts)
    decreases k
  {
    CutsGrow(k, size, parts);
    if Cut(k - 1, size, parts) <= row {
      part := k - 1;
    } else {
      part := PartOf(row, k - 1, size, parts);
    }
  }

  /** Parts differ by at most one row. */
  lemma PartsAreBalanced(k: nat, size: nat, parts: Positive)
    ensures var rows := Cut(k + 1, size, parts) - Cut(k, size, parts);
            size / parts <= rows <= size / parts + 1
  {
    var a, b, q := Cut(k, size, parts), Cut(k + 1, size, parts), size / parts;
    Divided(k * size, parts);
    Divided((k + 1) * size, parts);
    Divided(size, parts);
    assert (k + 1) * size == k * size + size;
    var d := b - a - q;
    assert d * parts == b * parts - a * parts - q * parts;
    Cancel(d, 2, parts);
    Cancel(-1, d, parts);
  }

  predicate Owns(plan: Plan, t: Transfer, tensor: nat, row: nat) {
    Planned(plan, t) && t.tensor == tensor && FirstRow(plan, t) <= row < EndRow(plan, t)
  }

  lemma OwnerWithinShard(plan: Plan, t: Transfer, row: nat)
    requires Owns(plan, t, t.tensor, row)
    ensures var size := plan.sizes[t.tensor];
            Cut(t.shard, size, plan.numShards) <= row < Cut(t.shard + 1, size, plan.numShards)
  {
    var size := plan.sizes[t.tensor];
    var local := LocalSize(size, plan, t.shard);
    CutsAreOrdered(t.broker + 1, plan.maxThreads, local, plan.maxThreads);
    CutsGrow(0, local, plan.maxThreads);
  }

  lemma SamePart(j: nat, k: nat, row: nat, size: nat, parts: Positive)
    requires Cut(j, size, parts) <= row < Cut(j + 1, size, parts)
    requires Cut(k, size, parts) <= row < Cut(k + 1, size, parts)
    ensures j == k
  {
    if j < k {
      CutsAreOrdered(j + 1, k, size, parts);
    } else if k < j {
      CutsAreOrdered(k + 1, j, size, parts);
    }
  }

  /** Whatever the sizes and the numbers of shards and threads, every row of every tensor belongs to
      exactly one transfer. */
  lemma TransfersPartitionRows(plan: Plan, tensor: nat, row: nat) returns (owner: Transfer)
    requires tensor < |plan.sizes| && row < plan.sizes[tensor]
    ensures Owns(plan, owner, tensor, row)
    ensures forall t :: Owns(plan, t, tensor, row) ==> t == owner
  {
    var size := plan.sizes[tensor];
    CutsGrow(0, size, plan.numShards);
    var shard := PartOf(row, plan.numShards, size, plan.numShards);
    var local := LocalSize(size, plan, shard);
    CutsGrow(0, local, plan.maxThreads);
    var broker := PartOf(row - Cut(shard, size, plan.numShards), plan.maxThreads, local, plan.maxThreads);
    owner := Transfer(tensor, shard, broker);
    forall t | Owns(plan, t, tensor, row)
      ensures t == owner
    {
      OnlyOneOwns(plan, t, owner, row);
    }
  }

  lemma OnlyOneOwns(plan: Plan, t: Transfer, u: Transfer, row: nat)
    requires t.tensor == u.tensor && Owns(plan, t, t.tensor, row) && Owns(plan, u, u.tensor, row)
    ensures t == u
  {
    var size := plan.sizes[t.tensor];
    OwnerWithinShard(plan, t, row);
    OwnerWithinShard(plan, u, row);
    SamePart(t.shard, u.shard, row, size, plan.numShards);
    SamePart(t.broker, u.broker, row - Cut(t.shard, size, plan.numShards),
             LocalSize(size, plan, t.shard), plan.maxThreads);
  }

  // ----- the divisibility assertion -----

  /** What the assertion asks of a tensor: the rows of the shard can be dealt out equally to its threads. */
  predicate Divisible(plan: Plan, shard: nat, tensor: nat)
    requires tensor < |plan.sizes|
  {
    LocalSize(plan.sizes[tensor], plan, shard) % plan.maxThreads == 0
  }

  /** With one thread every shard passes the assertion; with more, all shards pass it exactly when the
      rows can be dealt out equally to all threads of all shards. */
  lemma AllShardsPassIff(plan: Plan, tensor: nat)
    requires tensor < |plan.sizes|
    ensures (forall s: nat :: s < plan.numShards ==> Divisible(plan, s, tensor)) <==>
              plan.maxThreads == 1 || plan.sizes[tensor] % (plan.numShards * plan.maxThreads) == 0
  {
    var size := plan.sizes[tensor];
    if plan.maxThreads > 1 {
      if size % (plan.numShards * plan.maxThreads) == 0 {
        forall s: nat | s < plan.numShards
          ensures Divisible(plan, s, tensor)
        {
          EqualSharesPass(s, size, plan);
        }
      }
      if forall s: nat :: s < plan.numShards ==> Divisible(plan, s, tensor) {
        assert forall s: nat :: s < plan.numShards && Divisible(plan, s, tensor) ==>
            LocalSize(size, plan, s) % plan.maxThreads == 0;
        PassingSharesAreEqual(size, plan);
      }
    }
  }

  lemma Regroup(a: int, b: int, c: int)
    ensures a * (b * c) == (a * b) * c
  {
  }

  lemma EqualSharesPass(s: nat, size: nat, plan: Plan)
    requires s < plan.numShards && size % (plan.numShards * plan.maxThreads) == 0
    ensures LocalSize(size, plan, s) % plan.maxThreads == 0
  {
    var n, m := plan.numShards, plan.maxThreads;
    var share := size / (n * m);
    Regroup(n, m, share);
    EqualShares(s, m * share, size, plan);
    EqualShares(s + 1, m * share, size, plan);
    Grows(s, s + 1, m * share + 1);
    assert LocalSize(size, plan, s) == m * share;
    Quotient(m * share, m, share);
  }

  lemma PassingSharesAreEqual(size: nat, plan: Plan)
    requires plan.maxThreads > 1
    requires forall s: nat :: s < plan.numShards ==> LocalSize(size, plan, s) % plan.maxThreads == 0
    ensures size % (plan.numShards * plan.maxThreads) == 0
  {
    var n, m := plan.numShards, plan.maxThreads;
    var local := LocalSize(size, plan, 0);
    SharesAreEqual(n, size, plan);
    CutsGrow(0, size, n);
    assert local == m * (local / m);
    Regroup(n, m, local / m);
    Quotient(size, n * m, local / m);
  }

  lemma EqualShares(k: nat, share: nat, size: nat, plan: Plan)
    requires size == plan.numShards * share
    ensures Cut(k, size, plan.numShards) == k * share
  {
    assert k * size == plan.numShards * (k * share);
    Quotient(k * size, plan.numShards, k * share);
  }

  /** Two multiples of at least two that differ by at most one are equal. */
  lemma {:induction false} SharesAreEqual(k: nat, size: nat, plan: Plan)
    requires plan.maxThreads > 1 && k <= plan.numShards
    requires forall s: nat :: s < plan.numShards ==> LocalSize(size, plan, s) % plan.maxThreads == 0
    ensures Cut(k, size, plan.numShards) == k * LocalSize(size, plan, 0)
  {
    if k == 0 {
      CutsGrow(0, size, plan.numShards);
    } else {
      SharesAreEqual(k - 1, size, plan);
      PartsAreBalanced(0, size, plan.numShards);
      PartsAreBalanced(k - 1, size, plan.numShards);
      NearMultiples(LocalSize(size, plan, k - 1), LocalSize(size, plan, 0), plan.maxThreads);
      assert LocalSize(size, plan, 0) % plan.maxThreads == 0 && LocalSize(size, plan, k - 1) % plan.maxThreads == 0;
    }
  }

  lemma NearMultiples(a: nat, b: nat, m: Positive)
    requires m > 1 && a % m == 0 && b % m == 0 && b - 1 <= a <= b + 1
    ensures a == b
  {
    if b == a + 1 {
      NextIsNoMultiple(a, m);
    } else if a == b + 1 {
      NextIsNoMultiple(b, m);
    }
  }

  // ----- what a shard submits -----

  /** A submitted transfer: the rows it copies, and the GPU through which it copies them. */
  datatype Job = Job(tensor: nat, start: nat, end: nat, brokerGpu: nat)

  function JobOf(plan: Plan, t: Transfer, targetGpu: nat, numGpus: Positive): Job
    requires Planned(plan, t)
  {
    Job(t.tensor, FirstRow(plan, t), EndRow(plan, t), (t.broker + targetGpu + 1) % numGpus)
  }

  /** The jobs of the first n tensors, and of the first b threads for the next tensor. */
  function Jobs(plan: Plan, shard: nat, targetGpu: nat, numGpus: Positive, n: nat, b: nat): seq<Job>
    requires shard < plan.numShards && n <= |plan.sizes| && b <= plan.maxThreads && (n == |plan.sizes| ==> b == 0)
    decreases n, b
  {
    if b > 0 then
      Jobs(plan, shard, targetGpu, numGpus, n, b - 1) +
      [JobOf(plan, Transfer(n, shard, b - 1), targetGpu, numGpus)]
    else if n > 0 then Jobs(plan, shard, targetGpu, numGpus, n - 1, plan.maxThreads)
    else []
  }

  /** The assertion fails at the first tensor whose rows the shard cannot deal out equally. The jobs of
      the tensors before it are submitted all the same. */
  method MultiThreadCopyModelToGpu(plan: Plan, shard: nat, targetGpu: nat, numGpus: Positive)
    returns (futures: seq<Job>, tensors: nat, ok: bool)
    requires shard < plan.numShards
    ensures tensors <= |plan.sizes| && futures == Jobs(plan, shard, targetGpu, numGpus, tensors, 0)
    ensures forall k :: 0 <= k < tensors ==> Divisible(plan, shard, k)
    ensures if ok then tensors == |plan.sizes| else tensors < |plan.sizes| && !Divisible(plan, shard, tensors)
  {
    futures, tensors := [], 0;
    while tensors < |plan.sizes|
      invariant tensors <= |plan.sizes| && futures == Jobs(plan, shard, targetGpu, numGpus, tensors, 0)
      invariant forall k :: 0 <= k < tensors ==> Divisible(plan, shard, k)
    {
      var size := plan.sizes[tensors];
      var startShard := Cut(shard, size, plan.numShards);
      var endShard := Cut(shard + 1, size, plan.numShards);
      CutsGrow(shard, size, plan.numShards);
      var localSize := endShard - startShard;
      if localSize % plan.maxThreads != 0 {
        return futures, tensors, false;
      }
      for broker := 0 to plan.maxThreads
        invariant futures == Jobs(plan, shard, targetGpu, numGpus, tensors, broker)
      {
        var start := Cut(broker, localSize, plan.maxThreads);
        var end := Cut(broker + 1, localSize, plan.maxThreads);
        futures := futures + [Job(tensors, startShard + start, startShard + end, (broker + targetGpu + 1) % numGpus)];
      }
      tensors := tensors + 1;
    }
    ok := true;
  }

  /** While there are no more threads than GPUs, no two jobs of a tensor share a broker GPU, and the one
      copying straight to the target is the last of a full round. */
  lemma BrokersAreDistinct(plan: Plan, t: Transfer, u: Transfer, targetGpu: nat, numGpus: Positive)
    requires Planned(plan, t) && Planned(plan, u) && plan.maxThreads <= numGpus && targetGpu < numGpus
    ensures JobOf(plan, t, targetGpu, numGpus).brokerGpu == JobOf(plan, u, targetGpu, numGpus).brokerGpu <==>
            t.broker == u.broker
    ensures JobOf(plan, t, targetGpu, numGpus).brokerGpu < numGpus
    ensures JobOf(plan, t, targetGpu, numGpus).brokerGpu == targetGpu <==> t.broker == numGpus - 1
    ensures u.broker == t.broker + 1 ==>
              var gpu := JobOf(plan, t, targetGpu, numGpus).brokerGpu;
              JobOf(plan, u, targetGpu, numGpus).brokerGpu == if gpu == numGpus - 1 then 0 else gpu + 1
  {
    Wrapped(t.broker + targetGpu + 1, numGpus);
    Wrapped(u.broker + targetGpu + 1, numGpus);
  }

  lemma Wrapped(x: nat, n: Positive)
    requires x < 2 * n
    ensures x % n == if x < n then x else x - n
  {
    var q := if x < n then 0 else 1;
    assert q * n <= x < (q + 1) * n;
    Division(x, n, q);
    assert x == x / n * n + x % n;
  }

  /** The jobs are those of the tensors one after the other, and of the threads in turn for each. */
  ghost predicate AreInOrder(jobs: seq<Job>, plan: Plan, shard: nat, targetGpu: nat, numGpus: Positive, n: nat, b: nat)
    requires shard < plan.numShards && n <= |plan.sizes| && b <= plan.maxThreads && (n == |plan.sizes| ==> b == 0)
  {
    && |jobs| == n * plan.maxThreads + b
    && forall k: nat, c: nat :: InOrder(plan, k, c, n, b) ==>
         jobs[k * plan.maxThreads + c] == JobOf(plan, Transfer(k, shard, c), targetGpu, numGpus)
  }

  lemma OneMoreJob(jobs: seq<Job>, plan: Plan, shard: nat, targetGpu: nat, numGpus: Positive, n: nat, b: nat)
    requires shard < plan.numShards && n < |plan.sizes| && b < plan.maxThreads
    requires AreInOrder(jobs, plan, shard, targetGpu, numGpus, n, b)
    ensures AreInOrder(jobs + [JobOf(plan, Transfer(n, shard, b), targetGpu, numGpus)],
                       plan, shard, targetGpu, numGpus, n, b + 1)
  {
    var jobs' := jobs + [JobOf(plan, Transfer(n, shard, b), targetGpu, numGpus)];
    forall k: nat, c: nat | InOrder(plan, k, c, n, b + 1)
      ensures jobs'[k * plan.maxThreads + c] == JobOf(plan, Transfer(k, shard, c), targetGpu, numGpus)
    {
      assert (k == n && c == b) || InOrder(plan, k, c, n, b);
    }
  }

  lemma NextTensor(jobs: seq<Job>, plan: Plan, shard: nat, targetGpu: nat, numGpus: Positive, n: nat)
    requires shard < plan.numShards && n < |plan.sizes|
    requires AreInOrder(jobs, plan, shard, targetGpu, numGpus, n, plan.maxThreads)
    ensures AreInOrder(jobs, plan, shard, targetGpu, numGpus, n + 1, 0)
  {
    Grows(n, n + 1, plan.maxThreads);
    assert forall k: nat, c: nat :: InOrder(plan, k, c, n + 1, 0) ==> InOrder(plan, k, c, n, plan.maxThreads);
  }

  lemma {:induction false} JobsInOrder(plan: Plan, shard: nat, targetGpu: nat, numGpus: Positive, n: nat, b: nat)
    requires shard < plan.numShards && n <= |plan.sizes| && b <= plan.maxThreads && (n == |plan.sizes| ==> b == 0)
    ensures AreInOrder(Jobs(plan, shard, targetGpu, numGpus, n, b), plan, shard, targetGpu, numGpus, n, b)
    decreases n, b
  {
    if b > 0 {
      JobsInOrder(plan, shard, targetGpu, numGpus, n, b - 1);
      OneMoreJob(Jobs(plan, shard, targetGpu, numGpus, n, b - 1), plan, shard, targetGpu, numGpus, n, b - 1);
    } else if n > 0 {
      JobsInOrder(plan, shard, targetGpu, numGpus, n - 1, plan.maxThreads);
      NextTensor(Jobs(plan, shard, targetGpu, numGpus, n - 1, plan.maxThreads), plan, shard, targetGpu, numGpus, n - 1);
    }
  }

  /** The job of tensor k for thread c is among those of the first n tensors and b threads. */
  predicate InOrder(plan: Plan, k: nat, c: nat, n: nat, b: nat)
    requires n <= |plan.sizes| && (n == |plan.sizes| ==> b == 0)
    ensures InOrder(plan, k, c, n, b) && b <= plan.maxThreads ==>
              k < |plan.sizes| && c < plan.maxThreads && k * plan.maxThreads + c < n * plan.maxThreads + b
  {
    Grows(k + 1, n, plan.maxThreads);
    Grows(k, n, plan.maxThreads);
    (k < n && c < plan.maxThreads) || (k == n && c < b)
  }

  predicate Copies(job: Job, tensor: nat, row: nat) {
    job.tensor == tensor && job.start <= row < job.end
  }

  /** What a shard submits when none of its assertions fails. */
  function AllJobs(plan: Plan, shard: nat, targetGpu: nat, numGpus: Positive): seq<Job>
    requires shard < plan.numShards
  {
    Jobs(plan, shard, targetGpu, numGpus, |plan.sizes|, 0)
  }

  lemma Indexed(j: nat, n: nat, m: Positive) returns (k: nat, c: nat)
    requires j < n * m
    ensures k < n && c < m && j == k * m + c
  {
    k, c := j / m, j % m;
    Divided(j, m);
    Quotient(j, m, n);
  }

  /** The job of a transfer, and back. */
  lemma JobOfTransfer(plan: Plan, t: Transfer, targetGpu: nat, numGpus: Positive)
    requires Planned(plan, t)
    ensures var jobs, j := AllJobs(plan, t.shard, targetGpu, numGpus), t.tensor * plan.maxThreads + t.broker;
            j < |jobs| && jobs[j] == JobOf(plan, t, targetGpu, numGpus)
  {
    JobsInOrder(plan, t.shard, targetGpu, numGpus, |plan.sizes|, 0);
    assert InOrder(plan, t.tensor, t.broker, |plan.sizes|, 0);
  }

  lemma TransferOfJob(plan: Plan, shard: nat, targetGpu: nat, numGpus: Positive, j: nat) returns (t: Transfer)
    requires shard < plan.numShards && j < |AllJobs(plan, shard, targetGpu, numGpus)|
    ensures Planned(plan, t) && t.shard == shard && j == t.tensor * plan.maxThreads + t.broker
    ensures AllJobs(plan, shard, targetGpu, numGpus)[j] == JobOf(plan, t, targetGpu, numGpus)
  {
    JobsInOrder(plan, shard, targetGpu, numGpus, |plan.sizes|, 0);
    var k, c := Indexed(j, |plan.sizes|, plan.maxThreads);
    t := Transfer(k, shard, c);
    JobOfTransfer(plan, t, targetGpu, numGpus);
  }

  ghost predicate CopiesAt(plan: Plan, shard: nat, targetGpu: nat, numGpus: Positive, j: nat, tensor: nat, row: nat) {
    && shard < plan.numShards && j < |AllJobs(plan, shard, targetGpu, numGpus)|
    && Copies(AllJobs(plan, shard, targetGpu, numGpus)[j], tensor, row)
  }

  /** If no shard fails, every row of every tensor is copied by exactly one job of exactly one shard,
      whatever GPUs the shards copy to. */
  lemma EveryRowHasOneJob(plan: Plan, targetGpus: nat -> nat, numGpus: Positive, tensor: nat, row: nat)
    returns (shard: nat, i: nat)
    requires tensor < |plan.sizes| && row < plan.sizes[tensor]
    ensures CopiesAt(plan, shard, targetGpus(shard), numGpus, i, tensor, row)
    ensures forall s: nat, j: nat :: CopiesAt(plan, s, targetGpus(s), numGpus, j, tensor, row) ==>
              s == shard && j == i
  {
    var owner := TransfersPartitionRows(plan, tensor, row);
    shard, i := owner.shard, tensor * plan.maxThreads + owner.broker;
    JobOfTransfer(plan, owner, targetGpus(shard), numGpus);
    forall s: nat, j: nat | CopiesAt(plan, s, targetGpus(s), numGpus, j, tensor, row)
      ensures s == shard && j == i
    {
      var t := TransferOfJob(plan, s, targetGpus(s), numGpus, j);
      assert Owns(plan, t, tensor, row);
    }
  }

  // ----- all transfers at the same time -----

  /** Rows are known by their tensor and position. `progress` says how many rows a transfer has copied,
      `writes` how often each row was written. */
  datatype Copying<!R> = Copying(gpu: map<(nat, nat), R>, progress: map<Transfer, nat>, writes: multiset<(nat, nat)>)

  function Progress<R>(st: Copying<R>, t: Transfer): nat {
    if t in st.progress then st.progress[t] else 0
  }

  predicate CanCopy<R>(plan: Plan, st: Copying<R>, t: Transfer) {
    Planned(plan, t) && FirstRow(plan, t) + Progress(st, t) < EndRow(plan, t)
  }

  /** A transfer copies its next row. */
  function CopyRow<R>(plan: Plan, cpu: ((nat, nat)) -> R, st: Copying<R>, t: Transfer): Copying<R>
    requires CanCopy(plan, st, t)
  {
    var row := (t.tensor, FirstRow(plan, t) + Progress(st, t));
    Copying(st.gpu[row := cpu(row)], st.progress[t := Progress(st, t) + 1], st.writes + multiset{row})
  }

  predicate Schedulable<R>(plan: Plan, cpu: ((nat, nat)) -> R, st: Copying<R>, schedule: seq<Transfer>)
    decreases |schedule|
  {
    schedule != [] ==>
      && CanCopy(plan, st, schedule[0])
      && Schedulable(plan, cpu, CopyRow(plan, cpu, st, schedule[0]), schedule[1..])
  }

  function After<R>(plan: Plan, cpu: ((nat, nat)) -> R, st: Copying<R>, schedule: seq<Transfer>): Copying<R>
    requires Schedulable(plan, cpu, st, schedule)
    decreases |schedule|
  {
    if schedule == [] then st else After(plan, cpu, CopyRow(plan, cpu, st, schedule[0]), schedule[1..])
  }

  predicate IsRow(plan: Plan, row: (nat, nat)) {
    row.0 < |plan.sizes| && row.1 < plan.sizes[row.0]
  }

  /** A row has been written once if its transfer has passed it, else never. */
  ghost predicate InStep<R>(plan: Plan, cpu: ((nat, nat)) -> R, st: Copying<R>) {
    && (forall t: Transfer, row: nat :: Owns(plan, t, t.tensor, row) ==>
          st.writes[(t.tensor, row)] == if row < FirstRow(plan, t) + Progress(st, t) then 1 else 0)
    && (forall row :: row in st.gpu <==> row in st.writes)
    && (forall row :: row in st.gpu ==> st.gpu[row] == cpu(row) && IsRow(plan, row))
  }

  lemma OwnedIsRow(plan: Plan, t: Transfer, row: nat)
    requires Owns(plan, t, t.tensor, row)
    ensures IsRow(plan, (t.tensor, row))
  {
    var size := plan.sizes[t.tensor];
    OwnerWithinShard(plan, t, row);
    CutsAreOrdered(t.shard + 1, plan.numShards, size, plan.numShards);
    CutsGrow(0, size, plan.numShards);
  }

  lemma CopyKeepsStep<R>(plan: Plan, cpu: ((nat, nat)) -> R, st: Copying<R>, t: Transfer)
    requires InStep(plan, cpu, st) && CanCopy(plan, st, t)
    ensures InStep(plan, cpu, CopyRow(plan, cpu, st, t))
  {
    var copied := FirstRow(plan, t) + Progress(st, t);
    var st' := CopyRow(plan, cpu, st, t);
    assert Owns(plan, t, t.tensor, copied);
    OwnedIsRow(plan, t, copied);
    forall u: Transfer, row: nat | Owns(plan, u, u.tensor, row)
      ensures st'.writes[(u.tensor, row)] == if row < FirstRow(plan, u) + Progress(st', u) then 1 else 0
    {
      if u.tensor == t.tensor && row == copied {
        OnlyOneOwns(plan, t, u, row);
      }
    }
  }

  lemma {:induction false} ScheduleKeepsStep<R>(plan: Plan, cpu: ((nat, nat)) -> R, st: Copying<R>,
                                                schedule: seq<Transfer>)
    requires InStep(plan, cpu, st) && Schedulable(plan, cpu, st, schedule)
    ensures InStep(plan, cpu, After(plan, cpu, st, schedule))
    decreases |schedule|
  {
    if schedule != [] {
      CopyKeepsStep(plan, cpu, st, schedule[0]);
      ScheduleKeepsStep(plan, cpu, CopyRow(plan, cpu, st, schedule[0]), schedule[1..]);
    }
  }

  /** However the transfers of all shards are interleaved, down to single rows, no row is ever written
      twice, and all transfers are over exactly when the GPU holds every row of the CPU's tensors. */
  lemma ConcurrentCopyIsExact<R>(plan: Plan, cpu: ((nat, nat)) -> R, schedule: seq<Transfer>)
    requires Schedulable(plan, cpu, Copying(map[], map[], multiset{}), schedule)
    ensures var st := After(plan, cpu, Copying(map[], map[], multiset{}), schedule);
            && (forall row :: st.writes[row] <= 1)
            && (forall row :: row in st.gpu ==> IsRow(plan, row) && st.gpu[row] == cpu(row))
            && ((forall t :: !CanCopy(plan, st, t)) <==> (forall row :: IsRow(plan, row) ==> row in st.gpu))
  {
    ScheduleKeepsStep(plan, cpu, Copying(map[], map[], multiset{}), schedule);
    var st := After(plan, cpu, Copying(map[], map[], multiset{}), schedule);
    forall row: (nat, nat)
      ensures st.writes[row] <= 1
    {
      if IsRow(plan, row) {
        var owner := TransfersPartitionRows(plan, row.0, row.1);
      } else {
        assert row !in st.gpu;
      }
    }
    if forall t :: !CanCopy(plan, st, t) {
      forall row: (nat, nat) | IsRow(plan, row)
        ensures row in st.gpu
      {
        var owner := TransfersPartitionRows(plan, row.0, row.1);
        assert !CanCopy(plan, st, owner);
        assert st.writes[(owner.tensor, row.1)] == 1;
      }
    }
    forall t | CanCopy(plan, st, t)
      ensures exists row :: IsRow(plan, row) && row !in st.gpu
    {
      var next := FirstRow(plan, t) + Progress(st, t);
      assert Owns(plan, t, t.tensor, next);
      OwnedIsRow(plan, t, next);
      assert st.writes[(t.tensor, next)] == 0;
      assert IsRow(plan, (t.tensor, next)) && (t.tensor, next) !in st.gpu;
    }
  }
}
