/** MixedTest: per trial, a fill of 500 fresh names that reads each with probability 0.8 and
    otherwise adds its local copy under `/throughput/`, the cleanup, then 1000 more uploads
    under unique names. */
module MixedTest {
  import opened Common
  import opened Requests
  import opened Store
  import opened Queues
  import opened Worker
  import opened Workload
  import opened Phases

  const WriteThreads: nat := 16
  const ThruputThreads: nat := 8
  const Trials: nat := 99
  const Writes: nat := 1000
  const ThruputFiles: nat := 500

  /** The `k`-th line of a mixed fill over plain names is the read of `/read/<name>` or the add
      of `./read/<name>` to `/throughput/<name>`, as the `k`-th coin says, and the worker
      neither returns early nor exits on it. */
  lemma MixedLineParses(names: seq<string>, coins: seq<real>, k: nat, fs: Fs)
    requires |coins| >= |names| && k < |names| && PlainName(names[k])
    ensures var line := MixedRequests(names, coins)[k];
      && (coins[k] < ProbRead ==> Parse(line) == Op(Read(ReadDir + names[k])))
      && (coins[k] >= ProbRead ==> Parse(line) == Op(Add("./read/" + names[k], WriteDir + names[k])))
      && NeverReturnsOrExits(line, fs)
  {
    MixedRequestsAt(names, coins, k);
    var line := MixedRequests(names, coins)[k];
    if coins[k] < ProbRead {
      ReadRequestParses(names[k]);
    } else {
      MixedAddRequestParses(names[k]);
    }
    OpNeverReturnsOrExits(line, fs);
  }

  /** Every add the mixed fill queues has its target removed by the cleanup that follows,
      whatever the store holds when the cleanup runs. */
  lemma MixedTargetsCleaned(names: seq<string>, coins: seq<real>, k: nat, fs: Fs)
    requires |coins| >= |names| && k < |names|
    requires forall x :: x in names ==> PlainName(x)
    requires coins[k] >= ProbRead
    ensures Parse(MixedRequests(names, coins)[k]) == Op(Add("./read/" + names[k], WriteDir + names[k]))
    ensures WriteDir + names[k] !in Execute(Each(DeleteRequest, names), fs).fs.remote
  {
    assert names[k] in names;
    MixedLineParses(names, coins, k, fs);
    assert forall j :: 0 <= j < |names| ==> names[j] in names;
    CleanupPhase(names, fs);
    assert WriteDir + names[k] in Targets(names);
  }

  /** One trial `i` of `main`: the mixed fill and its pool of 8, the cleanup with 8, then the
      load phase and its pool of 16. From an empty queue, with plain draws and a mixed phase
      that the pool drained, the cleanup removes exactly the ledger's targets and the trial
      ends with the load phase run from there. */
  method Trial(i: nat, requestQ: StringList, filesAdded: StringList, threadPool: array<HdfsClient?>,
               fs0: Fs, draws: seq<string>, coins: seq<real>, loadFiles: seq<string>)
    returns (fs: Fs, sampled: seq<string>, end: TrialEnd, ghost mid: Fs)
    requires requestQ != filesAdded && filesAdded.items == []
    requires threadPool.Length == WriteThreads && |coins| >= ThruputFiles
    modifies requestQ, filesAdded, threadPool
    ensures end != PoolOverflow
    ensures end != DrawsExhausted ==> |sampled| == ThruputFiles && NoDup(sampled)
    ensures end == Completed ==> filesAdded.items == []
    ensures old(requestQ.items) == [] && end != DrawsExhausted && (forall x :: x in draws ==> PlainName(x)) ==>
      var p := ExecutePool(ThruputThreads, MixedRequests(sampled, coins), fs0);
      var load := ExecutePool(WriteThreads, MarkedLoad(i, loadFiles), mid);
      p.polled == ThruputFiles && !p.exited ==>
        && mid.remote == p.fs.remote - Targets(sampled)
        && fs == load.fs && (end == ProcessExited <==> load.exited)
    ensures old(requestQ.items) == [] && end != DrawsExhausted && MixedPrepared(sampled, coins, fs0) ==>
      var p := ExecutePool(ThruputThreads, MixedRequests(sampled, coins), fs0);
      && p.polled == ThruputFiles && !p.exited && MixedDone(sampled, coins, fs0, p.fs)
      && mid.remote == fs0.remote
      && fs == ExecutePool(WriteThreads, MarkedLoad(i, loadFiles), mid).fs
  {
    ghost var empty := requestQ.items == [];
    ghost var ready := empty && forall x :: x in draws ==> PlainName(x);
    fs, sampled, end := MixedPhase(ThruputThreads, ThruputFiles, requestQ, filesAdded, threadPool, fs0, draws, coins);
    mid := fs;
    if end == DrawsExhausted {
      return;
    }
    ghost var p := ExecutePool(ThruputThreads, MixedRequests(sampled, coins), fs0);
    if empty && MixedPrepared(sampled, coins, fs0) {
      MixedPool(ThruputThreads, sampled, coins, fs0);
      ready := true;
    }
    ready := ready && p.polled == ThruputFiles && !p.exited;
    if ready {
      assert requestQ.items == [] && end == Completed && fs == p.fs;
    }
    if end != Completed {
      return;
    }
    var exited;
    fs, exited := Cleanup(ThruputThreads, requestQ, filesAdded, threadPool, fs);
    assert ready ==> !exited && requestQ.items == [] && fs.remote == p.fs.remote - Targets(sampled);
    mid := fs;
    if exited {
      return fs, sampled, ProcessExited, mid;
    }
    ghost var before := requestQ.items;
    EnqueueLoad(requestQ, i, loadFiles);
    assert before == [] ==> requestQ.items == MarkedLoad(i, loadFiles);
    fs, exited := RunPool(threadPool, WriteThreads, requestQ, fs);
    end := if exited then ProcessExited else Completed;
  }

  /** `main`: the trials 1 to 99 on one queue, one ledger and one 16-slot pool. */
  method RunTrials(requestQ: StringList, filesAdded: StringList, fs0: Fs, draws: seq<seq<string>>,
                   coins: seq<seq<real>>, loadFiles: seq<seq<string>>)
    returns (fs: Fs, end: TrialEnd)
    requires requestQ != filesAdded && filesAdded.items == []
    requires |draws| == Trials && |coins| == Trials && |loadFiles| == Trials
    requires forall t :: 0 <= t < Trials ==> |coins[t]| >= ThruputFiles
    modifies requestQ, filesAdded
    ensures end != PoolOverflow
    ensures end == Completed ==> filesAdded.items == []
  {
    var threadPool := new HdfsClient?[WriteThreads];
    fs, end := fs0, Completed;
    for i := 1 to Trials + 1
      invariant filesAdded.items == [] && end == Completed
    {
      var sampled;
      ghost var mid;
      fs, sampled, end, mid := Trial(i, requestQ, filesAdded, threadPool, fs, draws[i - 1], coins[i - 1], loadFiles[i - 1]);
      if end != Completed {
        return;
      }
    }
  }
}
