/** ConMixedTest: the mixed fill of MixedTest, run by 2^(i-1) workers in trial `i`, then the
    cleanup by the full 16; there is no load phase. */
module ConMixedTest {
  import opened Common
  import opened Store
  import opened Queues
  import opened Worker
  import opened Workload
  import opened Phases

  const MaxThruputThreads: nat := 16
  const Trials: nat := 10
  const ThruputFiles: nat := 500

  function Pow2(e: nat): (r: nat)
    ensures r >= 1
  {
    if e == 0 then 1 else 2 * Pow2(e - 1)
  }

  /** The number of mixed-phase workers of trial `i`, `Math.pow(2, i - 1)`. */
  function ThreadCount(i: nat): nat
    requires i >= 1
  {
    Pow2(i - 1)
  }

  lemma {:induction false} Pow2Monotone(a: nat, b: nat)
    requires a <= b
    ensures Pow2(a) <= Pow2(b)
    decreases b
  {
    if a < b {
      Pow2Monotone(a, b - 1);
    }
  }

  /** Trial `i` needs no more slots than trial `Trials`: a pool of `ThreadCount(Trials)`
      slots holds every trial's workers. */
  lemma ThreadCountBound(i: nat)
    requires 1 <= i <= Trials
    ensures MaxThruputThreads <= ThreadCount(Trials) && ThreadCount(i) <= ThreadCount(Trials)
  {
    Pow2Monotone(i - 1, Trials - 1);
    Pow2Monotone(4, Trials - 1);
  }

  /** The 16-slot pool holds the workers of trials 1 to 5 and of no later trial. */
  lemma ThreadCountFits(i: nat)
    requires i >= 1
    ensures ThreadCount(i) <= MaxThruputThreads <==> i <= 5
  {
    if i <= 5 {
      Pow2Monotone(i - 1, 4);
    } else {
      Pow2Monotone(5, i - 1);
    }
  }

  /** The trial loop as written reaches trial 6, whose 32 workers overflow the 16-slot pool. */
  lemma PoolOverflowAtTrialSix()
    ensures 6 <= Trials && ThreadCount(6) > MaxThruputThreads
    ensures forall i :: 1 <= i <= Trials ==> (ThreadCount(i) > MaxThruputThreads <==> i >= 6)
  {
    forall i | 1 <= i <= Trials
      ensures ThreadCount(i) > MaxThruputThreads <==> i >= 6
    {
      ThreadCountFits(i);
    }
  }

  /** Trial `i` as written, on the 16-slot pool of `main`: the starting loop fills slots
      `0 .. 2^(i-1) - 1`; past slot 15 the store into the array throws, the main thread dies
      and the trial loop ends, while the 16 workers already started drain the queue. */
  method TrialAsWritten(i: nat, requestQ: StringList, filesAdded: StringList, threadPool: array<HdfsClient?>,
                        fs0: Fs, draws: seq<string>, coins: seq<real>)
    returns (fs: Fs, sampled: seq<string>, end: TrialEnd)
    requires i >= 1 && requestQ != filesAdded && filesAdded.items == []
    requires threadPool.Length == MaxThruputThreads && |coins| >= ThruputFiles
    modifies requestQ, filesAdded, threadPool
    ensures end != DrawsExhausted ==> |sampled| == ThruputFiles && NoDup(sampled)
    ensures end != DrawsExhausted ==> (end == PoolOverflow <==> ThreadCount(i) > MaxThruputThreads)
  {
    var started := if ThreadCount(i) <= threadPool.Length then ThreadCount(i) else threadPool.Length;
    fs, sampled, end := MixedPhase(started, ThruputFiles, requestQ, filesAdded, threadPool, fs0, draws, coins);
    if end == DrawsExhausted {
      return;
    }
    if ThreadCount(i) > threadPool.Length {
      return fs, sampled, PoolOverflow;
    }
    if end == Completed {
      var exited;
      fs, exited := Cleanup(MaxThruputThreads, requestQ, filesAdded, threadPool, fs);
      end := if exited then ProcessExited else Completed;
    }
  }

  /** Trial `i` on a pool with a slot for every worker it starts: the mixed fill and its
      pool of `2^(i-1)`, then the cleanup with 16. From an empty queue, with plain draws and a
      mixed phase that the pool drained, the cleanup removes exactly the ledger's targets. */
  method Trial(i: nat, requestQ: StringList, filesAdded: StringList, threadPool: array<HdfsClient?>,
               fs0: Fs, draws: seq<string>, coins: seq<real>)
    returns (fs: Fs, sampled: seq<string>, end: TrialEnd)
    requires i >= 1 && requestQ != filesAdded && filesAdded.items == []
    requires ThreadCount(i) <= threadPool.Length && MaxThruputThreads <= threadPool.Length
    requires |coins| >= ThruputFiles
    modifies requestQ, filesAdded, threadPool
    ensures end != PoolOverflow
    ensures end != DrawsExhausted ==> |sampled| == ThruputFiles && NoDup(sampled)
    ensures end == Completed ==> filesAdded.items == []
    ensures old(requestQ.items) == [] && end != DrawsExhausted && (forall x :: x in draws ==> PlainName(x)) ==>
      var p := ExecutePool(ThreadCount(i), MixedRequests(sampled, coins), fs0);
      p.polled == ThruputFiles && !p.exited ==>
        end == Completed && requestQ.items == [] && fs.remote == p.fs.remote - Targets(sampled)
    ensures old(requestQ.items) == [] && end != DrawsExhausted && MixedPrepared(sampled, coins, fs0) ==>
      var p := ExecutePool(ThreadCount(i), MixedRequests(sampled, coins), fs0);
      && p.polled == ThruputFiles && !p.exited && MixedDone(sampled, coins, fs0, p.fs)
      && end == Completed && requestQ.items == [] && fs.remote == fs0.remote
  {
    ghost var empty := requestQ.items == [];
    ghost var ready := empty && forall x :: x in draws ==> PlainName(x);
    fs, sampled, end := MixedPhase(ThreadCount(i), ThruputFiles, requestQ, filesAdded, threadPool, fs0, draws, coins);
    if end == DrawsExhausted {
      return;
    }
    ghost var p := ExecutePool(ThreadCount(i), MixedRequests(sampled, coins), fs0);
    if empty && MixedPrepared(sampled, coins, fs0) {
      MixedPool(ThreadCount(i), sampled, coins, fs0);
      ready := true;
    }
    ready := ready && p.polled == ThruputFiles && !p.exited;
    if ready {
      assert requestQ.items == [] && end == Completed && fs == p.fs;
    }
    if end != Completed {
      return;
    }
    var exited;
    fs, exited := Cleanup(MaxThruputThreads, requestQ, filesAdded, threadPool, fs);
    assert ready ==> !exited && requestQ.items == [] && fs.remote == p.fs.remote - Targets(sampled);
    end := if exited then ProcessExited else Completed;
  }

  /** `main` with the pool sized for its largest trial: trials 1 to 10 on one queue and one
      ledger. The wait for a key press between trials is not modelled. */
  method RunTrials(requestQ: StringList, filesAdded: StringList, fs0: Fs,
                   draws: seq<seq<string>>, coins: seq<seq<real>>)
    returns (fs: Fs, end: TrialEnd)
    requires requestQ != filesAdded && filesAdded.items == []
    requires |draws| == Trials && |coins| == Trials
    requires forall t :: 0 <= t < Trials ==> |coins[t]| >= ThruputFiles
    modifies requestQ, filesAdded
    ensures end != PoolOverflow
    ensures end == Completed ==> filesAdded.items == []
  {
    var threadPool := new HdfsClient?[ThreadCount(Trials)];
    fs, end := fs0, Completed;
    for i := 1 to Trials + 1
      invariant filesAdded.items == [] && end == Completed
    {
      ThreadCountBound(i);
      var sampled;
      fs, sampled, end := Trial(i, requestQ, filesAdded, threadPool, fs, draws[i - 1], coins[i - 1]);
      if end != Completed {
        return;
      }
    }
  }
}
