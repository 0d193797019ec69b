/** ConcurrencyTest: per trial, 500 `getblocklocations` requests for names drawn with
    replacement, run by a pool of 16 workers. */
module ConcurrencyTest {
  import opened Common
  import opened Requests
  import opened Store
  import opened Queues
  import opened Worker
  import opened Workload

  const ThruputThreads: nat := 16
  const Trials: nat := 15
  const ThruputFiles: nat := 500

  /** A block-locations request for a name without spaces leaves the store alone; the loop
      goes on exactly when `/read/<name>` is not a directory, whether or not it exists, and a
      directory ends the worker with an `IOException`. */
  lemma BlockStep(name: string, fs: Fs)
    requires NoSpace(name)
    ensures NotDir(fs, ReadDir + name) ==> StepOf(BlockRequest(name), fs) == Continue(fs)
    ensures !NotDir(fs, ReadDir + name) ==> StepOf(BlockRequest(name), fs) == Halted(fs, IOFailed)
  {
    BlockRequestParses(name);
    var path := ReadDir + name;
    assert PathOk(path) by { assert |path| >= |ReadDir|; }
    assert Dispatch(fs, GetBlockLocations(path)) == BlockLocationsEffect(fs, path);
  }

  /** The block-locations phase over paths that are not directories is read-only: one worker
      drains it and leaves the store as it found it. */
  lemma {:induction false} BlockPhaseReadOnly(names: seq<string>, fs: Fs)
    requires forall x :: x in names ==> NoSpace(x) && NotDir(fs, ReadDir + x)
    ensures Execute(Each(BlockRequest, names), fs) == RunResult(|names|, fs, Stopped)
    decreases |names|
  {
    if names != [] {
      var init, last := names[..|names| - 1], names[|names| - 1];
      assert names == init + [last];
      assert forall x :: x in init ==> x in names;
      BlockPhaseReadOnly(init, fs);
      BlockStep(last, fs);
      ExecuteSnoc(Each(BlockRequest, init), BlockRequest(last), fs);
      EachSnoc(BlockRequest, init, last);
    }
  }

  /** The fill of one trial: a request per drawn name, names repeating freely. */
  method FillBlockRequests(requestQ: StringList, draws: seq<string>)
    modifies requestQ
    ensures requestQ.items == old(requestQ.items) + Each(BlockRequest, draws)
  {
    ghost var queue := requestQ.items;
    for j := 1 to |draws| + 1
      invariant requestQ.items == queue + Each(BlockRequest, draws[..j - 1])
    {
      assert draws[..j] == draws[..j - 1] + [draws[j - 1]];
      EachSnoc(BlockRequest, draws[..j - 1], draws[j - 1]);
      requestQ.Offer(BlockRequest(draws[j - 1]));
    }
    assert draws[..|draws|] == draws;
  }

  /** One trial: the fill, then the pool of 16. From an empty queue, with names without spaces
      whose `/read/` paths are not directories, the pool drains every request and the store
      is unchanged. */
  method Trial(requestQ: StringList, threadPool: array<HdfsClient?>, fs0: Fs, draws: seq<string>)
    returns (fs: Fs, exited: bool)
    requires |draws| == ThruputFiles && threadPool.Length == ThruputThreads
    modifies requestQ, threadPool
    ensures old(requestQ.items) == [] && (forall x :: x in draws ==> NoSpace(x) && NotDir(fs0, ReadDir + x)) ==>
      fs == fs0 && !exited && requestQ.items == []
  {
    ghost var ready := requestQ.items == [] && forall x :: x in draws ==> NoSpace(x) && NotDir(fs0, ReadDir + x);
    FillBlockRequests(requestQ, draws);
    if ready {
      assert requestQ.items == Each(BlockRequest, draws);
      BlockPhaseReadOnly(draws, fs0);
      PoolDrains(ThruputThreads, requestQ.items, fs0);
    }
    fs, exited := RunPool(threadPool, ThruputThreads, requestQ, fs0);
  }

  /** `main`: trials 1 to 15 on one queue and one 16-slot pool; with names without spaces
      whose `/read/` paths are not directories the store never changes. */
  method RunTrials(requestQ: StringList, fs0: Fs, draws: seq<seq<string>>) returns (fs: Fs, exited: bool)
    requires |draws| == Trials && forall t :: 0 <= t < Trials ==> |draws[t]| == ThruputFiles
    modifies requestQ
    ensures (&& old(requestQ.items) == []
             && forall t, x :: 0 <= t < Trials && x in draws[t] ==> NoSpace(x) && NotDir(fs0, ReadDir + x)) ==>
      fs == fs0 && !exited && requestQ.items == []
  {
    var threadPool := new HdfsClient?[ThruputThreads];
    ghost var ready := requestQ.items == [] &&
      forall t, x :: 0 <= t < Trials && x in draws[t] ==> NoSpace(x) && NotDir(fs0, ReadDir + x);
    fs, exited := fs0, false;
    for i := 1 to Trials + 1
      invariant ready ==> fs == fs0 && !exited && requestQ.items == []
    {
      fs, exited := Trial(requestQ, threadPool, fs, draws[i - 1]);
      if exited {
        return;
      }
    }
  }
}
