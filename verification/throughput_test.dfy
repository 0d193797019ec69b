/** ThroughputTest: per trial, read 500 fresh names into the worker's directory, add them
    back under `/throughput/`, clean up, then upload 1000 more files under unique names. */
module ThroughputTest {
  import opened Common
  import opened Requests
  import opened Store
  import opened Queues
  import opened Worker
  import opened Workload
  import opened Phases

  const WriteThreads: nat := 16
  const ThruputThreads: nat := 16
  const Trials: nat := 99
  const Writes: nat := 1000
  const ThruputFiles: nat := 500

  /** Step 1 of a trial: the read fill and its pool. On a store prepared for the drawn names
      and an empty queue, the pool runs the read phase of the new ledger. */
  method ReadPhase(requestQ: StringList, filesAdded: StringList, threadPool: array<HdfsClient?>,
                   fs0: Fs, draws: seq<string>)
    returns (fs: Fs, sampled: seq<string>, end: TrialEnd)
    requires requestQ != filesAdded && filesAdded.items == []
    requires ThruputThreads <= threadPool.Length
    modifies requestQ, filesAdded, threadPool
    ensures end != PoolOverflow
    ensures end != DrawsExhausted ==> |sampled| == ThruputFiles && NoDup(sampled) && filesAdded.items == sampled
    ensures Prepared(draws, fs0) && old(requestQ.items) == [] && end != DrawsExhausted ==>
      var p := ExecutePool(ThruputThreads, Each(ReadRequest, sampled), fs0);
      && Prepared(sampled, fs0) && fs == p.fs && (end == ProcessExited <==> p.exited)
      && requestQ.items == Each(ReadRequest, sampled)[p.polled..]
  {
    fs, sampled := fs0, [];
    ghost var ready := Prepared(draws, fs0) && requestQ.items == [];
    var used, filled := FillReads(requestQ, filesAdded, draws, ThruputFiles);
    if !filled {
      return fs, sampled, DrawsExhausted;
    }
    sampled := filesAdded.items;
    AdmittedNoDup([], draws[..used]);
    assert sampled == [] + Admitted([], draws[..used]);
    if ready {
      PreparedLedger(sampled, draws[..used], draws, fs0);
      assert requestQ.items == Each(ReadRequest, sampled);
    }
    var exited;
    fs, exited := RunPool(threadPool, ThruputThreads, requestQ, fs);
    end := if exited then ProcessExited else Completed;
  }

  /** Step 2 of a trial: an add per ledger name, then the pool. From an empty queue the pool
      runs the write phase of the ledger. */
  method WritePhase(requestQ: StringList, filesAdded: StringList, threadPool: array<HdfsClient?>, fs0: Fs)
    returns (fs: Fs, exited: bool)
    requires requestQ != filesAdded
    requires ThruputThreads <= threadPool.Length
    modifies requestQ, threadPool
    ensures old(requestQ.items) == [] ==>
      var p := ExecutePool(ThruputThreads, Each(WriteRequest, filesAdded.items), fs0);
      && fs == p.fs && exited == p.exited && requestQ.items == Each(WriteRequest, filesAdded.items)[p.polled..]
  {
    ghost var empty := requestQ.items == [];
    EnqueueWrites(filesAdded, requestQ);
    assert empty ==> requestQ.items == Each(WriteRequest, filesAdded.items);
    fs, exited := RunPool(threadPool, ThruputThreads, requestQ, fs0);
  }

  /** Names admitted from a prefix of prepared draws are prepared too. */
  lemma PreparedLedger(sampled: seq<string>, drawn: seq<string>, draws: seq<string>, fs: Fs)
    requires Prepared(draws, fs) && drawn <= draws
    requires forall k :: 0 <= k < |sampled| ==> sampled[k] in drawn
    ensures Prepared(sampled, fs)
  {
    forall x | x in sampled
      ensures x in draws
    {
      var k :| 0 <= k < |sampled| && sampled[k] == x;
      var m :| 0 <= m < |drawn| && drawn[m] == x;
      assert draws[m] == x;
    }
  }

  /** One trial `i` of `main`: steps 1 and 2, the cleanup, then step 3, the load phase and
      its pool. On a prepared store and an empty queue the trial's net effect on the remote
      store is the load phase alone, run from the store it started with. */
  method Trial(i: nat, requestQ: StringList, filesAdded: StringList, threadPool: array<HdfsClient?>,
               fs0: Fs, draws: seq<string>, loadFiles: seq<string>)
    returns (fs: Fs, sampled: seq<string>, end: TrialEnd, ghost mid: Fs)
    requires requestQ != filesAdded && filesAdded.items == []
    requires threadPool.Length == WriteThreads
    modifies requestQ, filesAdded, threadPool
    ensures end != DrawsExhausted ==> |sampled| == ThruputFiles && NoDup(sampled)
    ensures end != DrawsExhausted ==> filesAdded.items == [] || end == ProcessExited
    ensures Prepared(draws, fs0) && old(requestQ.items) == [] && end != DrawsExhausted ==>
      var p := ExecutePool(WriteThreads, MarkedLoad(i, loadFiles), mid);
      && mid.remote == fs0.remote && fs == p.fs && (end == ProcessExited <==> p.exited)
  {
    ghost var ready := Prepared(draws, fs0) && requestQ.items == [];
    fs, sampled, end := ReadPhase(requestQ, filesAdded, threadPool, fs0, draws);
    mid := fs;
    if end == DrawsExhausted {
      return;
    }
    ready := ready && Prepared(sampled, fs0);
    if ready {
      ReadWritePools(ThruputThreads, sampled, fs0);
      assert end == Completed && requestQ.items == [];
    }
    if end != Completed {
      return;
    }
    var exited;
    fs, exited := WritePhase(requestQ, filesAdded, threadPool, fs);
    assert ready ==> !exited && requestQ.items == [] && fs.remote - Targets(sampled) == fs0.remote;
    mid := fs;
    if exited {
      return fs, sampled, ProcessExited, mid;
    }
    fs, exited := Cleanup(ThruputThreads, requestQ, filesAdded, threadPool, fs);
    assert ready ==> !exited && requestQ.items == [] && fs.remote == fs0.remote;
    mid := fs;
    if exited {
      return fs, sampled, ProcessExited, mid;
    }
    ghost var before := requestQ.items;
    EnqueueLoad(requestQ, i, loadFiles);
    assert before == [] ==> requestQ.items == MarkedLoad(i, loadFiles);
    fs, exited := RunPool(threadPool, WriteThreads, requestQ, fs);
    end := if exited then ProcessExited else Completed;
  }

  /** `main`: the trials 1 to 99 on one queue, one ledger and one 16-slot pool. */
  method RunTrials(requestQ: StringList, filesAdded: StringList, fs0: Fs,
                   draws: seq<seq<string>>, loadFiles: seq<seq<string>>)
    returns (fs: Fs, end: TrialEnd)
    requires requestQ != filesAdded && filesAdded.items == []
    requires |draws| == Trials && |loadFiles| == Trials
    modifies requestQ, filesAdded
    ensures end == Completed ==> filesAdded.items == []
  {
    var threadPool := new HdfsClient?[WriteThreads];
    fs, end := fs0, Completed;
    for i := 1 to Trials + 1
      invariant filesAdded.items == [] && end == Completed
    {
      var sampled;
      ghost var mid;
      fs, sampled, end, mid := Trial(i, requestQ, filesAdded, threadPool, fs, draws[i - 1], loadFiles[i - 1]);
      if end != Completed {
        return;
      }
    }
  }
}
