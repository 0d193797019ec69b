/** The phases the drivers queue, run by one worker from a given store: what each request
    line does, and what a whole phase over the ledger does. */
module Phases {
  import opened Common
  import opened Paths
  import opened Requests
  import opened Store
  import opened Worker
  import opened Workload
  import opened Queues

  /** How a trial ended: it ran every phase, the sampled names ran out before a fill was
      complete (the program itself would keep sampling), a worker ended the process, or the
      main thread died starting more workers than its pool has slots. */
  datatype TrialEnd = Completed | DrawsExhausted | ProcessExited | PoolOverflow

  /** The store is ready for a throughput trial over `names`: each is a plain name whose
      `/read/` file exists and whose `/throughput/` target does not. */
  predicate Prepared(names: seq<string>, fs: Fs)
  {
    forall x :: x in names ==>
      PlainName(x) && ReadDir + x in fs.remote && fs.remote[ReadDir + x].File? && WriteDir + x !in fs.remote
  }

  /** A read request for a plain name whose `/read/` file exists copies that file's bytes to
      the local file of the same name. */
  lemma ReadStep(name: string, fs: Fs)
    requires PlainName(name) && ReadDir + name in fs.remote && fs.remote[ReadDir + name].File?
    ensures StepOf(ReadRequest(name), fs) ==
      Continue(fs.(local := fs.local[name := fs.remote[ReadDir + name].data]))
  {
    ReadRequestParses(name);
    ReadDispatch(name, fs);
  }

  /** Reading an existing `/read/<name>` file stores its bytes under `<name>`. */
  lemma ReadDispatch(name: string, fs: Fs)
    requires PlainName(name) && ReadDir + name in fs.remote && fs.remote[ReadDir + name].File?
    ensures Dispatch(fs, Read(ReadDir + name)) ==
      Effect(fs.(local := fs.local[name := fs.remote[ReadDir + name].data]), Done)
  {
    BasenameAppend(ReadDir, name);
  }

  /** An add request for a plain name whose `/throughput/` file is absent copies the local
      file `./<name>` there. */
  lemma WriteStep(name: string, fs: Fs)
    requires PlainName(name) && name in fs.local && WriteDir + name !in fs.remote
    ensures StepOf(WriteRequest(name), fs) ==
      Continue(fs.(remote := fs.remote[WriteDir + name := File(fs.local[name])]))
  {
    WriteRequestParses(name);
    var dest := WriteDir + name;
    assert dest[|dest| - 1] == name[|name| - 1] != '/';
    TargetRule("./" + name, dest);
    LocalKeyDotSlash(name);
  }

  /** The read phase drains its queue, leaves the remote side alone and leaves a local copy
      of every `/read/<name>` under `<name>`. */
  lemma {:induction false} ReadsPhase(names: seq<string>, fs: Fs)
    requires forall k :: 0 <= k < |names| ==> PlainName(names[k])
    requires forall k :: 0 <= k < |names| ==>
      ReadDir + names[k] in fs.remote && fs.remote[ReadDir + names[k]].File?
    ensures var r := Execute(Each(ReadRequest, names), fs);
      && r.halt == Stopped && r.fs.remote == fs.remote
      && forall k :: 0 <= k < |names| ==>
           names[k] in r.fs.local && r.fs.local[names[k]] == fs.remote[ReadDir + names[k]].data
    decreases |names|
  {
    if names != [] {
      var init, last := names[..|names| - 1], names[|names| - 1];
      assert names == init + [last];
      assert forall k :: 0 <= k < |init| ==> init[k] == names[k];
      ReadsPhase(init, fs);
      var q1 := Each(ReadRequest, init);
      var r1 := Execute(q1, fs);
      ReadStep(last, r1.fs);
      ExecuteSnoc(q1, ReadRequest(last), fs);
      EachSnoc(ReadRequest, init, last);
    }
  }

  /** The remote paths the write phase creates. */
  function Targets(names: seq<string>): set<string>
  {
    set k | 0 <= k < |names| :: WriteDir + names[k]
  }

  /** One more name adds its target. */
  lemma TargetsSnoc(names: seq<string>, x: string)
    ensures Targets(names + [x]) == Targets(names) + {WriteDir + x}
  {
    var t := names + [x];
    assert forall k :: 0 <= k < |names| ==> t[k] == names[k];
    assert t[|names|] == x;
  }

  /** `out` is `fs` after the write phase over `names`: the local side is kept, every old
      remote path keeps its node, the only new paths are the targets, and each target holds
      the local copy of its name. */
  predicate Written(names: seq<string>, fs: Fs, out: Fs)
  {
    && out.local == fs.local
    && (forall p :: p in out.remote ==> p in fs.remote || p in Targets(names))
    && (forall p :: p in fs.remote ==> p in out.remote && out.remote[p] == fs.remote[p])
    && forall k :: 0 <= k < |names| ==>
         names[k] in fs.local && WriteDir + names[k] in out.remote
         && out.remote[WriteDir + names[k]] == File(fs.local[names[k]])
  }

  /** A name outside `names` has its target outside `Targets(names)`. */
  lemma TargetsExclude(names: seq<string>, x: string)
    requires x !in names
    ensures WriteDir + x !in Targets(names)
  {
    forall k | 0 <= k < |names|
      ensures WriteDir + names[k] != WriteDir + x
    {
      assert (WriteDir + names[k])[|WriteDir|..] == names[k];
      assert (WriteDir + x)[|WriteDir|..] == x;
    }
  }

  /** A name the write phase has not seen still has no target after it. */
  lemma WrittenFresh(names: seq<string>, x: string, fs: Fs, out: Fs)
    requires Written(names, fs, out) && x !in names && WriteDir + x !in fs.remote
    ensures WriteDir + x !in out.remote && out.local == fs.local
  {
    TargetsExclude(names, x);
  }

  /** One more add extends the write phase by one name. */
  lemma WrittenSnoc(init: seq<string>, last: string, fs: Fs, mid: Fs)
    requires Written(init, fs, mid) && last in fs.local && WriteDir + last !in fs.remote
    ensures Written(init + [last], fs, mid.(remote := mid.remote[WriteDir + last := File(mid.local[last])]))
  {
    var names := init + [last];
    var out := mid.(remote := mid.remote[WriteDir + last := File(mid.local[last])]);
    TargetsSnoc(init, last);
    forall p | p in fs.remote
      ensures p in out.remote && out.remote[p] == fs.remote[p]
    {
      assert p != WriteDir + last;
    }
    forall k | 0 <= k < |names|
      ensures names[k] in fs.local && WriteDir + names[k] in out.remote
      ensures out.remote[WriteDir + names[k]] == File(fs.local[names[k]])
    {
      if k < |init| {
        assert names[k] == init[k];
        if init[k] != last {
          assert (WriteDir + init[k])[|WriteDir|..] == init[k];
        }
      }
    }
  }

  /** The write phase over distinct plain names with local copies and absent targets drains
      its queue and puts each local copy at `/throughput/<name>`, keeping every other path. */
  lemma {:induction false} WritesPhase(names: seq<string>, fs: Fs)
    requires NoDup(names)
    requires forall k :: 0 <= k < |names| ==> PlainName(names[k]) && names[k] in fs.local
    requires forall k :: 0 <= k < |names| ==> WriteDir + names[k] !in fs.remote
    ensures Execute(Each(WriteRequest, names), fs).halt == Stopped
    ensures Written(names, fs, Execute(Each(WriteRequest, names), fs).fs)
    decreases |names|
  {
    if names != [] {
      var init, last := names[..|names| - 1], names[|names| - 1];
      assert names == init + [last];
      assert PlainName(last) && last in fs.local && WriteDir + last !in fs.remote;
      NoDupInit(names);
      assert forall k :: 0 <= k < |init| ==> init[k] == names[k];
      WritesPhase(init, fs);
      var q1 := Each(WriteRequest, init);
      var r1 := Execute(q1, fs);
      WrittenFresh(init, last, fs, r1.fs);
      WriteStep(last, r1.fs);
      ExecuteSnoc(q1, WriteRequest(last), fs);
      WrittenSnoc(init, last, fs, r1.fs);
      EachSnoc(WriteRequest, init, last);
    }
  }

  /** Read-then-add round trip: after the read phase and the write phase over the ledger,
      every `/throughput/<name>` holds the bytes of `/read/<name>`. */
  lemma ReadThenAddRoundTrip(names: seq<string>, fs: Fs)
    requires NoDup(names)
    requires forall k :: 0 <= k < |names| ==> PlainName(names[k])
    requires forall k :: 0 <= k < |names| ==>
      ReadDir + names[k] in fs.remote && fs.remote[ReadDir + names[k]].File?
    requires forall k :: 0 <= k < |names| ==> WriteDir + names[k] !in fs.remote
    ensures var r1 := Execute(Each(ReadRequest, names), fs);
      var r2 := Execute(Each(WriteRequest, names), r1.fs);
      && r1.halt == Stopped && r2.halt == Stopped
      && forall k :: 0 <= k < |names| ==>
           WriteDir + names[k] in r2.fs.remote && r2.fs.remote[WriteDir + names[k]] == fs.remote[ReadDir + names[k]]
  {
    ReadsPhase(names, fs);
    var r1 := Execute(Each(ReadRequest, names), fs);
    WritesPhase(names, r1.fs);
  }

  /** Every request this program builds from a plain name reaches a known verb: the worker
      neither returns early nor exits the process on it. */
  lemma RequestsNeverReturnOrExit(name: string, i: nat, j: nat, fs: Fs)
    requires PlainName(name)
    ensures NeverReturnsOrExits(ReadRequest(name), fs)
    ensures NeverReturnsOrExits(WriteRequest(name), fs)
    ensures NeverReturnsOrExits(DeleteRequest(name), fs)
    ensures NeverReturnsOrExits(LoadRequest(LocalPath(name), WriteDir, i, j, name), fs)
  {
    ReadRequestParses(name);
    OpNeverReturnsOrExits(ReadRequest(name), fs);
    WriteRequestParses(name);
    OpNeverReturnsOrExits(WriteRequest(name), fs);
    DeleteRequestParses(name);
    OpNeverReturnsOrExits(DeleteRequest(name), fs);
    LocalPathNoSpace(name);
    LoadRequestParses(LocalPath(name), WriteDir, i, j, name);
    OpNeverReturnsOrExits(LoadRequest(LocalPath(name), WriteDir, i, j, name), fs);
  }

  /** A delete request for a plain name removes `/throughput/<name>` if it is there; an
      absent path is reported and the loop goes on. */
  lemma DeleteStep(name: string, fs: Fs)
    requires PlainName(name)
    ensures StepOf(DeleteRequest(name), fs) == Continue(fs.(remote := fs.remote - {WriteDir + name}))
  {
    DeleteRequestParses(name);
    DeleteDispatch(name, fs);
  }

  /** Deleting `/throughput/<name>` leaves the store without that path, whether or not it
      was there, and never fails. */
  lemma DeleteDispatch(name: string, fs: Fs)
    ensures var e := Dispatch(fs, Delete(WriteDir + name));
      e.fs == fs.(remote := fs.remote - {WriteDir + name}) && (e.result == Done || e.result == NoSuchPath)
  {
    if WriteDir + name !in fs.remote {
      assert fs.remote - {WriteDir + name} == fs.remote;
    }
  }

  /** The cleanup phase over plain names drains its queue and removes exactly their
      `/throughput/` targets, whether or not they were there. */
  lemma {:induction false} CleanupPhase(names: seq<string>, fs: Fs)
    requires forall k :: 0 <= k < |names| ==> PlainName(names[k])
    ensures Execute(Each(DeleteRequest, names), fs) ==
      RunResult(|names|, fs.(remote := fs.remote - Targets(names)), Stopped)
    decreases |names|
  {
    if names == [] {
      assert fs.remote - Targets(names) == fs.remote;
    } else {
      var init, last := names[..|names| - 1], names[|names| - 1];
      assert names == init + [last];
      assert forall k :: 0 <= k < |init| ==> init[k] == names[k];
      CleanupPhase(init, fs);
      var q1 := Each(DeleteRequest, init);
      var mid := fs.(remote := fs.remote - Targets(init));
      DeleteStep(last, mid);
      ExecuteSnoc(q1, DeleteRequest(last), fs);
      EachSnoc(DeleteRequest, init, last);
      TargetsSnoc(init, last);
      RemoveInTurn(fs.remote, Targets(init), {WriteDir + last});
    }
  }

  /** Removing two sets of paths in turn removes their union. */
  lemma RemoveInTurn(m: map<string, Node>, a: set<string>, b: set<string>)
    ensures (m - a) - b == m - (a + b)
  {
  }

  /** Removing the targets after the write phase gives back the remote store it started from,
      when none of the targets was there before. */
  lemma WrittenUndone(names: seq<string>, fs: Fs, out: Fs)
    requires Written(names, fs, out)
    requires forall k :: 0 <= k < |names| ==> WriteDir + names[k] !in fs.remote
    ensures out.remote - Targets(names) == fs.remote
  {
    assert forall p :: p in Targets(names) ==> p !in fs.remote;
    assert (out.remote - Targets(names)).Keys == fs.remote.Keys;
  }

  /** The first three phases of a throughput trial leave the remote store as they found it:
      the reads change nothing there, the adds create exactly the targets, and the cleanup
      removes exactly those. */
  lemma ThroughputCycle(names: seq<string>, fs: Fs)
    requires NoDup(names)
    requires forall k :: 0 <= k < |names| ==> PlainName(names[k])
    requires forall k :: 0 <= k < |names| ==>
      ReadDir + names[k] in fs.remote && fs.remote[ReadDir + names[k]].File?
    requires forall k :: 0 <= k < |names| ==> WriteDir + names[k] !in fs.remote
    ensures var r1 := Execute(Each(ReadRequest, names), fs);
      var r2 := Execute(Each(WriteRequest, names), r1.fs);
      var r3 := Execute(Each(DeleteRequest, names), r2.fs);
      r3.halt == Stopped && r3.fs.remote == fs.remote
  {
    ReadsPhase(names, fs);
    var r1 := Execute(Each(ReadRequest, names), fs);
    WritesPhase(names, r1.fs);
    var r2 := Execute(Each(WriteRequest, names), r1.fs);
    CleanupPhase(names, r2.fs);
    WrittenUndone(names, r1.fs, r2.fs);
  }

  /** A pool of `n` workers runs the read phase and then the write phase of a prepared
      ledger without ending early: each phase is drained by the first worker, and removing
      the targets afterwards gives back the remote store. */
  lemma ReadWritePools(n: nat, names: seq<string>, fs: Fs)
    requires n >= 1 && NoDup(names) && Prepared(names, fs)
    ensures var p1 := ExecutePool(n, Each(ReadRequest, names), fs);
      var p2 := ExecutePool(n, Each(WriteRequest, names), p1.fs);
      && p1.polled == |names| && !p1.exited && p2.polled == |names| && !p2.exited
      && p2.fs.remote - Targets(names) == fs.remote
  {
    assert forall k :: 0 <= k < |names| ==> names[k] in names;
    ReadsPhase(names, fs);
    var q1 := Each(ReadRequest, names);
    PoolDrains(n, q1, fs);
    var f1 := Execute(q1, fs).fs;
    WritesPhase(names, f1);
    var q2 := Each(WriteRequest, names);
    PoolDrains(n, q2, f1);
    WrittenUndone(names, f1, Execute(q2, f1).fs);
  }

  /** A pool of `n` workers drains the cleanup phase and removes exactly the targets. */
  lemma CleanupPool(n: nat, names: seq<string>, fs: Fs)
    requires n >= 1 && forall x :: x in names ==> PlainName(x)
    ensures ExecutePool(n, Each(DeleteRequest, names), fs) ==
      PoolRun(|names|, fs.(remote := fs.remote - Targets(names)), false)
  {
    assert forall k :: 0 <= k < |names| ==> names[k] in names;
    CleanupPhase(names, fs);
    PoolDrains(n, Each(DeleteRequest, names), fs);
  }

  /** A mixed add for a plain name whose local copy `read/<name>` exists and whose
      `/throughput/` target is absent uploads that copy to the target. */
  lemma MixedAddStep(name: string, fs: Fs)
    requires PlainName(name) && "read/" + name in fs.local && WriteDir + name !in fs.remote
    ensures StepOf(MixedAddRequest(name), fs) ==
      Continue(fs.(remote := fs.remote[WriteDir + name := File(fs.local["read/" + name])]))
  {
    MixedAddRequestParses(name);
    MixedAddDispatch(name, fs);
  }

  /** Adding `./read/<name>` to an absent `/throughput/<name>` uploads the local file
      `read/<name>`. */
  lemma MixedAddDispatch(name: string, fs: Fs)
    requires PlainName(name) && "read/" + name in fs.local && WriteDir + name !in fs.remote
    ensures Dispatch(fs, Add("./read/" + name, WriteDir + name)) ==
      Effect(fs.(remote := fs.remote[WriteDir + name := File(fs.local["read/" + name])]), Done)
  {
    var dest := WriteDir + name;
    assert dest[|dest| - 1] == name[|name| - 1] != '/';
    TargetRule("./read/" + name, dest);
    assert "./read/" + name == "./" + ("read/" + name);
    LocalKeyDotSlash("read/" + name);
  }

  /** The store is ready for a mixed phase over `names` and `coins`: each name is plain and
      its `/throughput/` target is absent; a name the coin sends to a read has its `/read/`
      file, and a name it sends to an add has its local copy `read/<name>`. */
  predicate MixedPrepared(names: seq<string>, coins: seq<real>, fs: Fs)
    requires |coins| >= |names|
  {
    forall k :: 0 <= k < |names| ==>
      && PlainName(names[k]) && WriteDir + names[k] !in fs.remote
      && (coins[k] < ProbRead ==> ReadDir + names[k] in fs.remote && fs.remote[ReadDir + names[k]].File?)
      && (coins[k] >= ProbRead ==> "read/" + names[k] in fs.local)
  }

  /** Every old remote path keeps its node, and the only new ones are targets of `names`. */
  predicate RemoteGrown(names: seq<string>, fs: Fs, out: Fs)
  {
    && (forall p :: p in fs.remote ==> p in out.remote && out.remote[p] == fs.remote[p])
    && (forall p :: p in out.remote ==> p in fs.remote || p in Targets(names))
  }

  /** Local files other than the names keep their bytes. */
  predicate LocalKept(names: seq<string>, fs: Fs, out: Fs)
  {
    forall x :: x in fs.local && x !in names ==> x in out.local && out.local[x] == fs.local[x]
  }

  /** Each name the coins sent to an add has its local copy `read/<name>` at its target. */
  predicate Uploaded(names: seq<string>, coins: seq<real>, fs: Fs, out: Fs)
    requires |coins| >= |names|
  {
    forall k :: 0 <= k < |names| && coins[k] >= ProbRead ==>
      && "read/" + names[k] in fs.local && WriteDir + names[k] in out.remote
      && out.remote[WriteDir + names[k]] == File(fs.local["read/" + names[k]])
  }

  /** Each name the coins sent to a read has the bytes of its `/read/` file in the local file
      of that name. */
  predicate Copied(names: seq<string>, coins: seq<real>, fs: Fs, out: Fs)
    requires |coins| >= |names|
  {
    forall k :: 0 <= k < |names| && coins[k] < ProbRead ==>
      && ReadDir + names[k] in fs.remote && fs.remote[ReadDir + names[k]].File?
      && names[k] in out.local && out.local[names[k]] == fs.remote[ReadDir + names[k]].data
  }

  /** `out` is `fs` after the mixed phase over `names`: the remote side grew by targets only,
      local files other than the names are kept, each add put its local copy at its target,
      and each read left the `/read/` bytes under the name. */
  predicate MixedDone(names: seq<string>, coins: seq<real>, fs: Fs, out: Fs)
    requires |coins| >= |names|
  {
    RemoteGrown(names, fs, out) && LocalKept(names, fs, out) && Uploaded(names, coins, fs, out) && Copied(names, coins, fs, out)
  }

  /** Before the next name of the mixed phase, its target is still absent and its local copy
      `read/<name>` still holds what it held at the start. */
  lemma MixedDoneFresh(init: seq<string>, last: string, coins: seq<real>, fs: Fs, mid: Fs)
    requires |coins| >= |init| && MixedDone(init, coins, fs, mid)
    requires forall x :: x in init ==> PlainName(x)
    requires last !in init && WriteDir + last !in fs.remote
    ensures WriteDir + last !in mid.remote
    ensures "read/" + last in fs.local ==> "read/" + last in mid.local && mid.local["read/" + last] == fs.local["read/" + last]
  {
    TargetsExclude(init, last);
  }

  /** A step that touches only the local side keeps the remote side grown by targets only. */
  lemma RemoteGrownLocalStep(init: seq<string>, last: string, fs: Fs, mid: Fs, out: Fs)
    requires RemoteGrown(init, fs, mid) && out.remote == mid.remote
    ensures RemoteGrown(init + [last], fs, out)
  {
    TargetsSnoc(init, last);
  }

  /** An upload to the next name's absent target grows the remote side by that target. */
  lemma RemoteGrownUpload(init: seq<string>, last: string, fs: Fs, mid: Fs, data: seq<byte>)
    requires RemoteGrown(init, fs, mid) && WriteDir + last !in fs.remote
    ensures RemoteGrown(init + [last], fs, mid.(remote := mid.remote[WriteDir + last := File(data)]))
  {
    TargetsSnoc(init, last);
  }

  /** A write of the next name's local file keeps every other local file. */
  lemma LocalKeptWrite(init: seq<string>, last: string, fs: Fs, mid: Fs, data: seq<byte>)
    requires LocalKept(init, fs, mid)
    ensures LocalKept(init + [last], fs, mid.(local := mid.local[last := data]))
  {
    forall x | x in fs.local && x !in init + [last]
      ensures x in mid.local[last := data] && mid.local[last := data][x] == fs.local[x]
    {
      assert x !in init && x != last;
    }
  }

  /** A step that keeps the local side and adds to the remote side keeps local files. */
  lemma LocalKeptRemoteStep(init: seq<string>, last: string, fs: Fs, mid: Fs, out: Fs)
    requires LocalKept(init, fs, mid) && out.local == mid.local
    ensures LocalKept(init + [last], fs, out)
  {
    forall x | x in fs.local && x !in init + [last]
      ensures x in out.local && out.local[x] == fs.local[x]
    {
      assert x !in init;
    }
  }

  /** A read for the next name leaves earlier uploads where they are. */
  lemma UploadedRead(init: seq<string>, last: string, coins: seq<real>, fs: Fs, mid: Fs, out: Fs)
    requires |coins| > |init| && coins[|init|] < ProbRead
    requires Uploaded(init, coins, fs, mid) && out.remote == mid.remote
    ensures Uploaded(init + [last], coins, fs, out)
  {
    var names := init + [last];
    forall k | 0 <= k < |names| && coins[k] >= ProbRead
      ensures "read/" + names[k] in fs.local && WriteDir + names[k] in out.remote
      ensures out.remote[WriteDir + names[k]] == File(fs.local["read/" + names[k]])
    {
      assert k < |init| && names[k] == init[k];
    }
  }

  /** An upload for the next name keeps earlier uploads and adds its own. */
  lemma UploadedAdd(init: seq<string>, last: string, coins: seq<real>, fs: Fs, mid: Fs)
    requires |coins| > |init| && coins[|init|] >= ProbRead && "read/" + last in fs.local
    requires Uploaded(init, coins, fs, mid)
    ensures Uploaded(init + [last], coins, fs, mid.(remote := mid.remote[WriteDir + last := File(fs.local["read/" + last])]))
  {
    var names := init + [last];
    var out := mid.(remote := mid.remote[WriteDir + last := File(fs.local["read/" + last])]);
    forall k | 0 <= k < |names| && coins[k] >= ProbRead
      ensures "read/" + names[k] in fs.local && WriteDir + names[k] in out.remote
      ensures out.remote[WriteDir + names[k]] == File(fs.local["read/" + names[k]])
    {
      if k < |init| {
        assert names[k] == init[k];
        if init[k] != last {
          assert (WriteDir + init[k])[|WriteDir|..] == init[k];
        }
      }
    }
  }

  /** A read for the next name keeps earlier local copies and adds its own. */
  lemma CopiedRead(init: seq<string>, last: string, coins: seq<real>, fs: Fs, mid: Fs)
    requires |coins| > |init| && coins[|init|] < ProbRead && last !in init
    requires ReadDir + last in fs.remote && fs.remote[ReadDir + last].File?
    requires Copied(init, coins, fs, mid)
    ensures Copied(init + [last], coins, fs, mid.(local := mid.local[last := fs.remote[ReadDir + last].data]))
  {
    var names := init + [last];
    var out := mid.(local := mid.local[last := fs.remote[ReadDir + last].data]);
    forall k | 0 <= k < |names| && coins[k] < ProbRead
      ensures ReadDir + names[k] in fs.remote && fs.remote[ReadDir + names[k]].File?
      ensures names[k] in out.local && out.local[names[k]] == fs.remote[ReadDir + names[k]].data
    {
      if k < |init| {
        assert names[k] == init[k] && init[k] in init;
      }
    }
  }

  /** An upload for the next name leaves earlier local copies where they are. */
  lemma CopiedAdd(init: seq<string>, last: string, coins: seq<real>, fs: Fs, mid: Fs, out: Fs)
    requires |coins| > |init| && coins[|init|] >= ProbRead
    requires Copied(init, coins, fs, mid) && out.local == mid.local
    ensures Copied(init + [last], coins, fs, out)
  {
    var names := init + [last];
    forall k | 0 <= k < |names| && coins[k] < ProbRead
      ensures ReadDir + names[k] in fs.remote && fs.remote[ReadDir + names[k]].File?
      ensures names[k] in out.local && out.local[names[k]] == fs.remote[ReadDir + names[k]].data
    {
      assert k < |init| && names[k] == init[k];
    }
  }

  /** One more read extends the mixed phase by one name. */
  lemma MixedDoneRead(init: seq<string>, last: string, coins: seq<real>, fs: Fs, mid: Fs)
    requires |coins| > |init| && coins[|init|] < ProbRead && MixedDone(init, coins, fs, mid)
    requires last !in init && ReadDir + last in fs.remote && fs.remote[ReadDir + last].File?
    ensures MixedDone(init + [last], coins, fs, mid.(local := mid.local[last := mid.remote[ReadDir + last].data]))
  {
    var data := fs.remote[ReadDir + last].data;
    assert mid.remote[ReadDir + last].data == data;
    var out := mid.(local := mid.local[last := data]);
    RemoteGrownLocalStep(init, last, fs, mid, out);
    LocalKeptWrite(init, last, fs, mid, data);
    UploadedRead(init, last, coins, fs, mid, out);
    CopiedRead(init, last, coins, fs, mid);
  }

  /** One more add extends the mixed phase by one name. */
  lemma MixedDoneAdd(init: seq<string>, last: string, coins: seq<real>, fs: Fs, mid: Fs)
    requires |coins| > |init| && coins[|init|] >= ProbRead && MixedDone(init, coins, fs, mid)
    requires last !in init && "read/" + last in fs.local && WriteDir + last !in fs.remote
    requires "read/" + last in mid.local && mid.local["read/" + last] == fs.local["read/" + last]
    ensures MixedDone(init + [last], coins, fs, mid.(remote := mid.remote[WriteDir + last := File(mid.local["read/" + last])]))
  {
    var data := fs.local["read/" + last];
    var out := mid.(remote := mid.remote[WriteDir + last := File(data)]);
    RemoteGrownUpload(init, last, fs, mid, data);
    LocalKeptRemoteStep(init, last, fs, mid, out);
    UploadedAdd(init, last, coins, fs, mid);
    CopiedAdd(init, last, coins, fs, mid, out);
  }

  /** The mixed phase over distinct names of a prepared store drains its queue: every read
      copies its `/read/` file to the working directory and every add uploads its local copy
      to its target, and nothing else on the remote side changes. */
  lemma {:induction false} MixedPhaseRuns(names: seq<string>, coins: seq<real>, fs: Fs)
    requires |coins| >= |names| && NoDup(names) && MixedPrepared(names, coins, fs)
    ensures Execute(MixedRequests(names, coins), fs).halt == Stopped
    ensures MixedDone(names, coins, fs, Execute(MixedRequests(names, coins), fs).fs)
    decreases |names|
  {
    if names == [] {
      assert Targets(names) == {};
    } else {
      var init, last := names[..|names| - 1], names[|names| - 1];
      assert names == init + [last];
      NoDupInit(names);
      assert forall k :: 0 <= k < |init| ==> init[k] == names[k];
      assert forall x :: x in init ==> PlainName(x);
      MixedPhaseRuns(init, coins, fs);
      var q1 := MixedRequests(init, coins);
      var mid := Execute(q1, fs).fs;
      MixedRequestsSnoc(init, last, coins);
      MixedDoneFresh(init, last, coins, fs, mid);
      if coins[|init|] < ProbRead {
        ReadStep(last, mid);
        ExecuteSnoc(q1, ReadRequest(last), fs);
        MixedDoneRead(init, last, coins, fs, mid);
      } else {
        MixedAddStep(last, mid);
        ExecuteSnoc(q1, MixedAddRequest(last), fs);
        MixedDoneAdd(init, last, coins, fs, mid);
      }
    }
  }

  /** Removing the targets after the mixed phase gives back the remote store it started
      from, when none of the targets was there before. */
  lemma MixedUndone(names: seq<string>, coins: seq<real>, fs: Fs, out: Fs)
    requires |coins| >= |names| && MixedDone(names, coins, fs, out)
    requires forall k :: 0 <= k < |names| ==> WriteDir + names[k] !in fs.remote
    ensures out.remote - Targets(names) == fs.remote
  {
    assert forall p :: p in Targets(names) ==> p !in fs.remote;
    assert (out.remote - Targets(names)).Keys == fs.remote.Keys;
  }

  /** A pool of `n` workers on the mixed phase of a prepared store: the first worker drains
      it and the others find the queue empty. */
  lemma MixedPool(n: nat, names: seq<string>, coins: seq<real>, fs: Fs)
    requires n >= 1 && |coins| >= |names| && NoDup(names) && MixedPrepared(names, coins, fs)
    ensures var p := ExecutePool(n, MixedRequests(names, coins), fs);
      && p.polled == |names| && !p.exited && MixedDone(names, coins, fs, p.fs)
      && p.fs.remote - Targets(names) == fs.remote
  {
    MixedPhaseRuns(names, coins, fs);
    PoolDrains(n, MixedRequests(names, coins), fs);
    MixedUndone(names, coins, fs, Execute(MixedRequests(names, coins), fs).fs);
  }

  /** The cleanup of a trial: the ledger drain, then a pool of `n` workers. Whatever it
      finds, the ledger ends empty; on an empty queue and a ledger of plain names the pool
      drains the deletes and removes exactly the targets. */
  method Cleanup(n: nat, requestQ: StringList, filesAdded: StringList, threadPool: array<HdfsClient?>, fs0: Fs)
    returns (fs: Fs, exited: bool)
    requires requestQ != filesAdded
    requires 1 <= n <= threadPool.Length
    modifies requestQ, filesAdded, threadPool
    ensures filesAdded.items == []
    ensures old(requestQ.items) == [] && (forall x :: x in old(filesAdded.items) ==> PlainName(x)) ==>
      !exited && requestQ.items == [] && fs.remote == fs0.remote - Targets(old(filesAdded.items))
  {
    ghost var ledger := filesAdded.items;
    ghost var ready := requestQ.items == [] && forall x :: x in ledger ==> PlainName(x);
    fs := DrainLedger(filesAdded, requestQ, fs0);
    ghost var p := ExecutePool(n, Each(DeleteRequest, ledger), fs);
    if ready {
      assert requestQ.items == Each(DeleteRequest, ledger);
      CleanupPool(n, ledger, fs);
    }
    fs, exited := RunPool(threadPool, n, requestQ, fs);
    assert ready ==> exited == p.exited && fs == p.fs && requestQ.items == Each(DeleteRequest, ledger)[p.polled..];
  }

  /** The mixed fill of `count` fresh names and a pool of `n` workers. From an empty queue the
      pool runs the mixed requests of the new ledger. */
  method MixedPhase(n: nat, count: nat, requestQ: StringList, filesAdded: StringList,
                    threadPool: array<HdfsClient?>, fs0: Fs, draws: seq<string>, coins: seq<real>)
    returns (fs: Fs, sampled: seq<string>, end: TrialEnd)
    requires requestQ != filesAdded && filesAdded.items == []
    requires n <= threadPool.Length && |coins| >= count
    modifies requestQ, filesAdded, threadPool
    ensures end != PoolOverflow
    ensures end != DrawsExhausted ==> |sampled| == count && NoDup(sampled) && filesAdded.items == sampled
    ensures forall x :: x in sampled ==> x in draws
    ensures old(requestQ.items) == [] && end != DrawsExhausted ==>
      var p := ExecutePool(n, MixedRequests(sampled, coins), fs0);
      && fs == p.fs && (end == ProcessExited <==> p.exited)
      && requestQ.items == MixedRequests(sampled, coins)[p.polled..]
  {
    fs, sampled := fs0, [];
    ghost var empty := requestQ.items == [];
    var used, filled := FillMixed(requestQ, filesAdded, draws, coins, count);
    if !filled {
      return fs, sampled, DrawsExhausted;
    }
    sampled := filesAdded.items;
    AdmittedNoDup([], draws[..used]);
    assert sampled == [] + Admitted([], draws[..used]);
    assert sampled == Admitted([], draws[..used]);
    assert forall x :: x in draws[..used] ==> x in draws;
    ghost var q := MixedRequests(sampled, coins);
    if empty {
      assert requestQ.items == [] + q;
      assert requestQ.items == q;
    }
    ghost var p := ExecutePool(n, q, fs0);
    var exited;
    fs, exited := RunPool(threadPool, n, requestQ, fs);
    assert empty ==> fs == p.fs && exited == p.exited && requestQ.items == q[p.polled..];
    end := if exited then ProcessExited else Completed;
  }
}
