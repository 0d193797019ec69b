/** MetadataSizeTest: 32 workers started on the empty queue, then 99 trials of 5000 uploads to
    `/bigmdst/` under unique names, with a `DONE` marker after every hundredth upload that
    carries the running count over all trials. */
module MetadataSizeTest {
  import opened Common
  import opened Decimal
  import opened Requests
  import opened Store
  import opened Queues
  import opened Worker
  import opened Workload

  const PrintInterval: nat := 100
  const ClientThreads: nat := 32
  const Files: nat := 5000
  const Trials: nat := 99
  const FileDir: string := "/bigmdst/"

  /** The count the marker after the `j`-th upload of trial `i` carries. */
  function Label(i: nat, j: nat): nat
    requires i >= 1
  {
    j + (i - 1) * Files
  }

  /** The lines trial `i` queues for `files`: the upload of the `j`-th file, followed by
      `DONE <Label(i, j)>` when `j` is a multiple of the print interval. */
  function MetaLoad(i: nat, files: seq<string>): seq<string>
    requires i >= 1
    decreases |files|
  {
    if files == [] then []
    else
      var j := |files|;
      MetaLoad(i, files[..j - 1])
        + [LoadRequest(LocalPath(files[j - 1]), FileDir, i, j, files[j - 1])]
        + (if j % PrintInterval == 0 then [DoneMarker(Label(i, j))] else [])
  }

  /** A trial holds one upload per file and one marker per full interval: 5050 lines for
      5000 files. */
  lemma {:induction false} MetaLoadLength(i: nat, files: seq<string>)
    requires i >= 1
    ensures |MetaLoad(i, files)| == |files| + |files| / PrintInterval
    decreases |files|
  {
    if files != [] {
      var j := |files|;
      MetaLoadLength(i, files[..j - 1]);
      assert (j - 1) / 100 + (if j % 100 == 0 then 1 else 0) == j / 100;
    }
  }

  /** Queuing fewer files yields a prefix of the same lines. */
  lemma {:induction false} MetaLoadPrefix(i: nat, files: seq<string>, m: nat)
    requires i >= 1 && m <= |files|
    ensures MetaLoad(i, files[..m]) <= MetaLoad(i, files)
    decreases |files|
  {
    if m < |files| {
      var init := files[..|files| - 1];
      MetaLoadPrefix(i, init, m);
      assert init[..m] == files[..m];
    } else {
      assert files[..m] == files;
    }
  }

  /** The last file's upload closes the trial's lines, followed only by its marker when the
      count is a multiple of the print interval. */
  lemma MetaLoadLast(i: nat, files: seq<string>)
    requires i >= 1 && files != []
    ensures var r := MetaLoad(i, files); var j := |files|; var at := j - 1 + (j - 1) / PrintInterval;
      && |r| == at + 1 + (if j % PrintInterval == 0 then 1 else 0)
      && r[at] == LoadRequest(LocalPath(files[j - 1]), FileDir, i, j, files[j - 1])
      && (j % PrintInterval == 0 ==> r[at + 1] == DoneMarker(Label(i, j)))
  {
    var j := |files|;
    MetaLoadLength(i, files[..j - 1]);
  }

  /** Where the `j`-th upload sits, and that the marker carrying `Label(i, j)` follows it
      when `j` is a multiple of the print interval. */
  lemma MetaLoadAt(i: nat, files: seq<string>, j: nat)
    requires i >= 1 && 1 <= j <= |files|
    ensures var r := MetaLoad(i, files); var at := j - 1 + (j - 1) / PrintInterval;
      && at < |r|
      && r[at] == LoadRequest(LocalPath(files[j - 1]), FileDir, i, j, files[j - 1])
      && (j % PrintInterval == 0 ==> at + 1 < |r| && r[at + 1] == DoneMarker(Label(i, j)))
  {
    var r, p := MetaLoad(i, files), files[..j];
    var at := j - 1 + (j - 1) / PrintInterval;
    MetaLoadPrefix(i, files, j);
    MetaLoadLast(i, p);
    assert p[j - 1] == files[j - 1];
    var q := MetaLoad(i, p);
    assert q[at] == r[at];
    if j % PrintInterval == 0 {
      assert q[at + 1] == r[at + 1];
    }
  }

  /** A marker follows the `j`-th upload only when `j` is a multiple of the print interval:
      otherwise the next line, if any, is the next upload. */
  lemma MarkerOnlyAtInterval(i: nat, files: seq<string>, j: nat)
    requires i >= 1 && 1 <= j <= |files|
    ensures var r := MetaLoad(i, files); var at := j - 1 + (j - 1) / PrintInterval;
      at + 1 < |r| && IsMarker(r[at + 1]) <==> j % PrintInterval == 0
  {
    MetaLoadAt(i, files, j);
    if j % PrintInterval == 0 {
      DoneMarkerIsMarker(Label(i, j));
    } else if j < |files| {
      MetaLoadAt(i, files, j + 1);
      assert (j - 1) / PrintInterval == j / PrintInterval;
      LoadRequestNotMarker(LocalPath(files[j]), FileDir, i, j + 1, files[j]);
    } else {
      MetaLoadLength(i, files);
    }
  }

  /** Marker counts grow strictly along the run: trial by trial, and within a trial file by
      file, so no two markers of the run carry the same count. */
  lemma LabelsIncrease(i: nat, j: nat, i2: nat, j2: nat)
    requires 1 <= i && 1 <= i2 && 1 <= j <= Files && 1 <= j2 <= Files
    requires i < i2 || (i == i2 && j < j2)
    ensures Label(i, j) < Label(i2, j2)
  {
    if i < i2 {
      assert (i - 1) * Files + Files <= (i2 - 1) * Files;
    }
  }

  /** Distinct counts give distinct markers. */
  lemma DoneMarkersDistinct(k: nat, k2: nat)
    requires k != k2
    ensures DoneMarker(k) != DoneMarker(k2)
  {
    if DoneMarker(k) == DoneMarker(k2) {
      assert DoneMarker(k)[5..] == Numeral(k) && DoneMarker(k2)[5..] == Numeral(k2);
      ValueOfNumeral(k);
      ValueOfNumeral(k2);
    }
  }

  /** Uploads of different (trial, file) pairs of the run go to different paths. */
  lemma UploadPathsDistinct(i: nat, j: nat, name: string, i2: nat, j2: nat, name2: string)
    requires 1 <= i <= Trials && 1 <= i2 <= Trials && 1 <= j <= Files && 1 <= j2 <= Files
    requires i != i2 || j != j2
    ensures UniquePath(FileDir, i, j, name) != UniquePath(FileDir, i2, j2, name2)
  {
    UniquePathsDistinct(FileDir, i, j, name, i2, j2, name2);
  }

  /** The lines of trials 1 to `n`, in order. */
  function AllTrials(files: seq<seq<string>>, n: nat): seq<string>
    requires n <= |files|
  {
    if n == 0 then [] else AllTrials(files, n - 1) + MetaLoad(n, files[n - 1])
  }

  /** With 5000 files per trial, the run queues 5050 lines per trial. */
  lemma {:induction false} AllTrialsLength(files: seq<seq<string>>, n: nat)
    requires n <= |files| && forall t :: 0 <= t < |files| ==> |files[t]| == Files
    ensures |AllTrials(files, n)| == n * (Files + Files / PrintInterval)
  {
    if n > 0 {
      AllTrialsLength(files, n - 1);
      MetaLoadLength(n, files[n - 1]);
    }
  }

  /** Generating the `j`-th file appends its upload and, if due, its marker. */
  lemma MetaLoadSnoc(i: nat, files: seq<string>, j: nat)
    requires i >= 1 && 1 <= j <= |files|
    ensures MetaLoad(i, files[..j]) == MetaLoad(i, files[..j - 1])
      + [LoadRequest(LocalPath(files[j - 1]), FileDir, i, j, files[j - 1])]
      + (if j % PrintInterval == 0 then [DoneMarker(Label(i, j))] else [])
  {
    assert files[..j][..j - 1] == files[..j - 1] && files[..j][j - 1] == files[j - 1];
  }

  /** The lines of trial `i`, queued in order. */
  method EnqueueTrial(requestQ: StringList, i: nat, files: seq<string>)
    requires i >= 1
    modifies requestQ
    ensures requestQ.items == old(requestQ.items) + MetaLoad(i, files)
  {
    ghost var queue := requestQ.items;
    for j := 1 to |files| + 1
      invariant requestQ.items == queue + MetaLoad(i, files[..j - 1])
    {
      MetaLoadSnoc(i, files, j);
      var name := files[j - 1];
      var request := LoadRequest(LocalPath(name), FileDir, i, j, name);
      ghost var before := requestQ.items;
      ghost var added := [request] + (if j % PrintInterval == 0 then [DoneMarker(Label(i, j))] else []);
      assert MetaLoad(i, files[..j]) == MetaLoad(i, files[..j - 1]) + added;
      requestQ.Offer(request);
      if j % PrintInterval == 0 {
        requestQ.Offer(DoneMarker(Label(i, j)));
      }
      assert requestQ.items == before + added;
      AppendAssoc(queue, MetaLoad(i, files[..j - 1]), added);
    }
    assert files[..|files|] == files;
  }

  /** The 32 workers, started one after another on the still empty queue: each finds it
      empty and stops, leaving the store as it was. */
  method StartClients(requestQ: StringList, fs0: Fs) returns (fs: Fs, exited: bool)
    requires requestQ.items == []
    modifies requestQ
    ensures fs == fs0 && !exited && requestQ.items == []
  {
    var threadPool := new HdfsClient?[ClientThreads];
    EmptyPool(ClientThreads, fs0);
    fs, exited := RunPool(threadPool, ClientThreads, requestQ, fs0);
  }

  /** The 99 trials, queued in order on the empty queue. */
  method EnqueueAll(requestQ: StringList, files: seq<seq<string>>)
    requires |files| == Trials && requestQ.items == []
    modifies requestQ
    ensures requestQ.items == AllTrials(files, Trials)
  {
    for i := 1 to Trials + 1
      invariant requestQ.items == AllTrials(files, i - 1)
    {
      ghost var before := requestQ.items;
      ghost var load := MetaLoad(i, files[i - 1]);
      EnqueueTrial(requestQ, i, files[i - 1]);
      assert AllTrials(files, i) == AllTrials(files, i - 1) + load;
      assert requestQ.items == before + load;
    }
  }

  /** `main`, one worker after another: the workers start on the still empty queue, find it
      empty and stop, then the trials queue their lines, which no worker is left to poll. */
  method RunTrials(fs0: Fs, files: seq<seq<string>>) returns (requestQ: StringList, fs: Fs, exited: bool)
    requires |files| == Trials
    ensures fs == fs0 && !exited
    ensures requestQ.items == AllTrials(files, Trials)
  {
    requestQ := new StringList();
    fs, exited := StartClients(requestQ, fs0);
    EnqueueAll(requestQ, files);
  }
}
