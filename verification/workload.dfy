/** What the test drivers put on the request queue, and the `filesAdded` ledger they keep of
    the names they sampled. */
module Workload {
  import opened Common
  import opened Decimal
  import opened Paths
  import opened Requests
  import opened Store
  import opened Queues

  /** The remote directory the read requests read from. */
  const ReadDir: string := "/read/"
  /** The remote directory the write, delete and load requests write to. */
  const WriteDir: string := "/throughput/"
  /** The local directory the load phase uploads from. */
  const LocalWriteDir: string := "/usr/local/hadoop/test/tmp10B"
  /** The load phase puts a marker on the queue once every this many adds. */
  const MarkerInterval: nat := 1000
  /** The probability that a mixed fill makes a read rather than an add. */
  const ProbRead: real := 0.8

  /** A sampled name the protocol carries as one token and the store treats as a plain file
      name. */
  predicate PlainName(name: string)
  {
    name != "" && NoSpace(name) && '/' !in name
  }

  function ReadRequest(name: string): string
  {
    "read " + (ReadDir + name)
  }

  function WriteRequest(name: string): string
  {
    "add " + ("./" + name) + " " + (WriteDir + name)
  }

  function MixedAddRequest(name: string): string
  {
    "add " + ("./read/" + name) + " " + (WriteDir + name)
  }

  function DeleteRequest(name: string): string
  {
    "delete " + (WriteDir + name)
  }

  function BlockRequest(name: string): string
  {
    "getblocklocations " + (ReadDir + name)
  }

  /** `dir + String.format("%02d", i) + String.format("%05d", j) + name`. */
  function UniquePath(dir: string, i: nat, j: nat, name: string): string
  {
    dir + ZeroPad(i, 2) + ZeroPad(j, 5) + name
  }

  function LoadRequest(abs: string, dir: string, i: nat, j: nat, name: string): string
  {
    "add " + abs + " " + UniquePath(dir, i, j, name)
  }

  /** `"DONE " + k`. */
  function DoneMarker(k: nat): string
  {
    "DONE " + Numeral(k)
  }

  /** The request of a mixed fill: a read when the coin falls below `ProbRead`, else an add. */
  function MixedRequest(name: string, coin: real): string
  {
    if coin < ProbRead then ReadRequest(name) else MixedAddRequest(name)
  }

  /** One-argument requests reach their verb for any name, and carry the exact path when the
      name has no space. */
  lemma ReadRequestParses(name: string)
    ensures Parse(ReadRequest(name)).Op? && Parse(ReadRequest(name)).cmd.Read?
    ensures NoSpace(name) ==> Parse(ReadRequest(name)) == Op(Read(ReadDir + name))
  {
    var rest := ReadDir + name;
    assert ReadRequest(name) == "read" + " " + rest;
    ParseVerbLine("read", rest);
    if NoSpace(name) {
      SplitNoSpace(rest, 2);
    }
  }

  lemma DeleteRequestParses(name: string)
    ensures Parse(DeleteRequest(name)).Op? && Parse(DeleteRequest(name)).cmd.Delete?
    ensures NoSpace(name) ==> Parse(DeleteRequest(name)) == Op(Delete(WriteDir + name))
  {
    var rest := WriteDir + name;
    assert DeleteRequest(name) == "delete" + " " + rest;
    ParseVerbLine("delete", rest);
    if NoSpace(name) {
      SplitNoSpace(rest, 2);
    }
  }

  lemma BlockRequestParses(name: string)
    ensures Parse(BlockRequest(name)).Op? && Parse(BlockRequest(name)).cmd.GetBlockLocations?
    ensures NoSpace(name) ==> Parse(BlockRequest(name)) == Op(GetBlockLocations(ReadDir + name))
  {
    var rest := ReadDir + name;
    assert BlockRequest(name) == "getblocklocations" + " " + rest;
    ParseVerbLine("getblocklocations", rest);
    if NoSpace(name) {
      SplitNoSpace(rest, 2);
    }
  }

  /** An `add` line whose source token has no space parses to that source and the whole rest
      of the line as the destination. */
  lemma AddLineParses(source: string, dest: string)
    requires NoSpace(source)
    ensures Parse("add " + source + " " + dest) == Op(Add(source, dest))
  {
    var rest := source + " " + dest;
    assert "add " + source + " " + dest == "add" + " " + rest;
    ParseVerbLine("add", rest);
    SplitAfterWord(source, dest, 2);
  }

  /** An `add` line with a space after its source always has three tokens. */
  lemma AddLineIsAdd(source: string, dest: string)
    ensures Parse("add " + source + " " + dest).Op? && Parse("add " + source + " " + dest).cmd.Add?
  {
    var rest := source + " " + dest;
    assert "add " + source + " " + dest == "add" + " " + rest;
    ParseVerbLine("add", rest);
    assert rest[|source|] == ' ';
    SplitAtSpace(rest, 2);
  }

  lemma WriteRequestParses(name: string)
    ensures Parse(WriteRequest(name)).Op? && Parse(WriteRequest(name)).cmd.Add?
    ensures NoSpace(name) ==> Parse(WriteRequest(name)) == Op(Add("./" + name, WriteDir + name))
  {
    AddLineIsAdd("./" + name, WriteDir + name);
    if NoSpace(name) {
      AddLineParses("./" + name, WriteDir + name);
    }
  }

  lemma MixedAddRequestParses(name: string)
    ensures Parse(MixedAddRequest(name)).Op? && Parse(MixedAddRequest(name)).cmd.Add?
    ensures NoSpace(name) ==> Parse(MixedAddRequest(name)) == Op(Add("./read/" + name, WriteDir + name))
  {
    AddLineIsAdd("./read/" + name, WriteDir + name);
    if NoSpace(name) {
      AddLineParses("./read/" + name, WriteDir + name);
    }
  }

  /** A load-phase line adds the local file to its unique path; spaces in the file name end up
      in the destination token, which `split(" ", 3)` leaves whole. */
  lemma LoadRequestParses(abs: string, dir: string, i: nat, j: nat, name: string)
    requires NoSpace(abs)
    ensures Parse(LoadRequest(abs, dir, i, j, name)) == Op(Add(abs, UniquePath(dir, i, j, name)))
  {
    AddLineParses(abs, UniquePath(dir, i, j, name));
  }

  lemma DoneMarkerIsMarker(k: nat)
    ensures IsMarker(DoneMarker(k)) && Parse(DoneMarker(k)) == Marker
  {
  }

  /** Different trial and file counters give different upload paths, whatever the names. */
  lemma UniquePathsDistinct(dir: string, i: nat, j: nat, name: string, i2: nat, j2: nat, name2: string)
    requires i < 100 && i2 < 100 && j < 100000 && j2 < 100000
    requires i != i2 || j != j2
    ensures UniquePath(dir, i, j, name) != UniquePath(dir, i2, j2, name2)
  {
    var p, p2 := UniquePath(dir, i, j, name), UniquePath(dir, i2, j2, name2);
    assert Pow10(2) == 100 && Pow10(5) == 100000;
    ZeroPadFixedWidth(i, i2, 2);
    ZeroPadFixedWidth(j, j2, 5);
    ZeroPadFixedWidth(i2, i, 2);
    ZeroPadFixedWidth(j2, j, 5);
    var a, b := ZeroPad(i, 2), ZeroPad(j, 5);
    var a2, b2 := ZeroPad(i2, 2), ZeroPad(j2, 5);
    if i != i2 {
      assert exists k :: 0 <= k < 2 && a[k] != a2[k];
      var k :| 0 <= k < 2 && a[k] != a2[k];
      assert p[|dir| + k] == a[k] && p2[|dir| + k] == a2[k];
    } else {
      assert exists k :: 0 <= k < 5 && b[k] != b2[k];
      var k :| 0 <= k < 5 && b[k] != b2[k];
      assert p[|dir| + 2 + k] == b[k] && p2[|dir| + 2 + k] == b2[k];
    }
  }

  /** The names a fill admits, in order, into a ledger that held `ledger`, from the names
      `draws` sampled one after the other: a draw already in the ledger, or admitted earlier,
      is rejected and sampling goes on. */
  function Admitted(ledger: seq<string>, draws: seq<string>): (a: seq<string>)
    ensures forall k :: 0 <= k < |a| ==> a[k] in draws && a[k] !in ledger
    decreases |draws|
  {
    if draws == [] then []
    else
      var init := draws[..|draws| - 1];
      var a := Admitted(ledger, init);
      var d := draws[|draws| - 1];
      assert forall x :: x in init ==> x in draws;
      if d in ledger || d in a then a else a + [d]
  }

  /** The ledger stays duplicate-free. */
  lemma {:induction false} AdmittedNoDup(ledger: seq<string>, draws: seq<string>)
    requires NoDup(ledger)
    ensures NoDup(ledger + Admitted(ledger, draws))
    decreases |draws|
  {
    if draws != [] {
      var init := draws[..|draws| - 1];
      AdmittedNoDup(ledger, init);
      var a, d := Admitted(ledger, init), draws[|draws| - 1];
      if !(d in ledger || d in a) {
        assert ledger + (a + [d]) == (ledger + a) + [d];
        NoDupSnoc(ledger + a, d);
      }
    }
  }

  /** Every sampled name ends up in the ledger, whether it was admitted now or before. */
  lemma {:induction false} AdmittedRecordsAll(ledger: seq<string>, draws: seq<string>)
    ensures forall k :: 0 <= k < |draws| ==> draws[k] in ledger || draws[k] in Admitted(ledger, draws)
    decreases |draws|
  {
    if draws != [] {
      var init := draws[..|draws| - 1];
      AdmittedRecordsAll(ledger, init);
      var a := Admitted(ledger, init);
      assert forall x :: x in a ==> x in Admitted(ledger, draws);
      forall k | 0 <= k < |draws| - 1
        ensures draws[k] in ledger || draws[k] in Admitted(ledger, draws)
      {
        assert draws[k] == init[k];
      }
    }
  }

  /** Draws the ledger already holds admit nothing. */
  lemma {:induction false} AdmittedSkips(ledger: seq<string>, draws: seq<string>, from: nat, upto: nat)
    requires from <= upto <= |draws|
    requires forall k :: from <= k < upto ==> draws[k] in ledger + Admitted(ledger, draws[..from])
    ensures Admitted(ledger, draws[..upto]) == Admitted(ledger, draws[..from])
    decreases upto - from
  {
    if upto > from {
      AdmittedSkips(ledger, draws, from, upto - 1);
      assert draws[..upto][..upto - 1] == draws[..upto - 1];
    }
  }

  /** One sampling round: the rejected draws admit nothing, the fresh one is admitted at
      the end. */
  lemma AdmitNext(ledger: seq<string>, draws: seq<string>, from: nat, next: nat)
    requires from < next <= |draws|
    requires forall k :: from <= k < next - 1 ==> draws[k] in ledger + Admitted(ledger, draws[..from])
    requires draws[next - 1] !in ledger + Admitted(ledger, draws[..from])
    ensures Admitted(ledger, draws[..next]) == Admitted(ledger, draws[..from]) + [draws[next - 1]]
  {
    AdmittedSkips(ledger, draws, from, next - 1);
    assert draws[..next][..next - 1] == draws[..next - 1];
  }

  /** `do { name = getRandomFile(..).getName(); } while (filesAdded.contains(name))`: draw
      from `draws[from..]` until a name the ledger does not hold comes up; `ok` is false when
      the draws run out first. */
  method SampleName(filesAdded: StringList, draws: seq<string>, from: nat)
    returns (name: string, next: nat, ok: bool)
    requires from <= |draws|
    ensures from <= next <= |draws|
    ensures ok ==> next > from && name == draws[next - 1] && name !in filesAdded.items
    ensures forall k :: from <= k < (if ok then next - 1 else next) ==> draws[k] in filesAdded.items
    ensures !ok ==> next == |draws|
  {
    name, next, ok := "", from, false;
    while !ok && next < |draws|
      invariant from <= next <= |draws|
      invariant ok ==> next > from && name == draws[next - 1] && name !in filesAdded.items
      invariant forall k :: from <= k < (if ok then next - 1 else next) ==> draws[k] in filesAdded.items
      decreases |draws| - next, !ok
    {
      name := draws[next];
      next := next + 1;
      ok := !filesAdded.Contains(name);
    }
  }

  /** The ThroughputTest read fill: `count` fresh names are admitted into the ledger and a
      read request for each is appended to the queue, in order. */
  method FillReads(requestQ: StringList, filesAdded: StringList, draws: seq<string>, count: nat)
    returns (used: nat, ok: bool)
    requires requestQ != filesAdded
    modifies requestQ, filesAdded
    ensures used <= |draws|
    ensures var a := Admitted(old(filesAdded.items), draws[..used]);
      && filesAdded.items == old(filesAdded.items) + a
      && requestQ.items == old(requestQ.items) + Each(ReadRequest, a)
      && (ok ==> |a| == count)
    ensures !ok ==> used == |draws|
  {
    ghost var ledger, queue := filesAdded.items, requestQ.items;
    used, ok := 0, true;
    for j := 1 to count + 1
      invariant used <= |draws|
      invariant filesAdded.items == ledger + Admitted(ledger, draws[..used])
      invariant requestQ.items == queue + Each(ReadRequest, Admitted(ledger, draws[..used]))
      invariant |Admitted(ledger, draws[..used])| == j - 1
    {
      var name, next, found := SampleName(filesAdded, draws, used);
      if !found {
        AdmittedSkips(ledger, draws, used, next);
        used, ok := next, false;
        return;
      }
      ghost var before := Admitted(ledger, draws[..used]);
      AdmitNext(ledger, draws, used, next);
      EachSnoc(ReadRequest, before, name);
      filesAdded.Offer(name);
      requestQ.Offer(ReadRequest(name));
      AppendAssoc(ledger, before, [name]);
      AppendAssoc(queue, Each(ReadRequest, before), [ReadRequest(name)]);
      used := next;
    }
  }

  /** The requests of a mixed fill: the `k`-th admitted name with the `k`-th coin. */
  function MixedRequests(names: seq<string>, coins: seq<real>): (r: seq<string>)
    requires |coins| >= |names|
    ensures |r| == |names|
  {
    if names == [] then []
    else MixedRequests(names[..|names| - 1], coins) + [MixedRequest(names[|names| - 1], coins[|names| - 1])]
  }

  /** The `k`-th request of a mixed fill is the `k`-th name's read or add, as the `k`-th coin
      says. */
  lemma {:induction false} MixedRequestsAt(names: seq<string>, coins: seq<real>, k: nat)
    requires |coins| >= |names| && k < |names|
    ensures MixedRequests(names, coins)[k] == MixedRequest(names[k], coins[k])
    ensures coins[k] < ProbRead ==> MixedRequests(names, coins)[k] == ReadRequest(names[k])
    ensures coins[k] >= ProbRead ==> MixedRequests(names, coins)[k] == MixedAddRequest(names[k])
    decreases |names|
  {
    if k < |names| - 1 {
      MixedRequestsAt(names[..|names| - 1], coins, k);
    }
  }

  lemma MixedRequestsSnoc(names: seq<string>, x: string, coins: seq<real>)
    requires |coins| > |names|
    ensures MixedRequests(names + [x], coins) == MixedRequests(names, coins) + [MixedRequest(x, coins[|names|])]
  {
    assert (names + [x])[..|names|] == names;
  }

  /** The MixedTest and ConMixedTest fill: `count` fresh names are admitted into the ledger,
      and for the `j`-th the `j`-th coin chooses a read or an add, appended to the queue. */
  method FillMixed(requestQ: StringList, filesAdded: StringList, draws: seq<string>, coins: seq<real>, count: nat)
    returns (used: nat, ok: bool)
    requires requestQ != filesAdded && |coins| >= count
    modifies requestQ, filesAdded
    ensures used <= |draws|
    ensures var a := Admitted(old(filesAdded.items), draws[..used]);
      && |a| <= count
      && filesAdded.items == old(filesAdded.items) + a
      && requestQ.items == old(requestQ.items) + MixedRequests(a, coins)
      && (ok ==> |a| == count)
    ensures !ok ==> used == |draws|
  {
    ghost var ledger, queue := filesAdded.items, requestQ.items;
    used, ok := 0, true;
    for j := 1 to count + 1
      invariant used <= |draws|
      invariant filesAdded.items == ledger + Admitted(ledger, draws[..used])
      invariant |Admitted(ledger, draws[..used])| == j - 1
      invariant requestQ.items == queue + MixedRequests(Admitted(ledger, draws[..used]), coins)
    {
      var name, next, found := SampleName(filesAdded, draws, used);
      if !found {
        AdmittedSkips(ledger, draws, used, next);
        used, ok := next, false;
        return;
      }
      ghost var before := Admitted(ledger, draws[..used]);
      AdmitNext(ledger, draws, used, next);
      MixedRequestsSnoc(before, name, coins);
      var request := MixedRequest(name, coins[j - 1]);
      filesAdded.Offer(name);
      requestQ.Offer(request);
      AppendAssoc(ledger, before, [name]);
      AppendAssoc(queue, MixedRequests(before, coins), [request]);
      used := next;
    }
  }

  /** The ThroughputTest write phase: one `add ./<name> /throughput/<name>` per ledger entry,
      in ledger order; the ledger is only read. */
  method EnqueueWrites(filesAdded: StringList, requestQ: StringList)
    requires requestQ != filesAdded
    modifies requestQ
    ensures requestQ.items == old(requestQ.items) + Each(WriteRequest, filesAdded.items)
  {
    ghost var queue := requestQ.items;
    var ledger := filesAdded.items;
    for k := 0 to |ledger|
      invariant requestQ.items == queue + Each(WriteRequest, ledger[..k])
    {
      EachSnoc(WriteRequest, ledger[..k], ledger[k]);
      assert ledger[..k + 1] == ledger[..k] + [ledger[k]];
      requestQ.Offer(WriteRequest(ledger[k]));
    }
    assert ledger[..|ledger|] == ledger;
  }

  /** The cleanup drain: every ledger entry is polled, its local copy `./<name>` deleted and a
      `delete /throughput/<name>` appended to the queue, in ledger order; the ledger ends
      empty. */
  method DrainLedger(filesAdded: StringList, requestQ: StringList, fs0: Fs) returns (fs: Fs)
    requires requestQ != filesAdded
    modifies requestQ, filesAdded
    ensures filesAdded.items == []
    ensures requestQ.items == old(requestQ.items) + Each(DeleteRequest, old(filesAdded.items))
    ensures fs.remote == fs0.remote
    ensures forall x :: x in fs.local <==> x in fs0.local && x !in old(filesAdded.items)
    ensures forall x :: x in fs.local ==> fs.local[x] == fs0.local[x]
  {
    ghost var ledger, queue := filesAdded.items, requestQ.items;
    ghost var done := 0;
    fs := fs0;
    while !filesAdded.IsEmpty()
      invariant done <= |ledger| && filesAdded.items == ledger[done..]
      invariant requestQ.items == queue + Each(DeleteRequest, ledger[..done])
      invariant fs.remote == fs0.remote
      invariant forall x :: x in fs.local <==> x in fs0.local && x !in ledger[..done]
      invariant forall x :: x in fs.local ==> fs.local[x] == fs0.local[x]
      decreases |filesAdded.items|
    {
      var polled := filesAdded.Poll();
      var fileName := polled.value;
      assert fileName == ledger[done];
      var key := LocalKey("./" + fileName);
      LocalKeyDotSlash(fileName);
      fs := fs.(local := fs.local - {key});
      EachSnoc(DeleteRequest, ledger[..done], fileName);
      assert ledger[..done + 1] == ledger[..done] + [fileName];
      assert forall x :: x in ledger[..done + 1] <==> x in ledger[..done] || x == fileName;
      requestQ.Offer(DeleteRequest(fileName));
      AppendAssoc(queue, Each(DeleteRequest, ledger[..done]), [DeleteRequest(fileName)]);
      done := done + 1;
    }
    assert ledger[..done] == ledger;
  }

  /** `getAbsolutePath()` of a file listed in the local upload directory. */
  function LocalPath(name: string): string
  {
    (LocalWriteDir + "/") + name
  }

  /** The upload directory holds no space, so neither does the path of a file in it with a
      name free of spaces; the add request built on it then splits where intended. */
  lemma LocalPathNoSpace(name: string)
    requires NoSpace(name)
    ensures NoSpace(LocalPath(name))
  {
    assert NoSpace(LocalWriteDir + "/");
  }

  /** The ThroughputTest and MixedTest load phase of trial `i` over the sampled file names
      `files`: the `j`-th add uploads `files[j-1]` to its unique path, and a `DONE j` marker
      goes just before it when `j` is a multiple of the interval. */
  function MarkedLoad(i: nat, files: seq<string>): (r: seq<string>)
    decreases |files|
  {
    if files == [] then []
    else
      var j := |files|;
      MarkedLoad(i, files[..j - 1])
        + (if j % MarkerInterval == 0 then [DoneMarker(j)] else [])
        + [LoadRequest(LocalPath(files[j - 1]), WriteDir, i, j, files[j - 1])]
  }

  /** The load phase holds one add per file and one marker per full interval. */
  lemma {:induction false} MarkedLoadLength(i: nat, files: seq<string>)
    ensures |MarkedLoad(i, files)| == |files| + |files| / MarkerInterval
    decreases |files|
  {
    if files != [] {
      var j := |files|;
      MarkedLoadLength(i, files[..j - 1]);
      assert (j - 1) / 1000 + (if j % 1000 == 0 then 1 else 0) == j / 1000;
    }
  }

  /** Generating fewer files yields a prefix of the same queue contents. */
  lemma {:induction false} MarkedLoadPrefix(i: nat, files: seq<string>, m: nat)
    requires m <= |files|
    ensures MarkedLoad(i, files[..m]) <= MarkedLoad(i, files)
    decreases |files|
  {
    if m < |files| {
      var init := files[..|files| - 1];
      MarkedLoadPrefix(i, init, m);
      assert init[..m] == files[..m];
    } else {
      assert files[..m] == files;
    }
  }

  /** An upload line is never taken for a progress marker. */
  lemma LoadRequestNotMarker(abs: string, dir: string, i: nat, j: nat, name: string)
    ensures !IsMarker(LoadRequest(abs, dir, i, j, name))
  {
    assert LoadRequest(abs, dir, i, j, name)[0] == 'a';
  }

  /** The last file's add closes the load phase, with its marker right before it when the
      count is a multiple of the interval. */
  lemma MarkedLoadLast(i: nat, files: seq<string>)
    requires files != []
    ensures var r := MarkedLoad(i, files); var j := |files|; var at := j - 1 + j / MarkerInterval;
      && |r| == at + 1
      && r[at] == LoadRequest(LocalPath(files[j - 1]), WriteDir, i, j, files[j - 1])
      && (j % MarkerInterval == 0 ==> r[at - 1] == DoneMarker(j))
  {
    var j := |files|;
    MarkedLoadLength(i, files[..j - 1]);
    assert (j - 1) / MarkerInterval + (if j % MarkerInterval == 0 then 1 else 0) == j / MarkerInterval;
  }

  /** Where the `j`-th add sits in the load phase, and that a `DONE j` marker comes right
      before it when `j` is a multiple of the interval. */
  lemma MarkedLoadAt(i: nat, files: seq<string>, j: nat)
    requires 1 <= j <= |files|
    ensures var r := MarkedLoad(i, files); var at := j - 1 + j / MarkerInterval;
      && at < |r|
      && r[at] == LoadRequest(LocalPath(files[j - 1]), WriteDir, i, j, files[j - 1])
      && (j % MarkerInterval == 0 ==> r[at - 1] == DoneMarker(j))
  {
    var r, p := MarkedLoad(i, files), files[..j];
    var at := j - 1 + j / MarkerInterval;
    MarkedLoadPrefix(i, files, j);
    MarkedLoadLast(i, p);
    assert p[j - 1] == files[j - 1];
    var q := MarkedLoad(i, p);
    assert q[at] == r[at];
    if j % MarkerInterval == 0 {
      assert q[at - 1] == r[at - 1];
    }
  }

  /** A marker comes right before the `j`-th add only when `j` is a multiple of the interval:
      otherwise the line before it, if any, is the previous add. */
  lemma MarkerOnlyBefore(i: nat, files: seq<string>, j: nat)
    requires 1 <= j <= |files|
    ensures var r := MarkedLoad(i, files); var at := j - 1 + j / MarkerInterval;
      0 < at < |r| && IsMarker(r[at - 1]) <==> j % MarkerInterval == 0
  {
    MarkedLoadAt(i, files, j);
    if j % MarkerInterval == 0 {
      DoneMarkerIsMarker(j);
    } else if j > 1 {
      MarkedLoadAt(i, files, j - 1);
      assert j / MarkerInterval == (j - 1) / MarkerInterval;
      LoadRequestNotMarker(LocalPath(files[j - 2]), WriteDir, i, j - 1, files[j - 2]);
    }
  }

  /** The ThroughputTest and MixedTest load phase: the adds of trial `i`, with the markers. */
  method EnqueueLoad(requestQ: StringList, i: nat, files: seq<string>)
    modifies requestQ
    ensures requestQ.items == old(requestQ.items) + MarkedLoad(i, files)
  {
    ghost var queue := requestQ.items;
    for j := 1 to |files| + 1
      invariant requestQ.items == queue + MarkedLoad(i, files[..j - 1])
    {
      MarkedLoadSnoc(i, files, j);
      var name := files[j - 1];
      var request := LoadRequest(LocalPath(name), WriteDir, i, j, name);
      ghost var before := requestQ.items;
      ghost var added := (if j % MarkerInterval == 0 then [DoneMarker(j)] else []) + [request];
      assert MarkedLoad(i, files[..j]) == MarkedLoad(i, files[..j - 1]) + added;
      if j % MarkerInterval == 0 {
        requestQ.Offer(DoneMarker(j));
      }
      requestQ.Offer(request);
      assert requestQ.items == before + added;
      AppendAssoc(queue, MarkedLoad(i, files[..j - 1]), added);
    }
    assert files[..|files|] == files;
  }

  /** Generating the `j`-th file appends its marker, if due, and its add. */
  lemma MarkedLoadSnoc(i: nat, files: seq<string>, j: nat)
    requires 1 <= j <= |files|
    ensures MarkedLoad(i, files[..j]) == MarkedLoad(i, files[..j - 1])
      + (if j % MarkerInterval == 0 then [DoneMarker(j)] else [])
      + [LoadRequest(LocalPath(files[j - 1]), WriteDir, i, j, files[j - 1])]
  {
    assert files[..j][..j - 1] == files[..j - 1] && files[..j][j - 1] == files[j - 1];
  }
}
