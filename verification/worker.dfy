/** The worker (`HdfsClient`): a loop that polls request lines off the shared queue, skips
    progress markers, splits each line and dispatches it to one store operation. */
module Worker {
  import opened Common
  import opened Paths
  import opened Store
  import opened Requests
  import opened Queues

  /** The store operation a dispatched command performs. */
  function Dispatch(fs: Fs, c: Command): (e: Effect)
    ensures c.GetBlockLocations? || c.ModificationTime? || c.GetHostnames? ==> e.fs == fs
    ensures e.result.Exit? ==> e.result.status == 1 && (c.CopyFromLocal? || c.CopyToLocal?)
    ensures c.Delete? || c.Mkdir? || c.Rename? ==> e.fs.local == fs.local
  {
    match c
    case Add(source, dest) => AddEffect(fs, source, dest)
    case Read(path) => ReadEffect(fs, path)
    case Delete(path) => DeleteEffect(fs, path)
    case Mkdir(path) => MkdirEffect(fs, path)
    case CopyFromLocal(source, dest) => CopyFromLocalEffect(fs, source, dest)
    case Rename(source, dest) => RenameEffect(fs, source, dest)
    case CopyToLocal(source, dest) => CopyToLocalEffect(fs, source, dest)
    case ModificationTime(path) => ModificationTimeEffect(fs, path)
    case GetBlockLocations(path) => BlockLocationsEffect(fs, path)
    case GetHostnames => Effect(fs, Done)
  }

  /** Why `run` ended: it found the queue empty (`Stopped`, the only way `isStopped` is set by
      the loop), returned on a line of fewer than two tokens, lost an `IOException` to the
      catch around the loop, ended the process with `System.exit`, or died of an unchecked
      exception. */
  datatype Halt = Stopped | Returned | IOFailed | Exited(status: int) | Crashed

  /** The outcome of handling one polled line: go on polling, or leave `run`. */
  datatype Step = Continue(fs: Fs) | Halted(fs: Fs, halt: Halt)

  /** One iteration of the loop body after the poll. */
  function StepOf(request: string, fs: Fs): (s: Step)
    ensures IsMarker(request) ==> s == Continue(fs)
    ensures s.Halted? ==> s.halt != Stopped
    ensures s.Halted? && s.halt.Exited? ==> s.halt.status == 1
  {
    match Parse(request)
    case Marker => Continue(fs)
    case IndexFault => Halted(fs, Crashed)
    case TooFewTokens => Halted(fs, Returned)
    case UnknownVerb => Halted(fs, Exited(1))
    case Op(c) =>
      var e := Dispatch(fs, c);
      match e.result
      case IOFailure => Halted(e.fs, IOFailed)
      case Exit(status) => Halted(e.fs, Exited(status))
      case RuntimeFault => Halted(e.fs, Crashed)
      case _ => Continue(e.fs)
  }

  /** Handling `request` neither returns early nor ends the process: the loop goes on, or
      the worker dies of an exception. */
  predicate NeverReturnsOrExits(request: string, fs: Fs)
  {
    match StepOf(request, fs)
    case Continue(_) => true
    case Halted(_, halt) => halt == IOFailed || halt == Crashed
  }

  /** Every command other than the two copies reaches the store without returning early or
      exiting: only a short line returns, only an unknown verb or a failed copy exits. */
  lemma OpNeverReturnsOrExits(request: string, fs: Fs)
    requires Parse(request).Op? && !Parse(request).cmd.CopyFromLocal? && !Parse(request).cmd.CopyToLocal?
    ensures NeverReturnsOrExits(request, fs)
  {
  }

  /** What one `run` did: how many lines it polled, the store it left, and why it ended. */
  datatype RunResult = RunResult(polled: nat, fs: Fs, halt: Halt)

  /** `run` over a queue holding `q`, head first: lines are handled in order until the queue
      is empty or a line ends the loop. */
  function Execute(q: seq<string>, fs: Fs): (r: RunResult)
    ensures r.polled <= |q|
    ensures r.halt == Stopped ==> r.polled == |q|
    ensures q != [] ==> r.polled >= 1
    decreases |q|
  {
    if q == [] then RunResult(0, fs, Stopped)
    else match StepOf(q[0], fs)
      case Continue(next) =>
        var r := Execute(q[1..], next);
        RunResult(r.polled + 1, r.fs, r.halt)
      case Halted(next, halt) => RunResult(1, next, halt)
  }

  /** Every line of `q` lets the loop go on, starting from `fs`. */
  predicate RunsThrough(q: seq<string>, fs: Fs)
    decreases |q|
  {
    q == [] || (StepOf(q[0], fs).Continue? && RunsThrough(q[1..], StepOf(q[0], fs).fs))
  }

  /** The queue is drained exactly when no line ends the loop: the worker then polls every
      line, in order, and stops on the empty queue. */
  lemma {:induction false} DrainsIffRunsThrough(q: seq<string>, fs: Fs)
    ensures Execute(q, fs).halt == Stopped <==> RunsThrough(q, fs)
    ensures RunsThrough(q, fs) ==> Execute(q, fs).polled == |q|
    decreases |q|
  {
    if q != [] && StepOf(q[0], fs).Continue? {
      DrainsIffRunsThrough(q[1..], StepOf(q[0], fs).fs);
    }
  }

  /** The first line of a non-empty queue either ends the loop there or hands the rest of
      the queue the store it left. */
  lemma ExecuteCons(q: seq<string>, fs: Fs)
    requires q != []
    ensures var s := StepOf(q[0], fs);
      Execute(q, fs) ==
        if s.Halted? then RunResult(1, s.fs, s.halt)
        else var r := Execute(q[1..], s.fs); RunResult(r.polled + 1, r.fs, r.halt)
  {
  }

  /** A first line that lets the loop go on hands the rest of the queue the new store. */
  lemma ExecuteContinue(q: seq<string>, fs: Fs, next: Fs)
    requires q != [] && StepOf(q[0], fs) == Continue(next)
    ensures var r := Execute(q[1..], next); Execute(q, fs) == RunResult(r.polled + 1, r.fs, r.halt)
  {
  }

  /** Running two queues one after the other is running their concatenation, when the
      first is drained. */
  lemma {:induction false} ExecuteAppend(q1: seq<string>, q2: seq<string>, fs: Fs)
    requires Execute(q1, fs).halt == Stopped
    ensures var r1 := Execute(q1, fs); var r2 := Execute(q2, r1.fs);
      Execute(q1 + q2, fs) == RunResult(|q1| + r2.polled, r2.fs, r2.halt)
    decreases |q1|
  {
    if q1 != [] {
      var step := StepOf(q1[0], fs);
      ExecuteCons(q1, fs);
      assert step.Continue?;
      var q := q1 + q2;
      assert q[0] == q1[0] && q[1..] == q1[1..] + q2;
      ExecuteContinue(q, fs, step.fs);
      ExecuteAppend(q1[1..], q2, step.fs);
    } else {
      assert q1 + q2 == q2;
    }
  }

  /** One more line that lets the loop go on, after a drained queue. */
  lemma ExecuteSnoc(q: seq<string>, x: string, fs: Fs)
    requires Execute(q, fs).halt == Stopped && StepOf(x, Execute(q, fs).fs).Continue?
    ensures Execute(q + [x], fs) == RunResult(|q| + 1, StepOf(x, Execute(q, fs).fs).fs, Stopped)
  {
    ExecuteAppend(q, [x], fs);
  }

  /** Progress markers are polled and dropped: they never reach the store. */
  lemma {:induction false} MarkersTransparent(q: seq<string>, fs: Fs)
    requires forall k :: 0 <= k < |q| ==> IsMarker(q[k])
    ensures Execute(q, fs) == RunResult(|q|, fs, Stopped)
    decreases |q|
  {
    if q != [] {
      MarkersTransparent(q[1..], fs);
    }
  }

  /** What a pool of workers run one after the other did to the shared queue and the store;
      `exited` says one of them ended the process. */
  datatype PoolRun = PoolRun(polled: nat, fs: Fs, exited: bool)

  /** `n` workers, each run to completion in slot order on what is left of the queue; a
      `System.exit` ends the process and with it the remaining workers. */
  function ExecutePool(n: nat, q: seq<string>, fs: Fs): (p: PoolRun)
    ensures p.polled <= |q|
    ensures n > 0 && q != [] ==> p.polled > 0
    decreases n
  {
    if n == 0 then PoolRun(0, fs, false)
    else
      var r := Execute(q, fs);
      if r.halt.Exited? then PoolRun(r.polled, r.fs, true)
      else
        var p := ExecutePool(n - 1, q[r.polled..], r.fs);
        PoolRun(r.polled + p.polled, p.fs, p.exited)
  }

  /** A queue one worker drains is drained by any non-empty pool: the first worker takes every
      line and the others find the queue empty. */
  lemma {:induction false} PoolDrains(n: nat, q: seq<string>, fs: Fs)
    requires n >= 1 && Execute(q, fs).halt == Stopped
    ensures ExecutePool(n, q, fs) == PoolRun(|q|, Execute(q, fs).fs, false)
  {
    var r := Execute(q, fs);
    assert q[r.polled..] == [];
    EmptyPool(n - 1, r.fs);
  }

  /** Workers that find the queue empty change nothing. */
  lemma {:induction false} EmptyPool(n: nat, fs: Fs)
    ensures ExecutePool(n, [], fs) == PoolRun(0, fs, false)
    decreases n
  {
    if n > 0 {
      EmptyPool(n - 1, fs);
    }
  }

  /** A stream's bytes as `in.read(b)` delivers them: at most `b.Length` at a time, -1 at the
      end of the stream. */
  method ReadChunk(input: seq<byte>, pos: nat, b: array<byte>) returns (n: int)
    requires pos <= |input| && b.Length > 0
    modifies b
    ensures pos == |input| ==> n == -1
    ensures pos < |input| ==> 1 <= n <= b.Length && pos + n <= |input| && b[..n] == input[pos..pos + n]
  {
    if pos == |input| {
      return -1;
    }
    n := if |input| - pos < b.Length then |input| - pos else b.Length;
    for i := 0 to n
      invariant b[..i] == input[pos..pos + i]
    {
      b[i] := input[pos + i];
    }
  }

  /** The copy loops of `addFile` and `readFile`: a 1024-byte buffer is filled from the input
      and written out until the input reports its end. The output is the input, in order. */
  method CopyStream(input: seq<byte>) returns (output: seq<byte>)
    ensures output == input
  {
    var b := new byte[1024];
    var pos := 0;
    output := [];
    var numBytes := ReadChunk(input, pos, b);
    while numBytes > 0
      invariant b.Length == 1024 && numBytes <= 1024
      invariant pos + (if numBytes > 0 then numBytes else 0) <= |input|
      invariant output == input[..pos]
      invariant numBytes > 0 ==> b[..numBytes] == input[pos..pos + numBytes]
      invariant numBytes <= 0 ==> pos == |input|
      decreases |input| - pos
    {
      output := output + b[..numBytes];
      pos := pos + numBytes;
      numBytes := ReadChunk(input, pos, b);
    }
  }

  class HdfsClient {
    const requestQ: StringList
    var isStopped: bool

    constructor (requestQ: StringList)
      ensures this.requestQ == requestQ && !isStopped
    {
      this.requestQ := requestQ;
      isStopped := false;
    }

    /** `stopThread`: after it, `run` polls nothing. */
    method StopThread()
      modifies this
      ensures isStopped
    {
      isStopped := true;
    }

    /** `run`: poll until the queue is found empty or a line ends the loop. */
    method Run(fs0: Fs) returns (fs: Fs, polled: nat, halt: Halt)
      modifies this, requestQ
      ensures polled <= |old(requestQ.items)| && requestQ.items == old(requestQ.items)[polled..]
      ensures old(isStopped) ==> polled == 0 && fs == fs0 && halt == Stopped
      ensures !old(isStopped) ==> RunResult(polled, fs, halt) == Execute(old(requestQ.items), fs0)
      ensures isStopped <==> halt == Stopped
    {
      ghost var q0 := requestQ.items;
      fs, polled, halt := fs0, 0, Stopped;
      while !isStopped
        invariant polled <= |q0| && requestQ.items == q0[polled..]
        invariant old(isStopped) ==> isStopped && polled == 0 && fs == fs0
        invariant !old(isStopped) && !isStopped ==>
          var r := Execute(requestQ.items, fs); Execute(q0, fs0) == RunResult(polled + r.polled, r.fs, r.halt)
        invariant !old(isStopped) && isStopped ==> Execute(q0, fs0) == RunResult(polled, fs, Stopped)
        decreases |requestQ.items| + (if isStopped then 0 else 1)
      {
        if requestQ.IsEmpty() {
          isStopped := true;
          continue;
        }
        var request := requestQ.Poll();
        if request.None? {
          continue;
        }
        var step := Process(request.value, fs);
        polled := polled + 1;
        match step
        case Continue(next) =>
          fs := next;
        case Halted(next, h) =>
          fs, halt := next, h;
          return;
      }
    }

    /** The loop body after the poll: the marker test, `split(" ", 3)`, the token count check
        and the verb chain. */
    method Process(request: string, fs: Fs) returns (step: Step)
      ensures step == StepOf(request, fs)
    {
      var parsed := Parse(request);
      match parsed
      case Marker => step := Continue(fs);
      case IndexFault => step := Halted(fs, Crashed);
      case TooFewTokens => step := Halted(fs, Returned);
      case UnknownVerb => step := Halted(fs, Exited(1));
      case Op(c) =>
        var e;
        match c {
          case Add(source, dest) => e := AddFile(source, dest, fs);
          case Read(path) => e := ReadFile(path, fs);
          case _ => e := Dispatch(fs, c);
        }
        match e.result {
          case IOFailure => step := Halted(e.fs, IOFailed);
          case Exit(status) => step := Halted(e.fs, Exited(status));
          case RuntimeFault => step := Halted(e.fs, Crashed);
          case _ => step := Continue(e.fs);
        }
    }

    /** `addFile`: the guards, then the copy loop from the local source into the target. */
    method AddFile(source: string, dest: string, fs: Fs) returns (e: Effect)
      ensures e == AddEffect(fs, source, dest)
    {
      if dest == "" {
        return Effect(fs, RuntimeFault);
      }
      var target := dest;
      if dest[|dest| - 1] == '/' {
        target := dest + Basename(source);
      }
      assert target == Target(source, dest);
      if target in fs.remote {
        return Effect(fs, AlreadyExists);
      }
      var created := fs.(remote := fs.remote[target := File([])]);
      var input := LocalBytes(fs, source);
      if input.None? {
        return Effect(created, IOFailure);
      }
      var written := CopyStream(input.value);
      e := Effect(created.(remote := created.remote[target := File(written)]), Done);
    }

    /** `readFile`: the guard, then the copy loop from the remote file into the local file
        named by the path's file name. */
    method ReadFile(file: string, fs: Fs) returns (e: Effect)
      ensures e == ReadEffect(fs, file)
    {
      if file == "" {
        return Effect(fs, RuntimeFault);
      }
      if file !in fs.remote {
        return Effect(fs, NoSuchPath);
      }
      if fs.remote[file].Dir? {
        return Effect(fs, IOFailure);
      }
      var filename := Basename(file);
      if filename == "" {
        return Effect(fs, IOFailure);
      }
      var written := CopyStream(fs.remote[file].data);
      e := Effect(fs.(local := fs.local[filename := written]), Done);
    }
  }

  /** A pool run seen from before `k` lines were taken off the queue. */
  function Shifted(k: nat, p: PoolRun): PoolRun
  {
    PoolRun(k + p.polled, p.fs, p.exited)
  }

  /** Shifting by nothing is no shift. */
  lemma ShiftedZero(p: PoolRun)
    ensures Shifted(0, p) == p
  {
  }

  /** The first worker of a pool runs on the whole queue; the rest run on what it left. */
  lemma PoolStep(m: nat, q: seq<string>, fs: Fs)
    requires m >= 1
    ensures var r := Execute(q, fs);
      ExecutePool(m, q, fs) ==
        if r.halt.Exited? then PoolRun(r.polled, r.fs, true)
        else Shifted(r.polled, ExecutePool(m - 1, q[r.polled..], r.fs))
  {
  }

  /** One worker of the pool advances the account of what the whole pool does: the lines
      taken so far grow by what it polled, and an exit closes the account. */
  lemma PoolAdvance(total: PoolRun, taken: nat, m: nat, q: seq<string>, fs: Fs, r: RunResult)
    requires m >= 1 && r == Execute(q, fs) && total == Shifted(taken, ExecutePool(m, q, fs))
    ensures r.halt.Exited? ==> total == PoolRun(taken + r.polled, r.fs, true)
    ensures !r.halt.Exited? ==> total == Shifted(taken + r.polled, ExecutePool(m - 1, q[r.polled..], r.fs))
  {
    PoolStep(m, q, fs);
  }

  /** Dropping two prefixes in turn drops their combined length. */
  lemma DropTwice(q: seq<string>, a: nat, b: nat)
    requires a + b <= |q|
    ensures q[a..][b..] == q[a + b..]
  {
  }

  /** `threadPool[j] = new Thread(new HdfsClient(requestQ))`, started and joined. */
  method StartWorker(threadPool: array<HdfsClient?>, j: nat, requestQ: StringList, fs0: Fs)
    returns (fs: Fs, polled: nat, halt: Halt)
    requires j < threadPool.Length
    modifies threadPool, requestQ
    ensures RunResult(polled, fs, halt) == Execute(old(requestQ.items), fs0)
    ensures requestQ.items == old(requestQ.items)[polled..]
  {
    var worker := new HdfsClient(requestQ);
    threadPool[j] := worker;
    fs, polled, halt := worker.Run(fs0);
  }

  /** Slot `j` of a pool whose remaining `m` workers were to do what `total` records once
      `taken` lines were polled: after its worker the account advances by what it polled. */
  method RunSlot(threadPool: array<HdfsClient?>, j: nat, m: nat, requestQ: StringList, fs0: Fs,
                 ghost q0: seq<string>, ghost taken: nat, ghost total: PoolRun)
    returns (fs: Fs, polled: nat, halt: Halt)
    requires j < threadPool.Length && m >= 1
    requires taken <= |q0| && requestQ.items == q0[taken..]
    requires total == Shifted(taken, ExecutePool(m, requestQ.items, fs0))
    modifies threadPool, requestQ
    ensures taken + polled <= |q0| && requestQ.items == q0[taken + polled..]
    ensures halt.Exited? ==> total == PoolRun(taken + polled, fs, true)
    ensures !halt.Exited? ==> total == Shifted(taken + polled, ExecutePool(m - 1, requestQ.items, fs))
  {
    ghost var before := requestQ.items;
    fs, polled, halt := StartWorker(threadPool, j, requestQ, fs0);
    PoolAdvance(total, taken, m, before, fs0, RunResult(polled, fs, halt));
    DropTwice(q0, taken, polled);
  }

  /** Fill slots `0 .. n-1` of the thread pool with fresh workers on the shared queue and run
      each to completion, in slot order. */
  method RunPool(threadPool: array<HdfsClient?>, n: nat, requestQ: StringList, fs0: Fs)
    returns (fs: Fs, exited: bool)
    requires n <= threadPool.Length
    modifies threadPool, requestQ
    ensures var p := ExecutePool(n, old(requestQ.items), fs0);
      fs == p.fs && exited == p.exited && requestQ.items == old(requestQ.items)[p.polled..]
  {
    ghost var q0 := requestQ.items;
    ghost var total := ExecutePool(n, q0, fs0);
    ghost var taken: nat := 0;
    fs, exited := fs0, false;
    ShiftedZero(total);
    for j := 0 to n
      invariant taken <= |q0| && requestQ.items == q0[taken..]
      invariant total == Shifted(taken, ExecutePool(n - j, requestQ.items, fs))
    {
      var polled, halt;
      fs, polled, halt := RunSlot(threadPool, j, n - j, requestQ, fs, q0, taken, total);
      taken := taken + polled;
      if halt.Exited? {
        exited := true;
        return;
      }
    }
  }
}
