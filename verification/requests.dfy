/** The text protocol between the test drivers and the worker: a request is one line
    `verb arg1 [arg2]`, or a `DONE n` progress marker. */
module Requests {

  /** `s` contains no space character. */
  predicate NoSpace(s: string)
  {
    ' ' !in s
  }

  /** `s.indexOf(' ', from)`: the index of the first space at or after `from`, or -1. */
  function IndexOfSpaceFrom(s: string, from: nat): (k: int)
    requires from <= |s|
    ensures k == -1 || from <= k < |s|
    ensures k == -1 ==> forall m :: from <= m < |s| ==> s[m] != ' '
    ensures k >= 0 ==> s[k] == ' ' && forall m :: from <= m < k ==> s[m] != ' '
    decreases |s| - from
  {
    if from == |s| then -1
    else if s[from] == ' ' then from
    else IndexOfSpaceFrom(s, from + 1)
  }

  /** `s.indexOf(' ')`: the index of the first space, or -1 when there is none. */
  function IndexOfSpace(s: string): (k: int)
    ensures -1 <= k < |s|
    ensures k == -1 ==> NoSpace(s)
    ensures k >= 0 ==> s[k] == ' ' && NoSpace(s[..k])
  {
    var k := IndexOfSpaceFrom(s, 0);
    assert k >= 0 ==> forall m :: 0 <= m < k ==> s[..k][m] == s[m];
    k
  }

  /** The pieces joined back with single spaces (the inverse of `Split`). */
  function Join(parts: seq<string>): string
  {
    if |parts| <= 1 then (if parts == [] then "" else parts[0])
    else parts[0] + " " + Join(parts[1..])
  }

  /** Java's `s.split(" ", limit)` for a positive limit: the separator is applied at most
      `limit - 1` times and the last piece keeps the rest of the input, spaces included. */
  function Split(s: string, limit: nat): (r: seq<string>)
    requires limit >= 1
    ensures 1 <= |r| <= limit
    decreases limit
  {
    var k := IndexOfSpace(s);
    if limit == 1 || k == -1 then [s]
    else [s[..k]] + Split(s[k + 1..], limit - 1)
  }

  /** Every piece but the last is free of spaces, and so is the last one when the limit
      was not reached. */
  lemma {:induction false} SplitPieces(s: string, limit: nat)
    requires limit >= 1
    ensures forall k :: 0 <= k < |Split(s, limit)| - 1 ==> NoSpace(Split(s, limit)[k])
    ensures |Split(s, limit)| < limit ==> NoSpace(Split(s, limit)[|Split(s, limit)| - 1])
    decreases limit
  {
    var k := IndexOfSpace(s);
    if limit > 1 && k >= 0 {
      var rest := Split(s[k + 1..], limit - 1);
      SplitPieces(s[k + 1..], limit - 1);
      var r := Split(s, limit);
      assert r == [s[..k]] + rest;
      forall i | 0 <= i < |r| - 1
        ensures NoSpace(r[i])
      {
        if i > 0 {
          assert r[i] == rest[i - 1];
        }
      }
      assert r[|r| - 1] == rest[|rest| - 1];
    }
  }

  /** Joining a leading piece onto at least one more puts a single space between them. */
  lemma JoinCons(w: string, tail: seq<string>)
    requires tail != []
    ensures Join([w] + tail) == w + " " + Join(tail)
  {
    var parts := [w] + tail;
    assert parts[0] == w && parts[1..] == tail;
  }

  /** Joining the pieces gives back the input: `Split` loses nothing. */
  lemma {:induction false} JoinSplit(s: string, limit: nat)
    requires limit >= 1
    ensures Join(Split(s, limit)) == s
    decreases limit
  {
    var k := IndexOfSpace(s);
    if limit > 1 && k >= 0 {
      var head, tail := s[..k], s[k + 1..];
      var rest := Split(tail, limit - 1);
      JoinSplit(tail, limit - 1);
      JoinCons(head, rest);
      assert s == head + " " + tail;
    }
  }

  /** Splitting is the inverse of joining, for pieces `Split` could have produced. */
  lemma {:induction false} SplitJoin(parts: seq<string>, limit: nat)
    requires 1 <= |parts| <= limit
    requires forall k :: 0 <= k < |parts| - 1 ==> NoSpace(parts[k])
    requires |parts| < limit ==> NoSpace(parts[|parts| - 1])
    ensures Split(Join(parts), limit) == parts
    decreases limit
  {
    if |parts| > 1 {
      var w, tail := parts[0], parts[1..];
      TailPieces(parts);
      SplitJoin(tail, limit - 1);
      SplitJoinCons(w, tail, limit);
      assert parts == [w] + tail;
    }
  }

  /** The inductive step of `SplitJoin`: a space-free word in front of pieces that split back. */
  lemma SplitJoinCons(w: string, tail: seq<string>, limit: nat)
    requires NoSpace(w) && limit >= 2 && tail != []
    requires Split(Join(tail), limit - 1) == tail
    ensures Split(Join([w] + tail), limit) == [w] + tail
  {
    JoinCons(w, tail);
    SplitAfterWord(w, Join(tail), limit);
  }

  /** The tail of a piece list inherits the piece conditions. */
  lemma TailPieces(parts: seq<string>)
    requires |parts| >= 2
    requires forall k :: 0 <= k < |parts| - 1 ==> NoSpace(parts[k])
    ensures forall k :: 0 <= k < |parts[1..]| - 1 ==> NoSpace(parts[1..][k])
    ensures parts[1..][|parts[1..]| - 1] == parts[|parts| - 1]
  {
    forall k | 0 <= k < |parts[1..]| - 1
      ensures NoSpace(parts[1..][k])
    {
      assert parts[1..][k] == parts[k + 1];
    }
  }

  /** A leading word without spaces is split off at the first space. */
  lemma SplitAfterWord(w: string, rest: string, limit: nat)
    requires NoSpace(w) && limit >= 2
    ensures Split(w + " " + rest, limit) == [w] + Split(rest, limit - 1)
  {
    var s := w + " " + rest;
    assert s[|w|] == ' ';
    var k := IndexOfSpace(s);
    assert s[..|w|] == w;
    assert s[..k] == w && s[k + 1..] == rest;
  }

  /** A line without spaces is one piece, whatever the limit. */
  lemma SplitNoSpace(s: string, limit: nat)
    requires limit >= 1 && NoSpace(s)
    ensures Split(s, limit) == [s]
  {
  }

  /** A line holding a space is cut at least once when the limit allows it. */
  lemma SplitAtSpace(s: string, limit: nat)
    requires limit >= 2 && !NoSpace(s)
    ensures |Split(s, limit)| >= 2
  {
    var k := IndexOfSpace(s);
    assert k >= 0;
  }

  /** One operation of the worker, with its arguments. */
  datatype Command =
    | Add(source: string, dest: string)
    | Read(path: string)
    | Delete(path: string)
    | Mkdir(path: string)
    | CopyFromLocal(source: string, dest: string)
    | Rename(source: string, dest: string)
    | CopyToLocal(source: string, dest: string)
    | ModificationTime(path: string)
    | GetBlockLocations(path: string)
    | GetHostnames

  /** What the worker makes of one polled request string. `IndexFault` stands for the
      StringIndexOutOfBounds and ArrayIndexOutOfBounds exceptions the parsing code throws. */
  datatype Parsed =
    | Marker
    | IndexFault
    | TooFewTokens
    | UnknownVerb
    | Op(cmd: Command)

  const Verbs: set<string> := {"add", "read", "delete", "mkdir", "copyfromlocal", "rename",
                               "copytolocal", "modificationtime", "getblocklocations", "gethostnames"}

  /** The verb chain of `run`, on the tokens of `split(" ", 3)`. */
  function ParseTokens(args: seq<string>): (p: Parsed)
    requires 1 <= |args| <= 3
    ensures |args| >= 2 && args[0] in Verbs ==> p.Op? || p.IndexFault?
    ensures p.UnknownVerb? <==> |args| >= 2 && args[0] !in Verbs
    ensures p.TooFewTokens? <==> |args| < 2
  {
    if |args| < 2 then TooFewTokens
    else
      var verb := args[0];
      if verb == "add" then (if |args| < 3 then IndexFault else Op(Add(args[1], args[2])))
      else if verb == "read" then Op(Read(args[1]))
      else if verb == "delete" then Op(Delete(args[1]))
      else if verb == "mkdir" then Op(Mkdir(args[1]))
      else if verb == "copyfromlocal" then (if |args| < 3 then IndexFault else Op(CopyFromLocal(args[1], args[2])))
      else if verb == "rename" then (if |args| < 3 then IndexFault else Op(Rename(args[1], args[2])))
      else if verb == "copytolocal" then (if |args| < 3 then IndexFault else Op(CopyToLocal(args[1], args[2])))
      else if verb == "modificationtime" then Op(ModificationTime(args[1]))
      else if verb == "getblocklocations" then Op(GetBlockLocations(args[1]))
      else if verb == "gethostnames" then Op(GetHostnames)
      else UnknownVerb
  }

  /** A request whose first two characters are `D`,`O` is a progress marker. */
  predicate IsMarker(request: string)
  {
    |request| >= 2 && request[0] == 'D' && request[1] == 'O'
  }

  /** The marker test (`charAt(0) == 'D' && charAt(1) == 'O'`, which throws on a string too
      short for the character it reads), then `split(" ", 3)` and the verb chain. */
  function Parse(request: string): (p: Parsed)
    ensures p.Marker? <==> IsMarker(request)
    ensures p.IndexFault? && |request| >= 2 ==> !IsMarker(request) && 2 <= |Split(request, 3)|
  {
    if |request| == 0 then IndexFault
    else if request[0] == 'D' && |request| == 1 then IndexFault
    else if request[0] == 'D' && request[1] == 'O' then Marker
    else ParseTokens(Split(request, 3))
  }

  function VerbOf(c: Command): (v: string)
    ensures v in Verbs && NoSpace(v) && v != "" && v[0] != 'D'
  {
    match c
    case Add(_, _) => "add"
    case Read(_) => "read"
    case Delete(_) => "delete"
    case Mkdir(_) => "mkdir"
    case CopyFromLocal(_, _) => "copyfromlocal"
    case Rename(_, _) => "rename"
    case CopyToLocal(_, _) => "copytolocal"
    case ModificationTime(_) => "modificationtime"
    case GetBlockLocations(_) => "getblocklocations"
    case GetHostnames => "gethostnames"
  }

  function ArgsOf(c: Command): seq<string>
  {
    match c
    case Add(s, d) => [s, d]
    case CopyFromLocal(s, d) => [s, d]
    case Rename(s, d) => [s, d]
    case CopyToLocal(s, d) => [s, d]
    case Read(p) => [p]
    case Delete(p) => [p]
    case Mkdir(p) => [p]
    case ModificationTime(p) => [p]
    case GetBlockLocations(p) => [p]
    case GetHostnames => []
  }

  /** The request line for a command, as a producer would write it. */
  function Render(c: Command): string
  {
    Join([VerbOf(c)] + ArgsOf(c))
  }

  /** Arguments the protocol can carry: every argument but a last second one is free of
      spaces (`split(" ", 3)` leaves the spaces of the third token alone). */
  predicate Transmissible(c: Command)
  {
    var a := ArgsOf(c);
    forall k :: 0 <= k < |a| && k != 1 ==> NoSpace(a[k])
  }

  /** Round trip: the worker parses every rendered command with transmissible arguments
      back to the same command, except `gethostnames`, whose line has a single token. */
  lemma ParseRender(c: Command)
    requires Transmissible(c) && !c.GetHostnames?
    ensures Parse(Render(c)) == Op(c)
  {
    var parts := [VerbOf(c)] + ArgsOf(c);
    assert forall k :: 1 <= k < |parts| ==> parts[k] == ArgsOf(c)[k - 1];
    SplitJoin(parts, 3);
    var s := Render(c);
    assert s == VerbOf(c) + " " + Join(parts[1..]);
    assert s[0] == VerbOf(c)[0];
    VerbChainSelects(c);
  }

  /** The verb chain selects the operation a command's own tokens name. */
  lemma VerbChainSelects(c: Command)
    requires !c.GetHostnames?
    ensures ParseTokens([VerbOf(c)] + ArgsOf(c)) == Op(c)
  {
    match c
    case Add(_, _) =>
    case Read(_) =>
    case Delete(_) =>
    case Mkdir(_) =>
    case CopyFromLocal(_, _) =>
    case Rename(_, _) =>
    case CopyToLocal(_, _) =>
    case ModificationTime(_) =>
    case GetBlockLocations(_) =>
  }

  /** A request of one word is never dispatched: a bare `gethostnames` ends the worker. */
  lemma OneWordIsTooFew(request: string)
    requires NoSpace(request) && !IsMarker(request)
    requires request != "" && (request[0] == 'D' ==> |request| >= 2)
    ensures Parse(request) == TooFewTokens
  {
  }

  /** A first token outside the ten verbs is rejected, whatever follows it. */
  lemma UnknownVerbRejected(verb: string, rest: string)
    requires NoSpace(verb) && verb !in Verbs
    requires verb != "" && verb[0] != 'D'
    ensures Parse(verb + " " + rest) == UnknownVerb
  {
    SplitAfterWord(verb, rest, 3);
    assert (verb + " " + rest)[0] == verb[0];
  }

  /** A line that starts with a verb and a space is dispatched on the pieces of the rest,
      which `split(" ", 3)` cuts at most once more. */
  lemma ParseVerbLine(verb: string, rest: string)
    requires verb in Verbs
    ensures Parse(verb + " " + rest) == ParseTokens([verb] + Split(rest, 2))
  {
    assert NoSpace(verb) && verb[0] != 'D' by {
      assert verb in {"add", "read", "delete", "mkdir", "copyfromlocal", "rename",
                      "copytolocal", "modificationtime", "getblocklocations", "gethostnames"};
    }
    SplitAfterWord(verb, rest, 3);
    assert (verb + " " + rest)[0] == verb[0];
  }
}
