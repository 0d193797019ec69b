/** Value types shared by the worker and the test drivers. */
module Common {

  /** One byte of a file, as Java's `byte[]` buffers hold it (taken unsigned). */
  newtype byte = b: int | 0 <= b < 256

  datatype Option<T> = None | Some(value: T)

  /** No string occurs twice in `s`. */
  predicate NoDup(s: seq<string>)
  {
    forall i, j :: 0 <= i < j < |s| ==> s[i] != s[j]
  }

  /** `f` applied to every element of `s`, in order. */
  function Each(f: string -> string, s: seq<string>): (r: seq<string>)
    ensures |r| == |s|
    ensures forall k :: 0 <= k < |s| ==> r[k] == f(s[k])
  {
    if s == [] then [] else Each(f, s[..|s| - 1]) + [f(s[|s| - 1])]
  }

  /** Mapping over one more element appends its image. */
  lemma EachSnoc(f: string -> string, s: seq<string>, x: string)
    ensures Each(f, s + [x]) == Each(f, s) + [f(x)]
  {
    assert (s + [x])[..|s|] == s;
  }

  /** The converse of `NoDupSnoc`: the front of a list without duplicates has none, and
      does not hold the last element. */
  lemma NoDupInit(s: seq<string>)
    requires NoDup(s) && s != []
    ensures NoDup(s[..|s| - 1]) && s[|s| - 1] !in s[..|s| - 1]
  {
    var init := s[..|s| - 1];
    forall k | 0 <= k < |init|
      ensures init[k] != s[|s| - 1]
    {
      assert init[k] == s[k];
    }
  }

  /** Appending a new element keeps a sequence duplicate-free. */
  lemma NoDupSnoc(s: seq<string>, x: string)
    requires NoDup(s) && x !in s
    ensures NoDup(s + [x])
  {
    var t := s + [x];
    forall i, j | 0 <= i < j < |t|
      ensures t[i] != t[j]
    {
      if j == |s| {
        assert t[i] == s[i];
      }
    }
  }

  /** Appending to a queue a block of lines in two goes is appending the block. Dafny knows
      this fact; stating it as a call at the end of an enqueue loop only points the solver
      at the one rewriting the loop's invariant needs, which keeps those loops cheap. */
  lemma AppendAssoc(a: seq<string>, b: seq<string>, c: seq<string>)
    ensures (a + b) + c == a + (b + c)
  {
  }
}
