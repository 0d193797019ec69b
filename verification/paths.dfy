/** The string handling the worker does on path names. */
module Paths {

  /** Java's `s.lastIndexOf('/')`: the index of the last slash, or -1 when there is none. */
  function LastSlash(s: string): (r: int)
    ensures -1 <= r < |s|
    ensures r >= 0 ==> s[r] == '/'
    ensures forall k :: r < k < |s| ==> s[k] != '/'
  {
    if s == [] then -1
    else if s[|s| - 1] == '/' then |s| - 1
    else LastSlash(s[..|s| - 1])
  }

  /** `s.substring(s.lastIndexOf('/') + 1, s.length())`: the file name part of a path. */
  function Basename(s: string): (r: string)
    ensures '/' !in r
    ensures |r| <= |s| && r == s[|s| - |r|..]
    ensures '/' !in s ==> r == s
  {
    var i := LastSlash(s) + 1;
    assert forall c :: c in s[i..] ==> c != '/';
    s[i..]
  }

  /** Putting a directory prefix in front of a path does not change its file name. */
  lemma BasenameAppend(dir: string, name: string)
    requires |dir| > 0 && dir[|dir| - 1] == '/'
    ensures Basename(dir + name) == Basename(name)
  {
    var s := dir + name;
    assert forall k :: |dir| <= k < |s| ==> s[k] == name[k - |dir|];
    var r, ln := LastSlash(s), LastSlash(name);
    if ln >= 0 {
      assert s[|dir| + ln] == '/';
      assert r == |dir| + ln;
    } else {
      assert s[|dir| - 1] == '/';
      assert r == |dir| - 1;
    }
    assert s[r + 1..] == name[ln + 1..];
  }

  /** addFile's destination: a `dest` that ends in a slash names a directory, into which the
      source file goes under its own file name. `dest` must be non-empty (the source reads its
      last character). */
  function Target(source: string, dest: string): string
    requires dest != ""
  {
    if dest[|dest| - 1] == '/' then dest + Basename(source) else dest
  }

  /** The trailing-slash rule: the target lies in the directory `dest` and carries the source's
      file name; any other `dest` is taken as it is. */
  lemma TargetRule(source: string, dest: string)
    requires dest != ""
    ensures dest[|dest| - 1] == '/' ==>
      && Target(source, dest)[..|dest|] == dest
      && Basename(Target(source, dest)) == Basename(source)
    ensures dest[|dest| - 1] != '/' ==> Target(source, dest) == dest
  {
    if dest[|dest| - 1] == '/' {
      BasenameAppend(dest, Basename(source));
    }
  }

  /** The key of a host-local file: `./x` and `x` name the same file of the working directory. */
  function LocalKey(p: string): (k: string)
    ensures |p| >= 2 && p[..2] == "./" ==> p == "./" + k
    ensures !(|p| >= 2 && p[..2] == "./") ==> k == p
  {
    if |p| >= 2 && p[..2] == "./" then p[2..] else p
  }

  /** `./name` is the local file `name`. */
  lemma LocalKeyDotSlash(name: string)
    ensures LocalKey("./" + name) == name
  {
    assert ("./" + name)[..2] == "./" && ("./" + name)[2..] == name;
  }
}
