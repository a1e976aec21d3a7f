/** The two `os.path` functions the detector uses, as POSIX defines them. */
module Paths {

  /** Number of characters up to and including the last '/' of `p`. */
  function DirLength(p: string): (n: nat)
    ensures n <= |p|
    ensures forall i :: n <= i < |p| ==> p[i] != '/'
    ensures n > 0 ==> p[n - 1] == '/'
  {
    if p == [] then 0
    else if p[|p| - 1] == '/' then |p|
    else DirLength(p[..|p| - 1])
  }

  /** `os.path.basename(p)`: the part after the last '/'. */
  function Basename(p: string): (b: string)
    ensures '/' !in b
  {
    p[DirLength(p)..]
  }

  /** `os.path.join(a, b)`: an absolute `b` replaces `a`; otherwise a '/' is
      put between them unless `a` is empty or already ends in one. */
  function Join(a: string, b: string): string {
    if |b| > 0 && b[0] == '/' then b
    else if a == [] || a[|a| - 1] == '/' then a + b
    else a + "/" + b
  }

  lemma BasenameOfName(n: string)
    requires '/' !in n
    ensures Basename(n) == n
  {
    if n != [] {
      assert n[|n| - 1] in n;
    }
    assert forall i :: 0 <= i < |n| ==> n[i] in n;
    DirOfName(n);
  }

  lemma {:induction false} DirOfName(n: string)
    requires forall i :: 0 <= i < |n| ==> n[i] != '/'
    ensures DirLength(n) == 0
  {
    if n != [] {
      DirOfName(n[..|n| - 1]);
    }
  }

  lemma {:induction false} DirLengthAfterSlash(a: string, n: string)
    requires |a| > 0 && a[|a| - 1] == '/'
    requires forall i :: 0 <= i < |n| ==> n[i] != '/'
    ensures DirLength(a + n) == |a|
  {
    if n != [] {
      assert (a + n)[..|a + n| - 1] == a + n[..|n| - 1];
      DirLengthAfterSlash(a, n[..|n| - 1]);
    } else {
      assert a + n == a;
    }
  }

  /** The base name of a file joined onto a directory is the file's name: this
      is what lets a full segment path act as an exception by name. */
  lemma BasenameOfJoin(dir: string, name: string)
    requires '/' !in name
    ensures Basename(Join(dir, name)) == name
  {
    assert forall i :: 0 <= i < |name| ==> name[i] in name;
    assert Join(dir, name) == if dir == [] || dir[|dir| - 1] == '/' then dir + name else dir + "/" + name;
    if dir == [] {
      DirOfName(name);
    } else if dir[|dir| - 1] == '/' {
      DirLengthAfterSlash(dir, name);
    } else {
      assert dir + "/" + name == (dir + "/") + name;
      DirLengthAfterSlash(dir + "/", name);
    }
  }
}
