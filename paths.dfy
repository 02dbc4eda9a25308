/** POSIX path operations (`os.path.join`, `os.path.dirname`, `os.path.basename`)
    restated over strings, and the "file lies under directory" relation that
    `os.walk` enumerates. */
module Paths {

  /** Index of the last `/` in `p`, or -1 when there is none (`p.rfind('/')`). */
  function LastSlash(p: string): (i: int)
    ensures -1 <= i < |p|
    ensures i >= 0 ==> p[i] == '/'
    ensures forall k | i < k < |p| :: p[k] != '/'
  {
    if p == [] then -1
    else if p[|p| - 1] == '/' then |p| - 1
    else LastSlash(p[..|p| - 1])
  }

  /** `os.path.join(a, b)`: an absolute `b` replaces `a`; otherwise a single
      separator is inserted unless `a` is empty or already ends with one. */
  function Join(a: string, b: string): string {
    if |b| > 0 && b[0] == '/' then b
    else if a == [] || a[|a| - 1] == '/' then a + b
    else a + "/" + b
  }

  /** `os.path.basename(p)`: everything after the last separator. */
  function Basename(p: string): (r: string)
    ensures forall k | 0 <= k < |r| :: r[k] != '/'
  {
    p[LastSlash(p) + 1..]
  }

  predicate AllSlashes(s: string) {
    forall k | 0 <= k < |s| :: s[k] == '/'
  }

  function StripTrailingSlashes(s: string): (r: string)
    ensures |r| <= |s| && r == s[..|r|]
    ensures r == [] || r[|r| - 1] != '/'
  {
    if s != [] && s[|s| - 1] == '/' then StripTrailingSlashes(s[..|s| - 1]) else s
  }

  /** `os.path.dirname(p)`: everything up to the last separator, with trailing
      separators removed unless that would leave only separators. */
  function Dirname(p: string): string {
    var head := p[..LastSlash(p) + 1];
    if head != [] && !AllSlashes(head) then StripTrailingSlashes(head) else head
  }

  /** A path component: non-empty and free of separators. */
  predicate IsComponent(b: string) {
    b != [] && forall k | 0 <= k < |b| :: b[k] != '/'
  }

  /** A directory path that `Join` extends with exactly one separator. */
  predicate IsDirPath(a: string) {
    a != [] && a[|a| - 1] != '/'
  }

  /** Joining a directory and a component inserts exactly one separator. */
  lemma JoinComponent(a: string, b: string)
    requires IsDirPath(a) && IsComponent(b)
    ensures Join(a, b) == a + "/" + b
    ensures IsDirPath(Join(a, b))
  {
  }

  /** Joining a directory and a component, then taking the directory part,
      gives the directory back; the base name is the component. */
  lemma JoinSplit(a: string, b: string)
    requires IsDirPath(a) && IsComponent(b)
    ensures Join(a, b) == a + "/" + b
    ensures IsDirPath(Join(a, b))
    ensures Dirname(Join(a, b)) == a
    ensures Basename(Join(a, b)) == b
  {
    var p := a + "/" + b;
    assert forall k | |a| < k < |p| :: p[k] == b[k - |a| - 1];
    assert LastSlash(p) == |a| by {
      LastSlashAt(p, |a|);
    }
    var head := p[..|a| + 1];
    assert head == a + "/";
    assert head[|a| - 1] == a[|a| - 1];
    assert !AllSlashes(head);
    assert head[..|head| - 1] == a;
    assert StripTrailingSlashes(head) == StripTrailingSlashes(a);
    assert p[|a| + 1..] == b;
  }

  lemma {:induction false} LastSlashAt(p: string, i: nat)
    requires i < |p| && p[i] == '/'
    requires forall k | i < k < |p| :: p[k] != '/'
    ensures LastSlash(p) == i
  {
    if i < |p| - 1 {
      LastSlashAt(p[..|p| - 1], i);
    }
  }

  /** `p` is a file path that `os.walk(dir)` reports: it lies strictly below `dir`. */
  predicate Under(dir: string, p: string) {
    dir != [] &&
    var d := if dir[|dir| - 1] == '/' then dir else dir + "/";
    |d| < |p| && p[..|d|] == d
  }
}
