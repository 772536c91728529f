/**
 * The two `path/filepath` helpers the lab engine uses to place disk images:
 * `IsAbs` and a two-element `Join`.
 */
module Paths {

  /** `filepath.IsAbs` on Unix: the path starts at the root. */
  predicate IsAbs(p: string) {
    |p| > 0 && p[0] == '/'
  }

  /**
   * `filepath.Join(dir, elem)` without the final lexical clean-up: empty
   * elements are skipped and the others are joined with one '/'.
   */
  function JoinPath(dir: string, elem: string): (r: string)
    ensures dir == "" ==> r == elem
    ensures elem == "" ==> r == dir
    ensures dir != "" && elem != "" ==> |r| == |dir| + 1 + |elem| && r[..|dir|] == dir && r[|dir|] == '/' && r[|dir| + 1..] == elem
  {
    if dir == "" then elem else if elem == "" then dir else dir + "/" + elem
  }

  /** Joining under an absolute directory gives an absolute path. */
  lemma JoinUnderAbs(dir: string, elem: string)
    requires IsAbs(dir)
    ensures IsAbs(JoinPath(dir, elem))
  {
  }
}
