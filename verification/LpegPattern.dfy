/**
 A pattern on its way from tree to result: the final adjustment, the compiler and the machine.
 */
module LpegPattern {
  import opened Basics
  import opened LpegTree
  import opened LpegRewrite
  import opened LpegRun

  /** `prepcompile` and `match`: the adjusted tree, compiled and run, gives what the tree as it was written means. */
  method MatchPattern(t: Tree, S: Subject, start: nat) returns (r: Option<nat>)
    requires WellFormed(t) && start <= |S|
    ensures r == Parse(t, S, start)
  {
    hide Parse, FinalFix, WellFormed;
    FinalFixSame(t);
    FinalFixAlike(t);
    r := CompileAndMatch(FinalFix(t), S, start);
    assert Parse(FinalFix(t), S, start) == Parse(t, S, start);
  }
}
