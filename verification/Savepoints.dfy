/**
 Runs of the pager seen as a stack of states: what its operations do to the current state and to
 the states savepoints recorded, and what a rollback finds after any nesting of them.
 */
module Savepoints {
  datatype Stacked<S> = Stacked(cur: S, saved: seq<S>)

  /** Writes, allocations and frees change the current state in some way. */
  datatype Op<S> = Change(to: S) | Save | Release(level: int) | RollbackTo(level: int)

  predicate IsLevel<S>(st: Stacked<S>, level: int) { 0 <= level < |st.saved| }

  function Do<S>(st: Stacked<S>, op: Op<S>): Stacked<S> {
    match op
    case Change(s) => st.(cur := s)
    case Save => st.(saved := st.saved + [st.cur])
    case Release(level) => if IsLevel(st, level) then st.(saved := st.saved[..level]) else st
    case RollbackTo(level) => if IsLevel(st, level) then Stacked(st.saved[level], st.saved[..level + 1]) else st
  }

  lemma RollbackIs<S>(st: Stacked<S>, level: int)
    ensures Do(st, RollbackTo(level)) == if 0 <= level < |st.saved| then Stacked(st.saved[level], st.saved[..level + 1]) else st
  {
  }

  function Run<S>(st: Stacked<S>, ops: seq<Op<S>>): Stacked<S> {
    if ops == [] then st else Do(Run(st, ops[..|ops| - 1]), ops[|ops| - 1])
  }

  /** No operation releases the level or rolls back to one outside it. */
  predicate Inside<S>(ops: seq<Op<S>>, level: int) {
    forall i :: 0 <= i < |ops| ==> (ops[i].Release? ==> ops[i].level > level) && (ops[i].RollbackTo? ==> ops[i].level >= level)
  }

  /** What was recorded at a level and outside it stays recorded, whatever is nested inside. */
  lemma {:induction false} LevelKept<S>(st: Stacked<S>, ops: seq<Op<S>>, level: nat)
    requires IsLevel(st, level) && Inside(ops, level)
    ensures IsLevel(Run(st, ops), level) && Run(st, ops).saved[..level + 1] == st.saved[..level + 1]
  {
    if ops != [] {
      var front, op := ops[..|ops| - 1], ops[|ops| - 1];
      LevelKept(st, front, level);
      var mid := Run(st, front);
      var end := Do(mid, op);
      assert end.saved[..level + 1] == mid.saved[..level + 1];
    }
  }

  /**
   Rolling back to a savepoint restores exactly the state that held when it was set and keeps
   the outer savepoints, after any nesting of changes, savepoints, releases and rollbacks inside it.
   */
  lemma RollbackRestores<S>(st: Stacked<S>, ops: seq<Op<S>>)
    requires Inside(ops, |st.saved|)
    ensures var start := Do(st, Save); Do(Run(start, ops), RollbackTo(|st.saved|)) == start
  {
    var start := Do(st, Save);
    LevelKept(start, ops, |st.saved|);
    assert Run(start, ops).saved[|st.saved|] == Run(start, ops).saved[..|st.saved| + 1][|st.saved|];
  }

  /** Releasing it instead keeps every change and forgets only what is inside. */
  lemma ReleaseKeeps<S>(st: Stacked<S>, ops: seq<Op<S>>)
    requires Inside(ops, |st.saved|)
    ensures var end := Run(Do(st, Save), ops); Do(end, Release(|st.saved|)) == Stacked(end.cur, st.saved)
  {
    var start := Do(st, Save);
    LevelKept(start, ops, |st.saved|);
    var end := Run(start, ops);
    assert end.saved[..|st.saved|] == end.saved[..|st.saved| + 1][..|st.saved|] == st.saved;
  }
}
