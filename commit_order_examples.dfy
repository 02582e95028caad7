/** What the linearizer returns, proved by unfolding its definition, on four fixed inputs: the chain
    of the repository's own test, the two inputs that show what line 145 of util.js does wrong, and
    an input holding one commit twice, each for the walk as written and as corrected. */
module CommitOrderExamples {
  import opened Wrappers
  import opened CommitOrder
  import opened CommitOrderProofs

  /** A round starts from the head after the cursor. */
  lemma RoundBegins(w: Walk, total: nat, rev: Revision)
    requires Placed(w) && |w.heads| > 0 && |w.result| < total
    ensures Outer(w, total, rev) == Inner(Begin(w), Wrap(Begin(w).i + 1, |w.heads|), total, rev)
  {
    var s := Begin(w);
    assert |s.heads| == |w.heads|;
  }

  /** The walk is over once no head is left or the result is full. */
  lemma WalkEnds(w: Walk, total: nat, rev: Revision)
    requires Placed(w) && (|w.heads| == 0 || |w.result| >= total)
    ensures Outer(w, total, rev) == w.result
  {
  }

  /** One pass of the do-while, then either another pass or the next round. */
  lemma StepTaken(w: Walk, n: int, total: nat, rev: Revision)
    requires Current(w, n)
    ensures Inner(w, n, total, rev) ==
      if DoStep(w, n, rev).1 then Inner(DoStep(w, n, rev).0, n, total, rev) else Outer(DoStep(w, n, rev).0, total, rev)
  {
  }

  // ---- The simple chain #3 -> #2 -> #1, where #1 names itself as its parent (util.spec.js:53-72).

  const C3 := Commit("#3", ["#2"], 3)
  const C2 := Commit("#2", ["#1"], 2)
  const C1 := Commit("#1", ["#1"], 1)

  lemma ChainParents()
    ensures ParentIds([C3, C2, C1]) == {"#2", "#1"}
  {
    assert [C3, C2, C1][..2] == [C3, C2];
    assert [C3, C2][..1] == [C3];
    assert ParentIds([C3]) == {"#2"};
  }

  lemma ChainHeads()
    ensures Unparented([C3, C2, C1], {"#2", "#1"}) == [C3]
  {
    assert [C3, C2, C1][..2] == [C3, C2];
    assert [C3, C2][..1] == [C3];
    var ps := {"#2", "#1"};
    assert Unparented([C3], ps) == [C3];
    assert Unparented([C3, C2], ps) == [C3];
  }

  lemma ChainPool()
    ensures PoolOf([C3, C2, C1]) == map["#3" := C3, "#2" := C2, "#1" := C1]
  {
    assert [C3, C2, C1][..2] == [C3, C2];
    assert [C3, C2][..1] == [C3];
  }

  lemma ChainStart()
    ensures InitialWalk([C3, C2, C1]) == Walk([C3], map["#3" := C3, "#2" := C2, "#1" := C1], [], -1)
  {
    ChainParents();
    ChainHeads();
    ChainPool();
  }

  /** With a single head, `n` is the cursor itself, so every continuation waits for the next round. */
  lemma ChainSteps(rev: Revision)
    ensures DoStep(Walk([C3], map["#3" := C3, "#2" := C2, "#1" := C1], [C3], 0), 0, rev)
      == (Walk([C2], map["#3" := C3, "#1" := C1], [C3], 0), false)
    ensures DoStep(Walk([C2], map["#3" := C3, "#1" := C1], [C3, C2], 0), 0, rev)
      == (Walk([C1], map["#3" := C3], [C3, C2], 0), false)
    ensures DoStep(Walk([C1], map["#3" := C3], [C3, C2, C1], 0), 0, rev)
      == (Walk([], map["#3" := C3], [C3, C2, C1], -1), false)
  {
    assert map["#3" := C3, "#2" := C2, "#1" := C1] - {"#2"} == map["#3" := C3, "#1" := C1];
    assert map["#3" := C3, "#1" := C1] - {"#1"} == map["#3" := C3];
    assert [C3][0 := C2] == [C2];
    assert [C2][0 := C1] == [C1];
  }

  lemma ChainRounds(rev: Revision)
    ensures Outer(Walk([C3], map["#3" := C3, "#2" := C2, "#1" := C1], [], -1), 3, rev) == [C3, C2, C1]
  {
    ChainSteps(rev);
    var w0 := Walk([C3], map["#3" := C3, "#2" := C2, "#1" := C1], [], -1);
    var w1 := Walk([C2], map["#3" := C3, "#1" := C1], [C3], 0);
    var w2 := Walk([C1], map["#3" := C3], [C3, C2], 0);
    var w3 := Walk([], map["#3" := C3], [C3, C2, C1], -1);
    RoundBegins(w0, 3, rev);
    assert Begin(w0) == Walk([C3], w0.pool, [C3], 0);
    StepTaken(Begin(w0), 0, 3, rev);
    RoundBegins(w1, 3, rev);
    assert Begin(w1) == Walk([C2], w1.pool, [C3, C2], 0);
    StepTaken(Begin(w1), 0, 3, rev);
    RoundBegins(w2, 3, rev);
    assert Begin(w2) == Walk([C1], w2.pool, [C3, C2, C1], 0);
    StepTaken(Begin(w2), 0, 3, rev);
    WalkEnds(w3, 3, rev);
  }

  /** The repository's test: the chain comes back in input order, from the source as written and from
      the corrected walk alike. */
  lemma ChainKeepsInputOrder()
    ensures Linearize([C3, C2, C1]) == Success([C3, C2, C1])
    ensures LinearizeCorrected([C3, C2, C1]) == Success([C3, C2, C1])
  {
    ChainStart();
    ChainRounds(AsWritten);
    ChainRounds(Corrected);
  }

  // ---- A line of three commits a5 -> a4 -> a3 beside a lone b1: as written, line 145 takes a3 out
  // of the pool after emitting a4 and the do-while then finds a4's parent gone, so a3 is lost.

  const A5 := Commit("a5", ["a4"], 5)
  const A4 := Commit("a4", ["a3"], 4)
  const A3 := Commit("a3", [], 3)
  const B1 := Commit("b1", [], 1)

  lemma LostParents()
    ensures ParentIds([A5, A4, A3, B1]) == {"a4", "a3"}
  {
    var cs := [A5, A4, A3, B1];
    assert cs[..3] == [A5, A4, A3] && cs[..3][..2] == [A5, A4] && cs[..3][..2][..1] == [A5];
    assert ParentIds([A5]) == {"a4"};
    assert ParentIds([A5, A4]) == {"a4", "a3"};
  }

  lemma LostHeads()
    ensures Unparented([A5, A4, A3, B1], {"a4", "a3"}) == [A5, B1]
  {
    var cs := [A5, A4, A3, B1];
    assert cs[..3] == [A5, A4, A3] && cs[..3][..2] == [A5, A4] && cs[..3][..2][..1] == [A5];
    var ps := {"a4", "a3"};
    assert Unparented([A5], ps) == [A5];
    assert Unparented([A5, A4], ps) == [A5];
    assert Unparented([A5, A4, A3], ps) == [A5];
  }

  lemma LostPool()
    ensures PoolOf([A5, A4, A3, B1]) == map["a5" := A5, "a4" := A4, "a3" := A3, "b1" := B1]
  {
    var cs := [A5, A4, A3, B1];
    assert cs[..3] == [A5, A4, A3] && cs[..3][..2] == [A5, A4] && cs[..3][..2][..1] == [A5];
    assert PoolOf([A5]) == map["a5" := A5];
    assert PoolOf([A5, A4]) == map["a5" := A5, "a4" := A4];
    assert PoolOf([A5, A4, A3]) == map["a5" := A5, "a4" := A4, "a3" := A3];
  }

  lemma LostSorted()
    ensures SortByTime([A5, B1]) == [A5, B1]
  {
    assert [A5, B1][1..] == [B1];
    assert SortByTime([B1]) == [B1];
  }

  lemma LostStart()
    ensures InitialWalk([A5, A4, A3, B1])
      == Walk([A5, B1], map["a5" := A5, "a4" := A4, "a3" := A3, "b1" := B1], [], -1)
  {
    LostParents();
    LostHeads();
    LostPool();
    LostSorted();
  }

  lemma LostSteps(rev: Revision)
    ensures DoStep(Walk([A5, B1], map["a5" := A5, "a4" := A4, "a3" := A3, "b1" := B1], [A5], 0), 1, AsWritten)
      == (Walk([A4, B1], map["a5" := A5, "b1" := B1], [A5, A4], 0), true)
    ensures DoStep(Walk([A5, B1], map["a5" := A5, "a4" := A4, "a3" := A3, "b1" := B1], [A5], 0), 1, Corrected)
      == (Walk([A4, B1], map["a5" := A5, "a3" := A3, "b1" := B1], [A5, A4], 0), true)
    ensures DoStep(Walk([A4, B1], map["a5" := A5, "b1" := B1], [A5, A4], 0), 1, rev)
      == (Walk([B1], map["a5" := A5, "b1" := B1], [A5, A4], -1), false)
  {
    var p0 := map["a5" := A5, "a4" := A4, "a3" := A3, "b1" := B1];
    var p1 := map["a5" := A5, "a3" := A3, "b1" := B1];
    assert p0 - {"a4"} == p1;
    assert p1 - {"a3"} == map["a5" := A5, "b1" := B1];
    assert [A5, B1][0 := A4] == [A4, B1];
    assert [A5] + [A4] == [A5, A4];
    assert [A4, B1][..0] + [A4, B1][1..] == [B1];
  }

  lemma LostCorrectedSteps()
    ensures DoStep(Walk([A4, B1], map["a5" := A5, "a3" := A3, "b1" := B1], [A5, A4], 0), 1, Corrected)
      == (Walk([A3, B1], map["a5" := A5, "b1" := B1], [A5, A4, A3], 0), true)
    ensures DoStep(Walk([A3, B1], map["a5" := A5, "b1" := B1], [A5, A4, A3], 0), 1, Corrected)
      == (Walk([B1], map["a5" := A5, "b1" := B1], [A5, A4, A3], -1), false)
  {
    assert map["a5" := A5, "a3" := A3, "b1" := B1] - {"a3"} == map["a5" := A5, "b1" := B1];
    assert [A4, B1][0 := A3] == [A3, B1];
    assert [A5, A4] + [A3] == [A5, A4, A3];
    assert [A3, B1][..0] + [A3, B1][1..] == [B1];
  }

  /** The last round of both walks: the lone head b1 is emitted and drained. */
  lemma LostLastRound(w: Walk, rev: Revision)
    requires w.heads == [B1] && w.i == -1 && |w.result| < 4
    ensures Outer(w, 4, rev) == w.result + [B1]
  {
    RoundBegins(w, 4, rev);
    var s := Begin(w);
    assert s == Walk([B1], w.pool, w.result + [B1], 0);
    StepTaken(s, 0, 4, rev);
    assert DoStep(s, 0, rev) == (Walk([], w.pool, w.result + [B1], -1), false);
    WalkEnds(Walk([], w.pool, w.result + [B1], -1), 4, rev);
  }

  lemma LostFirstRound()
    ensures Outer(Walk([A5, B1], map["a5" := A5, "a4" := A4, "a3" := A3, "b1" := B1], [], -1), 4, AsWritten)
      == Outer(Walk([B1], map["a5" := A5, "b1" := B1], [A5, A4], -1), 4, AsWritten)
  {
    LostSteps(AsWritten);
    var w0 := Walk([A5, B1], map["a5" := A5, "a4" := A4, "a3" := A3, "b1" := B1], [], -1);
    RoundBegins(w0, 4, AsWritten);
    assert Begin(w0) == Walk([A5, B1], w0.pool, [A5], 0);
    StepTaken(Begin(w0), 1, 4, AsWritten);
    StepTaken(Walk([A4, B1], map["a5" := A5, "b1" := B1], [A5, A4], 0), 1, 4, AsWritten);
  }

  lemma LostFirstRoundCorrected()
    ensures Outer(Walk([A5, B1], map["a5" := A5, "a4" := A4, "a3" := A3, "b1" := B1], [], -1), 4, Corrected)
      == Outer(Walk([B1], map["a5" := A5, "b1" := B1], [A5, A4, A3], -1), 4, Corrected)
  {
    LostSteps(Corrected);
    LostCorrectedSteps();
    var w0 := Walk([A5, B1], map["a5" := A5, "a4" := A4, "a3" := A3, "b1" := B1], [], -1);
    RoundBegins(w0, 4, Corrected);
    assert Begin(w0) == Walk([A5, B1], w0.pool, [A5], 0);
    StepTaken(Begin(w0), 1, 4, Corrected);
    StepTaken(Walk([A4, B1], map["a5" := A5, "a3" := A3, "b1" := B1], [A5, A4], 0), 1, 4, Corrected);
    StepTaken(Walk([A3, B1], map["a5" := A5, "b1" := B1], [A5, A4, A3], 0), 1, 4, Corrected);
  }

  lemma LostOutcomes()
    ensures Outer(Walk([A5, B1], map["a5" := A5, "a4" := A4, "a3" := A3, "b1" := B1], [], -1), 4, AsWritten)
      == [A5, A4, B1]
    ensures Outer(Walk([A5, B1], map["a5" := A5, "a4" := A4, "a3" := A3, "b1" := B1], [], -1), 4, Corrected)
      == [A5, A4, A3, B1]
  {
    LostFirstRound();
    LostFirstRoundCorrected();
    LostLastRound(Walk([B1], map["a5" := A5, "b1" := B1], [A5, A4], -1), AsWritten);
    LostLastRound(Walk([B1], map["a5" := A5, "b1" := B1], [A5, A4, A3], -1), Corrected);
    assert [A5, A4] + [B1] == [A5, A4, B1];
    assert [A5, A4, A3] + [B1] == [A5, A4, A3, B1];
  }

  /** As written, a3 never reaches the result and orderCommits throws "Result not full: 3 , 4";
      corrected, the four commits come out newest first. */
  lemma LostParent()
    ensures Linearize([A5, A4, A3, B1]) == Failure(ResultNotFull(3, 4))
    ensures LinearizeCorrected([A5, A4, A3, B1]) == Success([A5, A4, A3, B1])
  {
    LostStart();
    LostOutcomes();
  }

  // ---- Two independent lines s3 -> s2 and t1 -> t0: as written, s2 is emitted at line 144, stays the
  // head at the cursor although line 145 finds no parent for it, and is emitted again by line 102 in
  // a later round; the length check passes with s2 twice and t0 missing.

  const S3 := Commit("s3", ["s2"], 3)
  const S2 := Commit("s2", [], 2)
  const T1 := Commit("t1", ["t0"], 1)
  const T0 := Commit("t0", [], 0)

  lemma IndepParents()
    ensures ParentIds([S3, S2, T1, T0]) == {"s2", "t0"}
  {
    var cs := [S3, S2, T1, T0];
    assert cs[..3] == [S3, S2, T1] && cs[..3][..2] == [S3, S2] && cs[..3][..2][..1] == [S3];
    assert ParentIds([S3]) == {"s2"};
    assert ParentIds([S3, S2]) == {"s2"};
    assert ParentIds([S3, S2, T1]) == {"s2", "t0"};
  }

  lemma IndepHeads()
    ensures Unparented([S3, S2, T1, T0], {"s2", "t0"}) == [S3, T1]
  {
    var cs := [S3, S2, T1, T0];
    assert cs[..3] == [S3, S2, T1] && cs[..3][..2] == [S3, S2] && cs[..3][..2][..1] == [S3];
    var ps := {"s2", "t0"};
    assert "s3" !in ps && "s2" in ps && "t1" !in ps && "t0" in ps;
    assert Unparented([S3], ps) == [S3];
    assert Unparented([S3, S2], ps) == [S3];
    assert Unparented([S3, S2, T1], ps) == [S3, T1];
  }

  lemma IndepPool()
    ensures PoolOf([S3, S2, T1, T0]) == map["s3" := S3, "s2" := S2, "t1" := T1, "t0" := T0]
  {
    var cs := [S3, S2, T1, T0];
    assert cs[..3] == [S3, S2, T1] && cs[..3][..2] == [S3, S2] && cs[..3][..2][..1] == [S3];
    assert PoolOf([S3]) == map["s3" := S3];
    assert PoolOf([S3, S2]) == map["s3" := S3, "s2" := S2];
    assert PoolOf([S3, S2, T1]) == map["s3" := S3, "s2" := S2, "t1" := T1];
  }

  lemma IndepSorted()
    ensures SortByTime([S3, T1]) == [S3, T1]
  {
    assert [S3, T1][1..] == [T1];
    assert SortByTime([T1]) == [T1];
  }

  lemma IndepStart()
    ensures InitialWalk([S3, S2, T1, T0]) == Walk([S3, T1], map["s3" := S3, "s2" := S2, "t1" := T1, "t0" := T0], [], -1)
  {
    IndepParents();
    IndepHeads();
    IndepPool();
    IndepSorted();
  }

  lemma IndepFirstStep()
    ensures DoStep(Walk([S3, T1], map["s3" := S3, "s2" := S2, "t1" := T1, "t0" := T0], [S3], 0), 1, AsWritten) == (Walk([S2, T1], map["s3" := S3, "t1" := T1, "t0" := T0], [S3, S2], 0), false)
    ensures DoStep(Walk([S3, T1], map["s3" := S3, "s2" := S2, "t1" := T1, "t0" := T0], [S3], 0), 1, Corrected) == (Walk([S2, T1], map["s3" := S3, "t1" := T1, "t0" := T0], [S3, S2], 0), true)
  {
    assert map["s3" := S3, "s2" := S2, "t1" := T1, "t0" := T0] - {"s2"} == map["s3" := S3, "t1" := T1, "t0" := T0];
    assert [S3, T1][0 := S2] == [S2, T1];
    assert [S3] + [S2] == [S3, S2];
  }

  lemma IndepLaterSteps()
    ensures DoStep(Walk([S2, T1], map["s3" := S3, "t1" := T1, "t0" := T0], [S3, S2, T1], 1), 0, AsWritten) == (Walk([S2, T0], map["s3" := S3, "t1" := T1], [S3, S2, T1], 1), false)
    ensures DoStep(Walk([S2, T0], map["s3" := S3, "t1" := T1], [S3, S2, T1, S2], 0), 1, AsWritten)
      == (Walk([T0], map["s3" := S3, "t1" := T1], [S3, S2, T1, S2], -1), false)
  {
    assert map["s3" := S3, "t1" := T1, "t0" := T0] - {"t0"} == map["s3" := S3, "t1" := T1];
    assert [S2, T1][1 := T0] == [S2, T0];
    assert [S2, T0][..0] + [S2, T0][1..] == [T0];
  }

  lemma IndepCorrectedSteps()
    ensures DoStep(Walk([S2, T1], map["s3" := S3, "t1" := T1, "t0" := T0], [S3, S2], 0), 1, Corrected) == (Walk([T1], map["s3" := S3, "t1" := T1, "t0" := T0], [S3, S2], -1), false)
    ensures DoStep(Walk([T1], map["s3" := S3, "t1" := T1, "t0" := T0], [S3, S2, T1], 0), 0, Corrected) == (Walk([T0], map["s3" := S3, "t1" := T1], [S3, S2, T1], 0), false)
    ensures DoStep(Walk([T0], map["s3" := S3, "t1" := T1], [S3, S2, T1, T0], 0), 0, Corrected) == (Walk([], map["s3" := S3, "t1" := T1], [S3, S2, T1, T0], -1), false)
  {
    assert [S2, T1][..0] + [S2, T1][1..] == [T1];
    assert map["s3" := S3, "t1" := T1, "t0" := T0] - {"t0"} == map["s3" := S3, "t1" := T1];
    assert [T1][0 := T0] == [T0];
  }

  lemma IndepRounds()
    ensures Outer(Walk([S3, T1], map["s3" := S3, "s2" := S2, "t1" := T1, "t0" := T0], [], -1), 4, AsWritten) == [S3, S2, T1, S2]
  {
    IndepFirstStep();
    IndepLaterSteps();
    var w0 := Walk([S3, T1], map["s3" := S3, "s2" := S2, "t1" := T1, "t0" := T0], [], -1);
    var w1 := Walk([S2, T1], map["s3" := S3, "t1" := T1, "t0" := T0], [S3, S2], 0);
    var w2 := Walk([S2, T0], map["s3" := S3, "t1" := T1], [S3, S2, T1], 1);
    RoundBegins(w0, 4, AsWritten);
    assert Begin(w0) == Walk([S3, T1], map["s3" := S3, "s2" := S2, "t1" := T1, "t0" := T0], [S3], 0);
    StepTaken(Begin(w0), 1, 4, AsWritten);
    RoundBegins(w1, 4, AsWritten);
    assert Begin(w1) == Walk([S2, T1], map["s3" := S3, "t1" := T1, "t0" := T0], [S3, S2, T1], 1);
    StepTaken(Begin(w1), 0, 4, AsWritten);
    RoundBegins(w2, 4, AsWritten);
    assert Begin(w2) == Walk([S2, T0], map["s3" := S3, "t1" := T1], [S3, S2, T1, S2], 0);
    StepTaken(Begin(w2), 1, 4, AsWritten);
    WalkEnds(Walk([T0], map["s3" := S3, "t1" := T1], [S3, S2, T1, S2], -1), 4, AsWritten);
  }

  lemma IndepFirstRoundCorrected()
    ensures Outer(Walk([S3, T1], map["s3" := S3, "s2" := S2, "t1" := T1, "t0" := T0], [], -1), 4, Corrected) == Outer(Walk([T1], map["s3" := S3, "t1" := T1, "t0" := T0], [S3, S2], -1), 4, Corrected)
  {
    IndepFirstStep();
    IndepCorrectedSteps();
    var w0 := Walk([S3, T1], map["s3" := S3, "s2" := S2, "t1" := T1, "t0" := T0], [], -1);
    RoundBegins(w0, 4, Corrected);
    assert Begin(w0) == Walk([S3, T1], map["s3" := S3, "s2" := S2, "t1" := T1, "t0" := T0], [S3], 0);
    StepTaken(Begin(w0), 1, 4, Corrected);
    StepTaken(Walk([S2, T1], map["s3" := S3, "t1" := T1, "t0" := T0], [S3, S2], 0), 1, 4, Corrected);
  }

  lemma IndepRoundsCorrected()
    ensures Outer(Walk([S3, T1], map["s3" := S3, "s2" := S2, "t1" := T1, "t0" := T0], [], -1), 4, Corrected) == [S3, S2, T1, T0]
  {
    IndepFirstRoundCorrected();
    IndepCorrectedSteps();
    var w1 := Walk([T1], map["s3" := S3, "t1" := T1, "t0" := T0], [S3, S2], -1);
    var w2 := Walk([T0], map["s3" := S3, "t1" := T1], [S3, S2, T1], 0);
    RoundBegins(w1, 4, Corrected);
    assert Begin(w1) == Walk([T1], map["s3" := S3, "t1" := T1, "t0" := T0], [S3, S2, T1], 0);
    StepTaken(Begin(w1), 0, 4, Corrected);
    RoundBegins(w2, 4, Corrected);
    assert Begin(w2) == Walk([T0], map["s3" := S3, "t1" := T1], [S3, S2, T1, T0], 0);
    StepTaken(Begin(w2), 0, 4, Corrected);
    WalkEnds(Walk([], map["s3" := S3, "t1" := T1], [S3, S2, T1, T0], -1), 4, Corrected);
  }

  /** As written, orderCommits returns s2 twice and never t0, and the final length check lets that
      through; corrected, each of the four commits comes out once. */
  lemma RepeatedHead()
    ensures Linearize([S3, S2, T1, T0]) == Success([S3, S2, T1, S2])
    ensures !NoDup(Linearize([S3, S2, T1, T0]).value) && T0 !in Linearize([S3, S2, T1, T0]).value
    ensures LinearizeCorrected([S3, S2, T1, T0]) == Success([S3, S2, T1, T0])
  {
    IndepStart();
    IndepRounds();
    IndepRoundsCorrected();
    Repeats();
  }

  lemma Repeats()
    ensures !NoDup([S3, S2, T1, S2]) && T0 !in [S3, S2, T1, S2]
  {
    assert [S3, S2, T1, S2][1] == [S3, S2, T1, S2][3];
  }

  // ---- One parentless commit given twice: no commit names it, so lines 83-87 push it into `heads`
  // twice, and both walks emit it twice; the length check at lines 160-166 lets that through.

  const X := Commit("x", [], 1)

  lemma TwiceHeads()
    ensures ParentIds([X, X]) == {} && Unparented([X, X], {}) == [X, X]
  {
    assert [X, X][..1] == [X];
    assert ParentIds([X]) == {};
    assert Unparented([X], {}) == [X];
  }

  lemma TwiceSorted()
    ensures SortByTime([X, X]) == [X, X]
  {
    assert [X, X][1..] == [X];
    assert SortByTime([X]) == [X];
  }

  lemma TwiceStart()
    ensures InitialWalk([X, X]) == Walk([X, X], map["x" := X], [], -1)
  {
    TwiceHeads();
    TwiceSorted();
    assert [X, X][..1] == [X];
  }

  lemma TwiceRounds(rev: Revision)
    ensures Outer(Walk([X, X], map["x" := X], [], -1), 2, rev) == [X, X]
  {
    var w0 := Walk([X, X], map["x" := X], [], -1);
    var w1 := Walk([X], map["x" := X], [X], -1);
    var w2 := Walk([], map["x" := X], [X, X], -1);
    RoundBegins(w0, 2, rev);
    assert Begin(w0) == Walk([X, X], w0.pool, [X], 0);
    StepTaken(Begin(w0), 1, 2, rev);
    assert [X, X][..0] + [X, X][1..] == [X];
    assert DoStep(Begin(w0), 1, rev) == (w1, false);
    RoundBegins(w1, 2, rev);
    assert Begin(w1) == Walk([X], w1.pool, [X, X], 0);
    StepTaken(Begin(w1), 0, 2, rev);
    assert DoStep(Begin(w1), 0, rev) == (w2, false);
    WalkEnds(w2, 2, rev);
  }

  /** A commit given twice comes back twice from both walks, so neither the source nor the corrected
      walk returns a repeat-free ordering of an input that holds a repeated commit. */
  lemma RepeatedInput()
    ensures Linearize([X, X]) == Success([X, X])
    ensures LinearizeCorrected([X, X]) == Success([X, X])
    ensures !NoDup(LinearizeCorrected([X, X]).value)
  {
    TwiceStart();
    TwiceRounds(AsWritten);
    TwiceRounds(Corrected);
    assert [X, X][0] == [X, X][1];
  }
}
