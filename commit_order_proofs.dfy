/** Properties of the linearizer: every commit it emits comes from its input, and, with line 145
    corrected and for an input without repeated commits, no commit is emitted twice, so a successful
    result is an ordering of the input. */
module CommitOrderProofs {
  import opened Wrappers
  import opened CommitOrder

  /** Every commit the walk holds (as a head, in the pool or in the result) is one of `cs`. */
  predicate Drawn(w: Walk, cs: seq<Commit>) {
    (forall c :: c in w.heads ==> c in cs) &&
    (forall c :: c in w.result ==> c in cs) &&
    (forall id :: id in w.pool ==> w.pool[id] in cs)
  }

  /** Taking the parents of the head at the cursor (lines 109-138) keeps every commit drawn from `cs`,
      and the commit it hands on is one of `cs`. */
  lemma TakeParentsDrawn(w: Walk, cs: seq<Commit>)
    requires 0 <= w.i < |w.heads| && Drawn(w, cs)
    ensures Drawn(TakeParents(w).0, cs)
    ensures TakeParents(w).1.Some? ==> TakeParents(w).1.value in cs
  {
    var h := w.heads[w.i];
    if |h.parents| > 1 {
      var (newHead, poolA) := Take(w.pool, Some(h.parents[0]));
      if newHead.Some? {
        var k := Slot(w.heads, w.i, newHead.value.time, 1);
        var hs := w.heads[..k] + [newHead.value] + w.heads[k..];
        forall c | c in hs ensures c in cs {
          assert c in w.heads[..k] || c == newHead.value || c in w.heads[k..];
        }
      }
    }
  }

  /** One step of the inner loop keeps every commit drawn from `cs`. */
  lemma DoStepDrawn(w: Walk, n: int, rev: Revision, cs: seq<Commit>)
    requires Current(w, n) && Drawn(w, cs)
    ensures Drawn(DoStep(w, n, rev).0, cs)
  {
    TakeParentsDrawn(w, cs);
    var (w1, curr) := TakeParents(w);
    if curr.Some? {
      var heads2 := w1.heads[w1.i := curr.value];
      forall c | c in heads2 ensures c in cs {
        var k :| 0 <= k < |heads2| && heads2[k] == c;
        if k != w1.i {
          assert c == w1.heads[k];
        }
      }
    } else {
      var hs := w1.heads[..w1.i] + w1.heads[w1.i + 1..];
      forall c | c in hs ensures c in cs {
        assert c in w1.heads[..w1.i] || c in w1.heads[w1.i + 1..];
      }
    }
  }

  /** Emitting the head that opens a round (line 102) keeps every commit drawn from `cs`. */
  lemma BeginDrawn(w: Walk, cs: seq<Commit>)
    requires Placed(w) && |w.heads| > 0 && Drawn(w, cs)
    ensures Drawn(Begin(w), cs)
  {
  }

  /** The rest of the walk from the start of a round emits only commits of `cs`. */
  lemma {:induction false} OuterDrawn(w: Walk, total: nat, rev: Revision, cs: seq<Commit>)
    requires Placed(w) && Drawn(w, cs)
    ensures forall c :: c in Outer(w, total, rev) ==> c in cs
    decreases Missing(w, total), w.pool.Keys, 0
  {
    if |w.heads| > 0 && |w.result| < total {
      BeginDrawn(w, cs);
      var s := Begin(w);
      InnerDrawn(s, Wrap(s.i + 1, |s.heads|), total, rev, cs);
    }
  }

  /** The rest of the walk from inside a round emits only commits of `cs`. */
  lemma {:induction false} InnerDrawn(w: Walk, n: int, total: nat, rev: Revision, cs: seq<Commit>)
    requires Current(w, n) && Drawn(w, cs)
    ensures forall c :: c in Inner(w, n, total, rev) ==> c in cs
    decreases Missing(w, total), w.pool.Keys, 1
  {
    DoStepDrawn(w, n, rev, cs);
    var (w', more) := DoStep(w, n, rev);
    if more {
      InnerDrawn(w', n, total, rev, cs);
    } else {
      OuterDrawn(w', total, rev, cs);
    }
  }

  /** `result` is only ever pushed onto (lines 102, 144): what a round starts with is a prefix of what
      the walk ends with. */
  lemma {:induction false} OuterExtends(w: Walk, total: nat, rev: Revision)
    requires Placed(w)
    ensures w.result <= Outer(w, total, rev)
    decreases Missing(w, total), w.pool.Keys, 0
  {
    if |w.heads| > 0 && |w.result| < total {
      var s := Begin(w);
      InnerExtends(s, Wrap(s.i + 1, |s.heads|), total, rev);
    }
  }

  /** The same from inside a round. */
  lemma {:induction false} InnerExtends(w: Walk, n: int, total: nat, rev: Revision)
    requires Current(w, n)
    ensures w.result <= Inner(w, n, total, rev)
    decreases Missing(w, total), w.pool.Keys, 1
  {
    var (w', more) := DoStep(w, n, rev);
    assert w.result <= w'.result;
    if more {
      InnerExtends(w', n, total, rev);
    } else {
      OuterExtends(w', total, rev);
    }
  }

  /** Whatever orderCommits returns, and whatever a failing call had collected, consists of input
      commits; this holds for the source as written and for the corrected walk alike. */
  lemma LinearizeDrawsFromInput(commits: seq<Commit>, rev: Revision)
    ensures forall c :: c in Outer(InitialWalk(commits), |commits|, rev) ==> c in commits
    ensures Linearize(commits).Success? ==> forall c :: c in Linearize(commits).value ==> c in commits
    ensures LinearizeCorrected(commits).Success? ==> forall c :: c in LinearizeCorrected(commits).value ==> c in commits
  {
    InitialHeadsAreUnparented(commits);
    OuterDrawn(InitialWalk(commits), |commits|, AsWritten, commits);
    OuterDrawn(InitialWalk(commits), |commits|, Corrected, commits);
  }

  /** No commit occurs twice. */
  predicate NoDup(s: seq<Commit>) {
    forall a, b :: 0 <= a < b < |s| ==> s[a] != s[b]
  }

  /** The state of the corrected walk over `cs`, whose parent ids are `ps`, in which no commit has been
      emitted twice and none will be: the result and the heads are free of repeats; no head is in the
      result, except, inside a round, the head at the cursor; the pool files each commit under its own
      id, and no commit still to be handed out under a parent id is a head or has been emitted. */
  predicate Fresh(w: Walk, cs: seq<Commit>, ps: set<string>, inRound: bool) {
    Drawn(w, cs) && NoDup(w.result) && NoDup(w.heads) &&
    (forall k :: 0 <= k < |w.heads| && !(inRound && k == w.i) ==> w.heads[k] !in w.result) &&
    (forall id :: id in w.pool ==> w.pool[id].id == id) &&
    (forall id :: id in w.pool && id in ps ==> w.pool[id] !in w.result && w.pool[id] !in w.heads)
  }

  /** The commits `cs` name as parents are all in `ps`. */
  predicate ParentsIn(cs: seq<Commit>, ps: set<string>) {
    forall c, p :: c in cs && p in c.parents ==> p in ps
  }

  /** Taking a pooled commit by a parent id of a head hands out a commit that is neither a head nor
      emitted, and the rest of the pool stays fresh. */
  lemma TakeFresh(w: Walk, id: Option<string>, cs: seq<Commit>, ps: set<string>, inRound: bool)
    requires Fresh(w, cs, ps, inRound) && (id.Some? ==> id.value in ps)
    ensures var (c, pool) := Take(w.pool, id);
      Fresh(Walk(w.heads, pool, w.result, w.i), cs, ps, inRound) &&
      (c.Some? ==> c.value in cs && c.value !in w.result && c.value !in w.heads && c.value.id !in pool)
  {
  }

  /** A commit that is fresh for `w`: from the input, neither emitted nor a head, and no longer pooled. */
  predicate Outside(c: Commit, w: Walk, cs: seq<Commit>) {
    c in cs && c !in w.result && c !in w.heads && c.id !in w.pool
  }

  /** Splicing a fresh commit in as a new head at `k`, the cursor moving with its head (lines 130-135). */
  lemma SpliceFresh(w: Walk, k: int, x: Commit, cs: seq<Commit>, ps: set<string>)
    requires 0 <= w.i < |w.heads| && 0 <= k <= |w.heads|
    requires Fresh(w, cs, ps, true) && Outside(x, w, cs)
    ensures var hs := w.heads[..k] + [x] + w.heads[k..];
      var i' := if k <= w.i then w.i + 1 else w.i;
      0 <= i' < |hs| && Fresh(Walk(hs, w.pool, w.result, i'), cs, ps, true)
  {
    var hs := w.heads[..k] + [x] + w.heads[k..];
    var i' := if k <= w.i then w.i + 1 else w.i;
    assert hs[i'] == w.heads[w.i];
    forall c | c in hs ensures c in cs && (c == x || c in w.heads) {
      assert c in w.heads[..k] || c == x || c in w.heads[k..];
    }
    assert NoDup(hs) by {
      forall a, b | 0 <= a < b < |hs| ensures hs[a] != hs[b] {
        if a < k && b > k {
          assert hs[a] == w.heads[a] && hs[b] == w.heads[b - 1];
        }
      }
    }
    forall j | 0 <= j < |hs| && j != i' ensures hs[j] !in w.result {
      if j < k {
        assert hs[j] == w.heads[j] && j != w.i;
      } else if j > k {
        assert hs[j] == w.heads[j - 1] && j - 1 != w.i;
      }
    }
  }

  /** The two lookups of a merge commit's parents (lines 117-118) hand out two distinct fresh commits. */
  lemma TwoTakesFresh(w: Walk, cs: seq<Commit>, ps: set<string>)
    requires 0 <= w.i < |w.heads| && |w.heads[w.i].parents| > 1
    requires Fresh(w, cs, ps, true) && ParentsIn(cs, ps)
    ensures var h := w.heads[w.i];
      var (newHead, poolA) := Take(w.pool, Some(h.parents[0]));
      var (curr, poolB) := Take(poolA, Some(h.parents[1]));
      var wB := Walk(w.heads, poolB, w.result, w.i);
      Fresh(wB, cs, ps, true) && (curr.Some? ==> Outside(curr.value, wB, cs)) &&
      (newHead.Some? ==> Outside(newHead.value, wB, cs) && (curr.Some? ==> curr.value != newHead.value))
  {
    var h := w.heads[w.i];
    assert h in cs;
    TakeFresh(w, Some(h.parents[0]), cs, ps, true);
    var (newHead, poolA) := Take(w.pool, Some(h.parents[0]));
    var wA := Walk(w.heads, poolA, w.result, w.i);
    TakeFresh(wA, Some(h.parents[1]), cs, ps, true);
    var (curr, poolB) := Take(poolA, Some(h.parents[1]));
    if newHead.Some? {
      assert newHead.value.id == h.parents[0] && h.parents[0] !in poolA;
      assert curr.Some? ==> curr.value.id in poolA;
    }
  }

  /** The merge case of TakeParents (lines 109-136). */
  lemma MergeFresh(w: Walk, cs: seq<Commit>, ps: set<string>)
    requires 0 <= w.i < |w.heads| && |w.heads[w.i].parents| > 1
    requires Fresh(w, cs, ps, true) && ParentsIn(cs, ps)
    ensures var (w1, curr) := Merge(w);
      Fresh(w1, cs, ps, true) && (curr.Some? ==> Outside(curr.value, w1, cs))
  {
    var h := w.heads[w.i];
    TwoTakesFresh(w, cs, ps);
    var (newHead, poolA) := Take(w.pool, Some(h.parents[0]));
    var (curr, poolB) := Take(poolA, Some(h.parents[1]));
    var wB := Walk(w.heads, poolB, w.result, w.i);
    if newHead.Some? {
      SpliceFresh(wB, Slot(w.heads, w.i, newHead.value.time, 1), newHead.value, cs, ps);
    }
  }

  /** Taking the parents of the head at the cursor keeps the round fresh, leaves that head in place,
      and hands on a commit the walk holds nowhere else. */
  lemma TakeParentsFresh(w: Walk, cs: seq<Commit>, ps: set<string>)
    requires 0 <= w.i < |w.heads| && Fresh(w, cs, ps, true) && ParentsIn(cs, ps)
    ensures var (w1, curr) := TakeParents(w);
      Fresh(w1, cs, ps, true) && w1.heads[w1.i] == w.heads[w.i] &&
      (curr.Some? ==> Outside(curr.value, w1, cs))
  {
    var h := w.heads[w.i];
    assert h in cs;
    if |h.parents| > 1 {
      MergeFresh(w, cs, ps);
    } else {
      TakeFresh(w, FirstParent(h), cs, ps, true);
    }
  }

  /** A fresh commit replacing the head at the cursor and emitted (line 144) keeps the round fresh. */
  lemma EmitFresh(w: Walk, c: Commit, cs: seq<Commit>, ps: set<string>)
    requires 0 <= w.i < |w.heads| && Fresh(w, cs, ps, true) && Outside(c, w, cs)
    ensures Fresh(Walk(w.heads[w.i := c], w.pool, w.result + [c], w.i), cs, ps, true)
  {
    var r := w.result + [c];
    assert NoDup(r) by {
      forall a, b | 0 <= a < b < |r| ensures r[a] != r[b] {
        if b == |w.result| {
          assert r[a] in w.result;
        }
      }
    }
  }

  /** A fresh commit replacing the head at the cursor and left for a later round (line 147) ends the
      round fresh. */
  lemma ParkFresh(w: Walk, c: Commit, cs: seq<Commit>, ps: set<string>)
    requires 0 <= w.i < |w.heads| && Fresh(w, cs, ps, true) && Outside(c, w, cs)
    ensures Fresh(Walk(w.heads[w.i := c], w.pool, w.result, w.i), cs, ps, false)
  {
  }

  /** Removing the drained head at the cursor (lines 151-155) ends the round fresh. */
  lemma DrainFresh(w: Walk, cs: seq<Commit>, ps: set<string>)
    requires 0 <= w.i < |w.heads| && Fresh(w, cs, ps, true)
    ensures Fresh(Walk(w.heads[..w.i] + w.heads[w.i + 1..], w.pool, w.result, w.i - 1), cs, ps, false)
  {
    var hs := w.heads[..w.i] + w.heads[w.i + 1..];
    forall j | 0 <= j < |hs| ensures hs[j] !in w.result && hs[j] in w.heads {
      if j < w.i {
        assert hs[j] == w.heads[j];
      } else {
        assert hs[j] == w.heads[j + 1];
      }
    }
    assert NoDup(hs) by {
      forall a, b | 0 <= a < b < |hs| ensures hs[a] != hs[b] {
        if a < w.i && b >= w.i {
          assert hs[a] == w.heads[a] && hs[b] == w.heads[b + 1];
        } else if a >= w.i {
          assert hs[a] == w.heads[a + 1] && hs[b] == w.heads[b + 1];
        }
      }
    }
  }

  /** One step of the corrected inner loop keeps the walk fresh; it is mid-round exactly when the
      step continues the round. */
  lemma DoStepFresh(w: Walk, n: int, cs: seq<Commit>, ps: set<string>)
    requires Current(w, n) && Fresh(w, cs, ps, true) && ParentsIn(cs, ps)
    ensures Fresh(DoStep(w, n, Corrected).0, cs, ps, DoStep(w, n, Corrected).1)
  {
    TakeParentsFresh(w, cs, ps);
    var t := TakeParents(w);
    var w1 := t.0;
    if t.1.Some? {
      var c := t.1.value;
      var hs := w1.heads[w1.i := c];
      if c.time > hs[n].time {
        assert DoStep(w, n, Corrected) == (Walk(hs, w1.pool, w1.result + [c], w1.i), true);
        EmitFresh(w1, c, cs, ps);
      } else {
        assert DoStep(w, n, Corrected) == (Walk(hs, w1.pool, w1.result, w1.i), false);
        ParkFresh(w1, c, cs, ps);
      }
    } else {
      assert DoStep(w, n, Corrected) == (Walk(w1.heads[..w1.i] + w1.heads[w1.i + 1..], w1.pool, w1.result, w1.i - 1), false);
      DrainFresh(w1, cs, ps);
    }
  }

  /** Emitting the head that opens a round turns a fresh walk between rounds into a fresh walk
      inside a round. */
  lemma BeginFresh(w: Walk, cs: seq<Commit>, ps: set<string>)
    requires Placed(w) && |w.heads| > 0
    ensures Fresh(w, cs, ps, false) ==> Fresh(Begin(w), cs, ps, true)
  {
    if Fresh(w, cs, ps, false) {
      var s := Begin(w);
      forall a, b | 0 <= a < b < |s.result| ensures s.result[a] != s.result[b] {
        if b == |w.result| {
          assert s.result[a] in w.result;
        }
      }
      forall k | 0 <= k < |w.heads| && k != s.i ensures w.heads[k] !in s.result {
        assert w.heads[k] != w.heads[s.i];
      }
    }
  }

  /** From a fresh walk between rounds, the corrected walk never emits a commit twice. */
  lemma {:induction false} OuterFresh(w: Walk, total: nat, cs: seq<Commit>, ps: set<string>)
    requires Placed(w) && ParentsIn(cs, ps)
    ensures Fresh(w, cs, ps, false) ==> NoDup(Outer(w, total, Corrected))
    decreases Missing(w, total), w.pool.Keys, 0
  {
    if |w.heads| > 0 && |w.result| < total {
      BeginFresh(w, cs, ps);
      var s := Begin(w);
      InnerFresh(s, Wrap(s.i + 1, |s.heads|), total, cs, ps);
    }
  }

  /** From a fresh walk inside a round, the corrected walk never emits a commit twice. */
  lemma {:induction false} InnerFresh(w: Walk, n: int, total: nat, cs: seq<Commit>, ps: set<string>)
    requires ParentsIn(cs, ps)
    ensures Current(w, n) && Fresh(w, cs, ps, true) ==> NoDup(Inner(w, n, total, Corrected))
    decreases Missing(w, total), w.pool.Keys, 1
  {
    if Current(w, n) && Fresh(w, cs, ps, true) {
      DoStepFresh(w, n, cs, ps);
      var (w', more) := DoStep(w, n, Corrected);
      if more {
        InnerFresh(w', n, total, cs, ps);
      } else {
        OuterFresh(w', total, cs, ps);
      }
    }
  }

  /** A sequence is free of repeats exactly when it holds each commit at most once. */
  lemma {:induction false} NoDupCounts(s: seq<Commit>)
    ensures NoDup(s) <==> forall c :: multiset(s)[c] <= 1
  {
    if s != [] {
      var t := s[1..];
      assert s == [s[0]] + t;
      NoDupCounts(t);
      if NoDup(s) {
        forall a, b | 0 <= a < b < |t| ensures t[a] != t[b] {
          assert t[a] == s[a + 1] && t[b] == s[b + 1];
        }
        forall b | 0 <= b < |t| ensures t[b] != s[0] {
          assert t[b] == s[b + 1];
        }
        assert multiset(t)[s[0]] == 0;
      }
      if forall c :: multiset(s)[c] <= 1 {
        forall c ensures multiset(t)[c] <= 1 {
          assert multiset(s)[c] == multiset([s[0]])[c] + multiset(t)[c];
        }
        assert multiset(s)[s[0]] == 1 + multiset(t)[s[0]];
        forall a, b | 0 <= a < b < |s| ensures s[a] != s[b] {
          assert s[b] == t[b - 1] && s[b] in t;
          if a > 0 {
            assert s[a] == t[a - 1];
          }
        }
      }
    }
  }

  /** Filtering keeps no commit more often than the input has it. */
  lemma {:induction false} UnparentedSubMultiset(cs: seq<Commit>, ps: set<string>)
    ensures multiset(Unparented(cs, ps)) <= multiset(cs)
  {
    if cs != [] {
      var front := cs[..|cs| - 1];
      UnparentedSubMultiset(front, ps);
      assert cs == front + [cs[|cs| - 1]];
    }
  }

  /** The walk starts fresh on an input without repeated commits. */
  lemma InitialFresh(commits: seq<Commit>)
    requires NoDup(commits)
    ensures Fresh(InitialWalk(commits), commits, ParentIds(commits), false)
    ensures ParentsIn(commits, ParentIds(commits))
  {
    var ps := ParentIds(commits);
    var w := InitialWalk(commits);
    InitialHeadsAreUnparented(commits);
    UnparentedSubMultiset(commits, ps);
    NoDupCounts(commits);
    NoDupCounts(w.heads);
    forall c ensures multiset(w.heads)[c] <= 1 {
      assert multiset(w.heads)[c] <= multiset(commits)[c];
    }
  }

  /** A repeat-free sequence of `cs`'s commits as long as `cs` holds each of them exactly as often as
      `cs` does. */
  lemma Rearranged(r: seq<Commit>, cs: seq<Commit>)
    requires NoDup(r) && |r| == |cs| && forall c :: c in r ==> c in cs
    ensures multiset(r) == multiset(cs)
  {
    NoDupCounts(r);
    var a, b := multiset(r), multiset(cs);
    assert a <= b by {
      forall c ensures a[c] <= b[c] {
        if a[c] > 0 {
          assert c in r;
        }
      }
    }
    assert a + (b - a) == b;
    assert |b - a| == 0;
  }

  /** With line 145 corrected and for an input without repeated commits, the walk emits no commit
      twice, so a successful call returns an ordering of its input: every commit exactly once. */
  lemma CorrectedIsPermutation(commits: seq<Commit>)
    requires NoDup(commits)
    ensures NoDup(Outer(InitialWalk(commits), |commits|, Corrected))
    ensures LinearizeCorrected(commits).Success? ==>
      NoDup(LinearizeCorrected(commits).value) && multiset(LinearizeCorrected(commits).value) == multiset(commits)
  {
    InitialFresh(commits);
    OuterFresh(InitialWalk(commits), |commits|, commits, ParentIds(commits));
    LinearizeDrawsFromInput(commits, Corrected);
    if LinearizeCorrected(commits).Success? {
      Rearranged(LinearizeCorrected(commits).value, commits);
    }
  }
}
