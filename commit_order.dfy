/** orderCommits of the storage utilities: the linearizer that turns a set of commits into one
    newest-first history by a round-robin walk over moving heads. */
module CommitOrder {
  import opened Wrappers

  /** A commit as the linearizer reads it: `_id`, the ordered `parents` ids and `time`. */
  datatype Commit = Commit(id: string, parents: seq<string>, time: int)

  /** The two errors of the final length check (lines 160-164). */
  datatype OrderError =
    | ResultNotFull(got: nat, expected: nat)
    | ResultOverFull(got: nat, expected: nat)

  /** The `parents` dictionary (lines 76-81): every id some commit names as a parent. */
  function ParentIds(cs: seq<Commit>): (ps: set<string>)
    ensures forall p :: p in ps <==> exists c :: c in cs && p in c.parents
  {
    if cs == [] then {}
    else
      var last := cs[|cs| - 1];
      assert cs == cs[..|cs| - 1] + [last];
      ParentIds(cs[..|cs| - 1]) + (set p | p in last.parents)
  }

  /** The `commitsMap` dictionary (lines 76-81): each id to its commit, a later commit with the same
      id replacing an earlier one. */
  function PoolOf(cs: seq<Commit>): (m: map<string, Commit>)
    ensures forall id :: id in m <==> exists c :: c in cs && c.id == id
    ensures forall id :: id in m ==> m[id] in cs && m[id].id == id
  {
    if cs == [] then map[]
    else
      assert cs == cs[..|cs| - 1] + [cs[|cs| - 1]];
      PoolOf(cs[..|cs| - 1])[cs[|cs| - 1].id := cs[|cs| - 1]]
  }

  /** The commits whose id is not in `ps`, in input order (lines 83-87). */
  function Unparented(cs: seq<Commit>, ps: set<string>): (hs: seq<Commit>)
    ensures forall c :: c in hs <==> c in cs && c.id !in ps
  {
    if cs == [] then []
    else
      assert cs == cs[..|cs| - 1] + [cs[|cs| - 1]];
      Unparented(cs[..|cs| - 1], ps) + (if cs[|cs| - 1].id in ps then [] else [cs[|cs| - 1]])
  }

  /** Non-increasing `time`: the order `sortByTime` establishes. */
  predicate NewestFirst(hs: seq<Commit>) {
    forall a, b :: 0 <= a < b < |hs| ==> hs[a].time >= hs[b].time
  }

  /** Puts `c` into a sequence before the first commit that is not newer than it. */
  function InsertByTime(c: Commit, hs: seq<Commit>): (r: seq<Commit>)
    ensures multiset(r) == multiset(hs) + multiset{c} && |r| == |hs| + 1
  {
    if hs == [] || c.time >= hs[0].time then [c] + hs
    else
      assert hs == [hs[0]] + hs[1..];
      [hs[0]] + InsertByTime(c, hs[1..])
  }

  /** Inserting into a newest-first sequence keeps it newest first. */
  lemma {:induction false} InsertByTimeSorted(c: Commit, hs: seq<Commit>)
    requires NewestFirst(hs)
    ensures NewestFirst(InsertByTime(c, hs))
    ensures InsertByTime(c, hs)[0] == c || (|hs| > 0 && InsertByTime(c, hs)[0] == hs[0])
  {
    if hs == [] || c.time >= hs[0].time {
    } else {
      var rest := InsertByTime(c, hs[1..]);
      assert NewestFirst(hs[1..]);
      InsertByTimeSorted(c, hs[1..]);
      assert rest[0].time <= hs[0].time;
      assert InsertByTime(c, hs) == [hs[0]] + rest;
    }
  }

  /** sortByTime (lines 54-64): the comparator orders by descending `time` and calls equal times equal;
      the sort is taken to be stable, so commits of equal time keep their input order. */
  function SortByTime(hs: seq<Commit>): (r: seq<Commit>)
    ensures multiset(r) == multiset(hs)
  {
    if hs == [] then []
    else
      assert hs == [hs[0]] + hs[1..];
      InsertByTime(hs[0], SortByTime(hs[1..]))
  }

  /** The sort leaves the commits newest first. */
  lemma {:induction false} SortByTimeSorted(hs: seq<Commit>)
    ensures NewestFirst(SortByTime(hs))
  {
    if hs != [] {
      SortByTimeSorted(hs[1..]);
      InsertByTimeSorted(hs[0], SortByTime(hs[1..]));
    }
  }

  /** The heads the walk starts from: the commits that are nobody's parent, newest first (lines 83-89). */
  function InitialHeads(commits: seq<Commit>): seq<Commit> {
    SortByTime(Unparented(commits, ParentIds(commits)))
  }

  /** The initial heads are exactly the commits no commit names as a parent, as many times as they occur
      among those, in non-increasing time order. */
  lemma InitialHeadsAreUnparented(commits: seq<Commit>)
    ensures forall c :: c in InitialHeads(commits) <==>
      c in commits && forall d :: d in commits ==> c.id !in d.parents
    ensures multiset(InitialHeads(commits)) == multiset(Unparented(commits, ParentIds(commits)))
    ensures NewestFirst(InitialHeads(commits))
  {
    var hs := Unparented(commits, ParentIds(commits));
    SortByTimeSorted(hs);
    forall c ensures c in InitialHeads(commits) <==> c in hs {
      assert c in InitialHeads(commits) <==> c in multiset(InitialHeads(commits));
    }
  }

  /** `parents[0]`, which is undefined for a commit without parents. */
  function FirstParent(c: Commit): (r: Option<string>)
    ensures r.Some? <==> |c.parents| > 0
    ensures r.Some? ==> r.value == c.parents[0]
  {
    if |c.parents| > 0 then Some(c.parents[0]) else None
  }

  /** getCommit (lines 66-74): hands out the commit filed under `id` and empties that slot, so every
      commit is handed out at most once; an undefined id, an unknown id and an emptied slot give nothing.
      An emptied slot is modelled by removing its key, which getCommit cannot tell apart. */
  function Take(pool: map<string, Commit>, id: Option<string>): (r: (Option<Commit>, map<string, Commit>))
    ensures r.0.Some? <==> id.Some? && id.value in pool
    ensures r.0.Some? ==> r.0.value == pool[id.value]
    ensures id.Some? ==> id.value !in r.1
    ensures r.1.Keys == pool.Keys - (if id.Some? then {id.value} else {})
    ensures forall k :: k in r.1 ==> r.1[k] == pool[k]
  {
    if id.Some? && id.value in pool then (Some(pool[id.value]), pool - {id.value}) else (None, pool)
  }

  /** A second lookup of the same id finds nothing. */
  lemma TakeAtMostOnce(pool: map<string, Commit>, id: string)
    ensures Take(Take(pool, Some(id)).1, Some(id)).0 == None
  {
  }

  /** The state of the walk: the `heads` array, the undrained part of `commitsMap`, `result` and the
      cursor `i`. */
  datatype Walk = Walk(heads: seq<Commit>, pool: map<string, Commit>, result: seq<Commit>, i: int)

  /** Between rounds of the outer loop the cursor sits on a head or, after a removal at 0, just before. */
  predicate Placed(w: Walk) {
    -1 <= w.i < |w.heads|
  }

  /** Inside the do-while both the cursor `i` and the remembered neighbour `n` index a head. */
  predicate Current(w: Walk, n: int) {
    0 <= w.i < |w.heads| && 0 <= n < |w.heads|
  }

  /** Which reading of line 145 a walk follows: the source as written, which takes the next parent out of
      `commitsMap` and then drops it when the do-while starts over, or the correction that keeps walking
      from the commit just emitted. */
  datatype Revision = AsWritten | Corrected

  /** `x % len` for the non-negative `x` the walk uses, where JavaScript's `%` and Dafny's agree:
      an index that has run one step past the end comes back round. */
  function Wrap(x: int, len: int): (r: int)
    requires 0 <= x < 2 * len
    ensures r == if x < len then x else x - len
  {
    x % len
  }

  /** Where a new head of time `t` is spliced in (lines 122-129): scanning round from the head after `i`,
      the first head older than `t`; when there is none the scan ends back at `i`. */
  function Slot(heads: seq<Commit>, i: int, t: int, j: int): (k: int)
    requires 0 <= i < |heads| && 1 <= j <= |heads|
    ensures 0 <= k < |heads|
    ensures t > heads[k].time || k == i
    decreases |heads| - j
  {
    var k := Wrap(i + j, |heads|);
    if t > heads[k].time || j == |heads| then k
    else Slot(heads, i, t, j + 1)
  }

  /** The time of the head `m` places round from `i`. */
  function TimeAt(heads: seq<Commit>, i: int, m: int): int
    requires 0 <= i < |heads| && 0 <= m <= |heads|
  {
    heads[Wrap(i + m, |heads|)].time
  }

  /** The scan of lines 122-129 stops at the first offset from `j` on whose head is older than `t`;
      every head it passes over is at least as new as `t`; when no head is older, it stops at offset
      `|heads|`, which is `i` itself. */
  lemma {:induction false} SlotIsFirstOlder(heads: seq<Commit>, i: int, t: int, j: int) returns (m: int)
    requires 0 <= i < |heads| && 1 <= j <= |heads|
    ensures j <= m <= |heads| && Slot(heads, i, t, j) == Wrap(i + m, |heads|)
    ensures forall m' :: j <= m' < m ==> t <= TimeAt(heads, i, m')
    ensures m == |heads| || t > TimeAt(heads, i, m)
    decreases |heads| - j
  {
    if t > TimeAt(heads, i, j) || j == |heads| {
      m := j;
    } else {
      m := SlotIsFirstOlder(heads, i, t, j + 1);
    }
  }

  /** Lines 120-137: a new head, when parents[0] was found, is spliced in before the first head,
      counting from the one after the cursor, that it is newer than; the cursor stays on its head. */
  function AddHead(w: Walk, newHead: Option<Commit>): (r: Walk)
    requires 0 <= w.i < |w.heads|
    ensures 0 <= r.i < |r.heads| && r.heads[r.i] == w.heads[w.i] && r.pool == w.pool && r.result == w.result
    ensures |r.heads| == |w.heads| + (if newHead.Some? then 1 else 0)
    ensures forall c :: c in r.heads ==> c in w.heads || newHead == Some(c)
  {
    if newHead.Some? then
      var k := Slot(w.heads, w.i, newHead.value.time, 1);
      var hs := w.heads[..k] + [newHead.value] + w.heads[k..];
      assert forall c :: c in hs ==> c in w.heads[..k] || c == newHead.value || c in w.heads[k..];
      Walk(hs, w.pool, w.result, if k <= w.i then w.i + 1 else w.i)
    else w
  }

  /** Lines 109-137, a head with two or more parents: parents[0] becomes a new head and parents[1]
      continues the head. */
  function Merge(w: Walk): (r: (Walk, Option<Commit>))
    requires 0 <= w.i < |w.heads| && |w.heads[w.i].parents| > 1
    ensures 0 <= r.0.i < |r.0.heads| && |r.0.heads| >= |w.heads| && r.0.result == w.result
    ensures r.0.pool.Keys <= w.pool.Keys
    ensures r.1.Some? ==> r.0.pool.Keys < w.pool.Keys
  {
    var h := w.heads[w.i];
    // The parents are id strings, so the `.time` comparison of line 113 is always false.
    var (newHead, poolA) := Take(w.pool, Some(h.parents[0]));
    var (curr, poolB) := Take(poolA, Some(h.parents[1]));
    (AddHead(Walk(w.heads, poolB, w.result, w.i), newHead), curr)
  }

  /** Lines 109-140: takes the parents of the head at the cursor out of the pool, as Merge does, or
      with a single parent, parents[0] continues the head. Gives the commit that continues, if any. */
  function TakeParents(w: Walk): (r: (Walk, Option<Commit>))
    requires 0 <= w.i < |w.heads|
    ensures 0 <= r.0.i < |r.0.heads| && |r.0.heads| >= |w.heads| && r.0.result == w.result
    ensures r.0.pool.Keys <= w.pool.Keys
    ensures r.1.Some? ==> r.0.pool.Keys < w.pool.Keys
  {
    var h := w.heads[w.i];
    if |h.parents| > 1 then Merge(w)
    else
      var (curr, poolA) := Take(w.pool, FirstParent(h));
      (Walk(w.heads, poolA, w.result, w.i), curr)
  }

  /** One pass of the do-while body (lines 105-156): the new state and whether the loop goes on.
      A continuing commit replaces the head at the cursor and is emitted while it is newer than the
      head at `n`; a head with nothing to continue it is removed. */
  function DoStep(w: Walk, n: int, rev: Revision): (res: (Walk, bool))
    requires Current(w, n)
    ensures Placed(res.0) && |res.0.result| >= |w.result| && res.0.pool.Keys <= w.pool.Keys
    ensures res.1 ==> Current(res.0, n) && res.0.pool.Keys < w.pool.Keys
  {
    var (w1, curr) := TakeParents(w);
    if curr.Some? then
      var heads2 := w1.heads[w1.i := curr.value];
      if curr.value.time > heads2[n].time then
        match rev
        case AsWritten =>
          var (next, pool2) := Take(w1.pool, FirstParent(curr.value));
          (Walk(heads2, pool2, w1.result + [curr.value], w1.i), next.Some?)
        case Corrected =>
          (Walk(heads2, w1.pool, w1.result + [curr.value], w1.i), true)
      else (Walk(heads2, w1.pool, w1.result, w1.i), false)
    else
      (Walk(w1.heads[..w1.i] + w1.heads[w1.i + 1..], w1.pool, w1.result, w1.i - 1), false)
  }

  /** How many commits the result still lacks. */
  function Missing(w: Walk, total: nat): nat {
    if |w.result| < total then total - |w.result| else 0
  }

  /** Lines 100-102, the start of a round: the cursor moves round to the next head, which is emitted,
      and `n` is the head after it. */
  function Begin(w: Walk): (s: Walk)
    requires Placed(w) && |w.heads| > 0
    ensures s.heads == w.heads && s.pool == w.pool && 0 <= s.i < |s.heads|
    ensures Current(s, Wrap(s.i + 1, |s.heads|)) && s.result == w.result + [s.heads[s.i]]
    ensures s.i == Wrap(w.i + 1, |w.heads|)
  {
    var i := Wrap(w.i + 1, |w.heads|);
    Walk(w.heads, w.pool, w.result + [w.heads[i]], i)
  }

  /** The while loop of lines 98-158, from a state between rounds to the final result: while heads
      remain and the result is short, a round begins and its head is walked. */
  function Outer(w: Walk, total: nat, rev: Revision): (r: seq<Commit>)
    requires Placed(w)
    decreases Missing(w, total), w.pool.Keys, 0
  {
    if |w.heads| > 0 && |w.result| < total then
      var s := Begin(w);
      Inner(s, Wrap(s.i + 1, |s.heads|), total, rev)
    else w.result
  }

  /** The do-while of lines 104-157 with the remaining rounds after it: the final result from a state
      inside a round whose neighbour is `n`. */
  function Inner(w: Walk, n: int, total: nat, rev: Revision): (r: seq<Commit>)
    requires Current(w, n)
    decreases Missing(w, total), w.pool.Keys, 1
  {
    var (w', more) := DoStep(w, n, rev);
    if more then Inner(w', n, total, rev) else Outer(w', total, rev)
  }

  /** The walk's starting state (lines 89-92). */
  function InitialWalk(commits: seq<Commit>): (w: Walk)
    ensures Placed(w)
    ensures w.heads == InitialHeads(commits) && w.pool == PoolOf(commits) && w.result == [] && w.i == -1
  {
    Walk(InitialHeads(commits), PoolOf(commits), [], -1)
  }

  /** The final length check (lines 160-166). */
  function Finish(result: seq<Commit>, total: nat): (r: Result<seq<Commit>, OrderError>)
    ensures r.Success? <==> |result| == total
    ensures r.Success? ==> r.value == result
    ensures r == Failure(ResultNotFull(|result|, total)) <==> |result| < total
    ensures r == Failure(ResultOverFull(|result|, total)) <==> |result| > total
  {
    if |result| < total then Failure(ResultNotFull(|result|, total))
    else if |result| > total then Failure(ResultOverFull(|result|, total))
    else Success(result)
  }

  /** orderCommits as written. */
  function Linearize(commits: seq<Commit>): (r: Result<seq<Commit>, OrderError>)
    ensures r.Success? ==> |r.value| == |commits|
  {
    Finish(Outer(InitialWalk(commits), |commits|, AsWritten), |commits|)
  }

  /** orderCommits with line 145 corrected. */
  function LinearizeCorrected(commits: seq<Commit>): (r: Result<seq<Commit>, OrderError>)
    ensures r.Success? ==> |r.value| == |commits|
  {
    Finish(Outer(InitialWalk(commits), |commits|, Corrected), |commits|)
  }

  /** Lines 76-81: fills `commitsMap` and `parents`. */
  method IndexCommits(commits: seq<Commit>) returns (commitsMap: map<string, Commit>, parents: set<string>)
    ensures commitsMap == PoolOf(commits) && parents == ParentIds(commits)
  {
    commitsMap, parents := map[], {};
    var i := 0;
    while i < |commits|
      invariant 0 <= i <= |commits|
      invariant commitsMap == PoolOf(commits[..i])
      invariant parents == ParentIds(commits[..i])
    {
      commitsMap := commitsMap[commits[i].id := commits[i]];
      var j := 0;
      while j < |commits[i].parents|
        invariant 0 <= j <= |commits[i].parents|
        invariant parents == ParentIds(commits[..i]) + set p | p in commits[i].parents[..j]
      {
        assert commits[i].parents[..j + 1] == commits[i].parents[..j] + [commits[i].parents[j]];
        parents := parents + {commits[i].parents[j]};
        j := j + 1;
      }
      assert commits[..i + 1][..i] == commits[..i];
      assert commits[i].parents[..j] == commits[i].parents;
      i := i + 1;
    }
    assert commits[..i] == commits;
  }

  /** Lines 83-87: the commits whose id is not a parent, in input order. */
  method CollectHeads(commits: seq<Commit>, parents: set<string>) returns (heads: seq<Commit>)
    ensures heads == Unparented(commits, parents)
  {
    heads := [];
    var i := 0;
    while i < |commits|
      invariant 0 <= i <= |commits|
      invariant heads == Unparented(commits[..i], parents)
    {
      if commits[i].id !in parents {
        heads := heads + [commits[i]];
      }
      assert commits[..i + 1][..i] == commits[..i];
      i := i + 1;
    }
    assert commits[..i] == commits;
  }

  /** Lines 122-129: the splice position of a new head of time `t`. */
  method FindSlot(heads: seq<Commit>, i: int, t: int) returns (k: int)
    requires 0 <= i < |heads|
    ensures k == Slot(heads, i, t, 1)
  {
    var j := 1;
    k := 0;
    while j < |heads| + 1
      invariant 1 <= j <= |heads| + 1
      invariant j <= |heads| ==> Slot(heads, i, t, j) == Slot(heads, i, t, 1)
      invariant j == |heads| + 1 ==> k == Slot(heads, i, t, 1)
    {
      k := Wrap(i + j, |heads|);
      if t > heads[k].time {
        break;
      }
      j := j + 1;
    }
  }

  /** Lines 109-140: takes the parents of the head at `i` out of `commitsMap`. */
  method TakeParentsStep(heads0: seq<Commit>, commitsMap0: map<string, Commit>, i0: int)
    returns (heads: seq<Commit>, commitsMap: map<string, Commit>, i: int, curr: Option<Commit>)
    requires 0 <= i0 < |heads0|
    ensures forall result :: (Walk(heads, commitsMap, result, i), curr) == TakeParents(Walk(heads0, commitsMap0, result, i0))
  {
    heads, commitsMap, i := heads0, commitsMap0, i0;
    if |heads[i].parents| > 1 {
      // Comparing `.time` of two id strings is always false (line 113).
      var taken := Take(commitsMap, Some(heads[i].parents[0]));
      var newHead := taken.0;
      commitsMap := taken.1;
      taken := Take(commitsMap, Some(heads[i].parents[1]));
      curr, commitsMap := taken.0, taken.1;
      if newHead.Some? {
        var k := FindSlot(heads, i, newHead.value.time);
        heads := heads[..k] + [newHead.value] + heads[k..];
        if k <= i {
          i := i + 1;
        }
      }
    } else {
      var taken := Take(commitsMap, FirstParent(heads[i]));
      curr, commitsMap := taken.0, taken.1;
    }
  }

  /** Lines 105-156: one pass of the do-while body over the walk's variables. */
  method WalkStep(heads0: seq<Commit>, commitsMap0: map<string, Commit>, result0: seq<Commit>, i0: int, n: int)
    returns (heads: seq<Commit>, commitsMap: map<string, Commit>, result: seq<Commit>, i: int, more: bool)
    requires Current(Walk(heads0, commitsMap0, result0, i0), n)
    ensures (Walk(heads, commitsMap, result, i), more) == DoStep(Walk(heads0, commitsMap0, result0, i0), n, AsWritten)
  {
    var curr: Option<Commit>;
    heads, commitsMap, i, curr := TakeParentsStep(heads0, commitsMap0, i0);
    result := result0;
    if curr.Some? {
      heads := heads[i := curr.value];
      if curr.value.time > heads[n].time {
        result := result + [curr.value];
        var taken := Take(commitsMap, FirstParent(heads[i]));
        curr, commitsMap := taken.0, taken.1;
      } else {
        curr := None;
      }
    } else {
      // The head is drained: remove it.
      heads := heads[..i] + heads[i + 1..];
      i := i - 1;
    }
    more := curr.Some?;
  }

  /** Lines 99-157: one round of the while loop, the do-while walking the head after the cursor.
      The walk goes on from the new state as it would have from the old one. */
  method PlayRound(heads0: seq<Commit>, commitsMap0: map<string, Commit>, result0: seq<Commit>, i0: int, ghost total: nat)
    returns (heads: seq<Commit>, commitsMap: map<string, Commit>, result: seq<Commit>, i: int)
    requires Placed(Walk(heads0, commitsMap0, result0, i0)) && |heads0| > 0 && |result0| < total
    ensures Placed(Walk(heads, commitsMap, result, i)) && |result| > |result0|
    ensures Outer(Walk(heads, commitsMap, result, i), total, AsWritten) == Outer(Walk(heads0, commitsMap0, result0, i0), total, AsWritten)
  {
    ghost var goal := Outer(Walk(heads0, commitsMap0, result0, i0), total, AsWritten);
    heads, commitsMap := heads0, commitsMap0;
    i := Wrap(i0 + 1, |heads|);
    var n := Wrap(i + 1, |heads|);
    result := result0 + [heads[i]];
    assert Walk(heads, commitsMap, result, i) == Begin(Walk(heads0, commitsMap0, result0, i0));
    var more := true;
    while more
      invariant |result| > |result0|
      invariant more ==> Current(Walk(heads, commitsMap, result, i), n)
      invariant more ==> Inner(Walk(heads, commitsMap, result, i), n, total, AsWritten) == goal
      invariant !more ==> Placed(Walk(heads, commitsMap, result, i))
      invariant !more ==> Outer(Walk(heads, commitsMap, result, i), total, AsWritten) == goal
      decreases commitsMap.Keys, more
    {
      heads, commitsMap, result, i, more := WalkStep(heads, commitsMap, result, i, n);
    }
  }

  /** Lines 94-158: the rounds, from the initial heads and pool, until no head is left or the result
      holds `total` commits. */
  method WalkRounds(heads0: seq<Commit>, commitsMap0: map<string, Commit>, total: nat) returns (result: seq<Commit>)
    ensures result == Outer(Walk(heads0, commitsMap0, [], -1), total, AsWritten)
  {
    var heads, commitsMap := heads0, commitsMap0;
    result := [];
    var i := -1;
    var tic := 0;
    ghost var goal := Outer(Walk(heads, commitsMap, result, i), total, AsWritten);
    while |heads| > 0 && |result| < total
      invariant Placed(Walk(heads, commitsMap, result, i))
      invariant Outer(Walk(heads, commitsMap, result, i), total, AsWritten) == goal
      invariant tic <= |result| && tic <= total
      decreases total - |result|
    {
      tic := tic + 1;
      heads, commitsMap, result, i := PlayRound(heads, commitsMap, result, i, total);
    }
  }

  /** orderCommits (lines 45-167), step by step as the source does it. */
  method OrderCommits(commits: seq<Commit>) returns (r: Result<seq<Commit>, OrderError>)
    ensures r == Linearize(commits)
  {
    var commitsMap, parents := IndexCommits(commits);
    var heads := CollectHeads(commits, parents);
    heads := SortByTime(heads);
    assert Walk(heads, commitsMap, [], -1) == InitialWalk(commits);
    var result := WalkRounds(heads, commitsMap, |commits|);
    if |result| < |commits| {
      r := Failure(ResultNotFull(|result|, |commits|));
    } else if |result| > |commits| {
      r := Failure(ResultOverFull(|result|, |commits|));
    } else {
      r := Success(result);
    }
  }
}
