// The collective calls of the region loop (src/ipm_mpi_report.c).  Every rank takes as many
// turns as it has regions of its own, and each turn is a broadcast from rank 0 and nine
// reductions to rank 0.
module RegionTurns {

  const CALLS_PER_TURN: nat := 10

  // How many collective calls a rank with n regions makes.
  function Calls(n: nat): nat {
    if n > 1 then CALLS_PER_TURN * n else 0
  }

  predicate IsBroadcast(i: nat) {
    i % CALLS_PER_TURN == 0
  }

  // done[x] calls have returned on rank x; it is inside its next one if it has one.
  predicate Entered(counts: seq<nat>, done: seq<nat>, x: nat, i: nat)
    requires x < |counts| == |done|
  {
    i <= done[x] && i < Calls(counts[x])
  }

  // The next call of rank r can return, with as little waiting as MPI allows: a broadcast waits
  // for its root, and the root of a reduction for everybody.
  ghost predicate Enabled(counts: seq<nat>, done: seq<nat>, r: nat) {
    && r < |counts| == |done| && done[r] < Calls(counts[r])
    && (r != 0 && IsBroadcast(done[r]) ==> Entered(counts, done, 0, done[r]))
    && (r == 0 && !IsBroadcast(done[0]) ==> forall x | 0 <= x < |counts| :: Entered(counts, done, x, done[0]))
  }

  // It can return even if every collective call waits for everybody.
  ghost predicate Ready(counts: seq<nat>, done: seq<nat>, r: nat) {
    Enabled(counts, done, r) && forall x | 0 <= x < |counts| :: Entered(counts, done, x, done[r])
  }

  function Step(done: seq<nat>, r: nat): seq<nat>
    requires r < |done|
  {
    done[r := done[r] + 1]
  }

  ghost predicate Legal(counts: seq<nat>, done: seq<nat>, moves: seq<nat>) {
    moves == []
    || (Legal(counts, done, moves[..|moves| - 1])
        && Enabled(counts, Run(done, moves[..|moves| - 1]), moves[|moves| - 1]))
  }

  function Run(done: seq<nat>, moves: seq<nat>): seq<nat> {
    if moves == [] then done
    else
      var before, r := Run(done, moves[..|moves| - 1]), moves[|moves| - 1];
      if r < |before| then Step(before, r) else before
  }

  ghost predicate AllDone(counts: seq<nat>, done: seq<nat>) {
    |done| == |counts| && forall x | 0 <= x < |counts| :: done[x] == Calls(counts[x])
  }

  ghost predicate CountsAgree(counts: seq<nat>) {
    (forall x, y | 0 <= x < |counts| && 0 <= y < |counts| :: counts[x] == counts[y])
    || forall x | 0 <= x < |counts| :: counts[x] <= 1
  }

  // Nobody has returned from a call that had to wait for somebody who has no such call.
  ghost predicate Invariant(counts: seq<nat>, done: seq<nat>) {
    && |done| == |counts| > 0
    && (forall x | 0 <= x < |counts| :: done[x] <= Calls(counts[x]))
    && (forall x, i: nat | 0 <= x < |counts| && i < done[x] && IsBroadcast(i) :: i < Calls(counts[0]))
    && (forall x, i: nat | 0 <= x < |counts| && i < done[0] && !IsBroadcast(i) :: i < Calls(counts[x]))
  }

  lemma StepKeeps(counts: seq<nat>, done: seq<nat>, r: nat)
    requires Invariant(counts, done) && Enabled(counts, done, r)
    ensures Invariant(counts, Step(done, r))
  {
    hide Calls, IsBroadcast;
    var done' := Step(done, r);
    forall x, i: nat | 0 <= x < |counts| && i < done'[x] && IsBroadcast(i)
      ensures i < Calls(counts[0])
    {
      assert i < done[x] || (x == r && i == done[r]);
    }
    forall x, i: nat | 0 <= x < |counts| && i < done'[0] && !IsBroadcast(i)
      ensures i < Calls(counts[x])
    {
      assert i < done[0] || (0 == r && i == done[0] && Entered(counts, done, x, i));
    }
  }

  // While the counts agree and somebody is not done, the rank that is furthest behind finds
  // everybody in its call.
  lemma Progress(counts: seq<nat>, done: seq<nat>) returns (r: nat)
    requires Invariant(counts, done) && CountsAgree(counts) && !AllDone(counts, done)
    ensures Ready(counts, done, r)
  {
    r := Last(done, |done|);
    SameCalls(counts);
  }

  lemma {:induction false} Last(done: seq<nat>, n: nat) returns (r: nat)
    requires 0 < n <= |done|
    ensures r < n && forall x | 0 <= x < n :: done[r] <= done[x]
  {
    r := 0;
    if n > 1 {
      r := Last(done, n - 1);
      r := if done[n - 1] < done[r] then n - 1 else r;
    }
  }

  lemma SameCalls(counts: seq<nat>)
    requires CountsAgree(counts)
    ensures forall x, y | 0 <= x < |counts| && 0 <= y < |counts| :: Calls(counts[x]) == Calls(counts[y])
  {
  }

  // Everybody can be done only if the counts agree: the first call that one rank has and
  // another has not, or the one behind it, would have had to wait for the other.
  lemma DoneAgrees(counts: seq<nat>, done: seq<nat>)
    requires Invariant(counts, done) && AllDone(counts, done)
    ensures CountsAgree(counts)
  {
    forall x | 0 <= x < |counts|
      ensures Calls(counts[x]) == Calls(counts[0])
    {
      NoMore(counts, done, x);
      NoFewer(counts, done, x);
    }
    forall x | 0 <= x < |counts|
      ensures counts[x] == counts[0] || (counts[x] <= 1 && counts[0] <= 1)
    {
      CallsIff(counts[x], counts[0]);
    }
  }

  lemma NoMore(counts: seq<nat>, done: seq<nat>, x: nat)
    requires Invariant(counts, done) && AllDone(counts, done) && x < |counts|
    ensures Calls(counts[x]) <= Calls(counts[0])
  {
    hide Calls;
    var i := Calls(counts[0]);
    FirstOfTurn(counts[0]);
    assert !(i < done[x] && IsBroadcast(i));
  }

  lemma NoFewer(counts: seq<nat>, done: seq<nat>, x: nat)
    requires Invariant(counts, done) && AllDone(counts, done) && x < |counts|
    ensures Calls(counts[0]) <= Calls(counts[x])
  {
    hide Calls;
    var i := Calls(counts[x]) + 1;
    FirstOfTurn(counts[x]);
    FirstOfTurn(counts[0]);
    assert !(i < done[0] && !IsBroadcast(i));
  }

  lemma FirstOfTurn(n: nat)
    ensures IsBroadcast(Calls(n))
  {
  }

  lemma CallsIff(m: nat, n: nat)
    ensures Calls(m) == Calls(n) <==> m == n || (m <= 1 && n <= 1)
  {
  }

  // Moves made.
  function Made(done: seq<nat>): nat {
    if done == [] then 0 else Made(done[..|done| - 1]) + done[|done| - 1]
  }

  lemma {:induction false} RunKeeps(counts: seq<nat>, done: seq<nat>, moves: seq<nat>)
    requires Invariant(counts, done) && Legal(counts, done, moves)
    ensures Invariant(counts, Run(done, moves)) && Made(Run(done, moves)) == Made(done) + |moves|
  {
    hide Invariant, Enabled, Made;
    if moves != [] {
      var before, r := Run(done, moves[..|moves| - 1]), moves[|moves| - 1];
      RunKeeps(counts, done, moves[..|moves| - 1]);
      StepLegal(counts, before, r);
      StepKeeps(counts, before, r);
      OneMore(before, r);
    }
  }

  lemma StepLegal(counts: seq<nat>, done: seq<nat>, r: nat)
    requires Enabled(counts, done, r)
    ensures r < |done|
  {
  }

  lemma {:induction false} OneMore(done: seq<nat>, r: nat)
    requires r < |done|
    ensures Made(Step(done, r)) == Made(done) + 1
  {
    var n := |done| - 1;
    if r < n {
      OneMore(done[..n], r);
      assert Step(done, r)[..n] == Step(done[..n], r);
    } else {
      assert Step(done, r)[..n] == done[..n];
    }
  }

  lemma {:induction false} AtMost(done: seq<nat>, bound: seq<nat>)
    requires |done| == |bound| && forall x | 0 <= x < |done| :: done[x] <= bound[x]
    ensures Made(done) <= Made(bound)
  {
    if done != [] {
      AtMost(done[..|done| - 1], bound[..|bound| - 1]);
    }
  }

  function AllCalls(counts: seq<nat>): seq<nat> {
    seq(|counts|, x requires 0 <= x < |counts| => Calls(counts[x]))
  }

  // Every run of the loop is bounded.  When all ranks have as many regions as each other, or
  // none has more than one, it can always go on until everybody is done, even if every
  // collective call waits for everybody; otherwise no run, with as little waiting as MPI
  // allows, gets everybody through.
  lemma EveryRunMatches(counts: seq<nat>, moves: seq<nat>)
    requires counts != [] && Legal(counts, seq(|counts|, _ => 0), moves)
    ensures var done := Run(seq(|counts|, _ => 0), moves);
      && |moves| <= Made(AllCalls(counts))
      && (CountsAgree(counts) && !AllDone(counts, done) ==> exists r :: Ready(counts, done, r))
      && (AllDone(counts, done) ==> CountsAgree(counts))
  {
    hide Ready, AllDone, CountsAgree, Legal, Run, Made, Calls;
    var start := seq(|counts|, _ => 0);
    assert Invariant(counts, start);
    RunKeeps(counts, start, moves);
    NoneMade(start);
    var done := Run(start, moves);
    AtMost(done, AllCalls(counts));
    if AllDone(counts, done) {
      DoneAgrees(counts, done);
    } else if CountsAgree(counts) {
      var r := Progress(counts, done);
    }
  }

  lemma {:induction false} NoneMade(done: seq<nat>)
    requires forall x | 0 <= x < |done| :: done[x] == 0
    ensures Made(done) == 0
  {
    if done != [] {
      NoneMade(done[..|done| - 1]);
    }
  }
}
