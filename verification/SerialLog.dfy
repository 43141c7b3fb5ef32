// Rank 0 writes the log for everybody: it offers each rank a token in turn and takes the
// rank's job, task and text records (src/ipm_mpi_log.c).  The job record it receives lands
// in its own, so the bound of its loop is what the last rank it heard from believes.
module SerialLog {

  datatype Piece = JobData(ntasks: int) | TaskData(rank: nat) | Text(rank: nat)

  // Where rank 0 stands with rank i.  Lost is a send to a rank the job does not have.
  datatype Phase = Offer | GetJob | GetTask | GetText | Finished | Lost

  // leaf[x] counts what rank x has done: taken the token, sent each of its three records.
  datatype State = State(
    i: nat, phase: Phase, ntasks: int, task: nat, records: seq<nat>,
    leaf: seq<nat>, token: seq<nat>, mail: seq<seq<Piece>>)

  datatype Move = Root | Leaf(x: nat)

  function Loop(i: nat, ntasks: int, n: nat): Phase {
    if i < ntasks then (if i < n then Offer else Lost) else Finished
  }

  // What rank x, whose job record says ntasks, sends.
  function Script(ntasks: int, x: nat): seq<Piece> {
    [JobData(ntasks), TaskData(x), Text(x)]
  }

  ghost predicate Sizes(ntasks: seq<int>, s: State) {
    |ntasks| == |s.leaf| == |s.token| == |s.mail| > 0
  }

  // Rank 0 has written its own record.
  ghost predicate Initial(ntasks: seq<int>, s: State) {
    && Sizes(ntasks, s) && s.i == 1 && s.records == [0] && s.ntasks == ntasks[0]
    && s.phase == Loop(1, ntasks[0], |ntasks|)
    && forall x | 0 <= x < |ntasks| :: s.leaf[x] == 0 && s.token[x] == 0 && s.mail[x] == []
  }

  ghost predicate Enabled(ntasks: seq<int>, s: State, m: Move) {
    && Sizes(ntasks, s)
    && match m
       case Root =>
         s.i < |ntasks| &&
         (match s.phase
          case Offer => true
          case GetJob => s.mail[s.i] != [] && s.mail[s.i][0].JobData?
          case GetTask => s.mail[s.i] != [] && s.mail[s.i][0].TaskData?
          case GetText => s.mail[s.i] != [] && s.mail[s.i][0].Text?
          case _ => false)
       case Leaf(x) => 0 < x < |ntasks| && s.leaf[x] < 4 && (s.leaf[x] == 0 ==> s.token[x] > 0)
  }

  ghost function Step(ntasks: seq<int>, s: State, m: Move): State
    requires Enabled(ntasks, s, m)
  {
    match m
    case Root =>
      if s.phase == Offer then s.(phase := GetJob, token := s.token[s.i := s.token[s.i] + 1])
      else
        var got, t := s.mail[s.i][0], s.(mail := s.mail[s.i := s.mail[s.i][1..]]);
        if s.phase == GetJob then t.(phase := GetTask, ntasks := got.ntasks)
        else if s.phase == GetTask then t.(phase := GetText, task := got.rank)
        else t.(phase := Loop(s.i + 1, s.ntasks, |ntasks|), i := s.i + 1, records := s.records + [s.task])
    case Leaf(x) =>
      if s.leaf[x] == 0 then s.(leaf := s.leaf[x := 1], token := s.token[x := s.token[x] - 1])
      else s.(leaf := s.leaf[x := s.leaf[x] + 1],
              mail := s.mail[x := s.mail[x] + [Script(ntasks[x], x)[s.leaf[x] - 1]]])
  }

  // ---- the invariant --------------------------------------------------------------------------------

  function Taken(phase: Phase): nat {
    match phase
    case GetTask => 1
    case GetText => 2
    case _ => 0
  }

  predicate Hearing(phase: Phase) {
    phase == GetJob || phase == GetTask || phase == GetText
  }

  ghost predicate LeafOk(ntasks: seq<int>, s: State, x: nat)
    requires Sizes(ntasks, s) && x < |ntasks|
  {
    if x == s.i && Hearing(s.phase) then
      && s.leaf[x] <= 4
      && s.token[x] == (if s.leaf[x] == 0 then 1 else 0)
      && var sent := if s.leaf[x] == 0 then 0 else s.leaf[x] - 1;
         Taken(s.phase) <= sent && s.mail[x] == Script(ntasks[x], x)[Taken(s.phase)..sent]
    else
      s.leaf[x] == (if 0 < x < s.i then 4 else 0) && s.token[x] == 0 && s.mail[x] == []
  }

  ghost predicate Invariant(ntasks: seq<int>, s: State) {
    && Sizes(ntasks, s) && 1 <= s.i <= |ntasks|
    && |s.records| == s.i && (forall k | 0 <= k < s.i :: s.records[k] == k)
    && (forall j | 0 <= j < s.i - 1 :: ntasks[j] > j + 1)
    && (s.phase == GetText ==> s.task == s.i)
    && (s.phase == Offer || Hearing(s.phase) ==> s.i < |ntasks| && ntasks[s.i - 1] > s.i)
    && s.ntasks == (if s.phase == GetTask || s.phase == GetText then ntasks[s.i] else ntasks[s.i - 1])
    && (s.phase == Finished ==> ntasks[s.i - 1] <= s.i)
    && (s.phase == Lost ==> s.i == |ntasks| && ntasks[s.i - 1] > s.i)
    && forall x | 0 <= x < |ntasks| :: LeafOk(ntasks, s, x)
  }

  lemma LeafKept(ntasks: seq<int>, s: State, m: Move, x: nat)
    requires Invariant(ntasks, s) && Enabled(ntasks, s, m) && x < |ntasks|
    ensures LeafOk(ntasks, Step(ntasks, s, m), x)
  {
    assert LeafOk(ntasks, s, x);
    if m.Leaf? {
      assert LeafOk(ntasks, s, m.x);
    } else {
      assert LeafOk(ntasks, s, s.i);
    }
  }

  lemma StepKeeps(ntasks: seq<int>, s: State, m: Move)
    requires Invariant(ntasks, s) && Enabled(ntasks, s, m)
    ensures Invariant(ntasks, Step(ntasks, s, m))
    ensures Moved(Step(ntasks, s, m)) == Moved(s) + 1
  {
    if m.Root? {
      assert LeafOk(ntasks, s, s.i);
    } else {
      assert LeafOk(ntasks, s, m.x);
    }
    hide LeafOk;
    forall x | 0 <= x < |ntasks|
      ensures LeafOk(ntasks, Step(ntasks, s, m), x)
    {
      LeafKept(ntasks, s, m, x);
    }
  }

  // How many moves it took to get here: eight for every rank that is through.
  function Moved(s: State): int {
    8 * (s.i - 1) + (match s.phase case GetJob => 1 case GetTask => 2 case GetText => 3 case _ => 0)
    + (if Hearing(s.phase) && s.i < |s.leaf| then s.leaf[s.i] else 0)
  }

  // ---- whole runs -------------------------------------------------------------------------------------

  ghost predicate Legal(ntasks: seq<int>, s: State, moves: seq<Move>)
    decreases |moves|
  {
    moves == [] || (Enabled(ntasks, s, moves[0]) && Legal(ntasks, Step(ntasks, s, moves[0]), moves[1..]))
  }

  ghost function Run(ntasks: seq<int>, s: State, moves: seq<Move>): State
    requires Legal(ntasks, s, moves)
    decreases |moves|
  {
    if moves == [] then s else Run(ntasks, Step(ntasks, s, moves[0]), moves[1..])
  }

  lemma {:induction false} RunKeeps(ntasks: seq<int>, s: State, moves: seq<Move>)
    requires Invariant(ntasks, s) && Legal(ntasks, s, moves)
    ensures Invariant(ntasks, Run(ntasks, s, moves)) && Moved(Run(ntasks, s, moves)) == Moved(s) + |moves|
    decreases |moves|
  {
    hide Invariant, Enabled, Step, Moved;
    if moves != [] {
      StepKeeps(ntasks, s, moves[0]);
      RunKeeps(ntasks, Step(ntasks, s, moves[0]), moves[1..]);
    }
  }

  // Rank 0 has left its loop and every other rank has sent its records.
  ghost predicate AllAtBarrier(ntasks: seq<int>, s: State) {
    Sizes(ntasks, s) && s.phase == Finished && forall x | 0 < x < |ntasks| :: s.leaf[x] == 4
  }

  // The ranks believe in enough tasks to keep the loop going, and the last one stops it.
  predicate BoundsAgree(ntasks: seq<int>) {
    ntasks != [] && (forall j | 0 <= j < |ntasks| - 1 :: ntasks[j] > j + 1) && ntasks[|ntasks| - 1] <= |ntasks|
  }

  // The mover has no message of its own that nobody has received.
  ghost predicate Ready(ntasks: seq<int>, s: State, m: Move) {
    Enabled(ntasks, s, m) && match m case Root => s.token[s.i] == 0 case Leaf(x) => s.mail[x] == []
  }

  lemma Progress(ntasks: seq<int>, s: State) returns (m: Move)
    requires Invariant(ntasks, s) && (s.phase == Offer || Hearing(s.phase))
    ensures Ready(ntasks, s, m)
  {
    assert LeafOk(ntasks, s, s.i);
    assert Hearing(s.phase) && s.mail[s.i] != [] ==> s.mail[s.i][0] == Script(ntasks[s.i], s.i)[Taken(s.phase)];
    m := if s.phase == Offer || s.mail[s.i] != [] then Root else Leaf(s.i);
  }

  lemma Stops(ntasks: seq<int>, s: State)
    requires Invariant(ntasks, s) && s.phase != Offer && !Hearing(s.phase)
    ensures AllAtBarrier(ntasks, s) <==> BoundsAgree(ntasks)
    ensures BoundsAgree(ntasks) ==> s.i == |ntasks|
  {
    if s.i < |ntasks| {
      assert LeafOk(ntasks, s, s.i);
      assert ntasks[s.i - 1] <= s.i;
    } else {
      forall x | 0 < x < |ntasks|
        ensures s.leaf[x] == 4
      {
        assert LeafOk(ntasks, s, x);
      }
    }
  }

  // How many records rank 0 writes before its loop stops, from the i-th on: the first rank that
  // believes in no more tasks than have been served ends it.
  function Served(ntasks: seq<int>, i: nat): nat
    requires 1 <= i <= |ntasks|
    decreases |ntasks| - i
  {
    if i == |ntasks| || ntasks[i - 1] <= i then i else Served(ntasks, i + 1)
  }

  lemma {:induction false} ServedFrom(ntasks: seq<int>, i: nat, j: nat)
    requires 1 <= i <= j <= |ntasks| && forall k | i - 1 <= k < j - 1 :: ntasks[k] > k + 1
    ensures Served(ntasks, i) == Served(ntasks, j)
    decreases j - i
  {
    if i < j {
      assert ntasks[i - 1] > i;
      ServedFrom(ntasks, i + 1, j);
    }
  }

  lemma StopsServed(ntasks: seq<int>, s: State)
    requires Invariant(ntasks, s) && s.phase != Offer && !Hearing(s.phase)
    ensures |s.records| == Served(ntasks, 1)
  {
    ServedFrom(ntasks, 1, s.i);
  }

  // Every run writes the ranks' records in rank order, none twice.  When the bounds agree,
  // every run goes on until everybody is at the barrier, with one record from every rank;
  // when they do not, no run gets there, and rank 0 stops after the ranks it has served.
  lemma EveryRunRecords(ntasks: seq<int>, s: State, moves: seq<Move>)
    requires Initial(ntasks, s) && Legal(ntasks, s, moves)
    ensures var e := Run(ntasks, s, moves);
      && |e.records| <= |ntasks| && (forall k | 0 <= k < |e.records| :: e.records[k] == k)
      && |moves| <= 8 * |ntasks|
      && (AllAtBarrier(ntasks, e) ==> BoundsAgree(ntasks) && |e.records| == |ntasks|)
      && (BoundsAgree(ntasks) && !AllAtBarrier(ntasks, e) ==> exists m :: Ready(ntasks, e, m))
      && (if e.phase == Finished || e.phase == Lost then |e.records| == Served(ntasks, 1)
          else exists m :: Ready(ntasks, e, m))
  {
    hide Legal, Run, Ready, AllAtBarrier, BoundsAgree, Enabled, Script, Served;
    assert Invariant(ntasks, s);
    RunKeeps(ntasks, s, moves);
    var e := Run(ntasks, s, moves);
    MovedBound(ntasks, e);
    if e.phase == Offer || Hearing(e.phase) {
      var m := Progress(ntasks, e);
      assert Ready(ntasks, e, m);
      NotYet(ntasks, e);
    } else {
      Stops(ntasks, e);
      StopsServed(ntasks, e);
    }
  }

  lemma NotYet(ntasks: seq<int>, s: State)
    requires s.phase == Offer || Hearing(s.phase)
    ensures !AllAtBarrier(ntasks, s)
  {
  }

  lemma MovedBound(ntasks: seq<int>, s: State)
    requires Invariant(ntasks, s)
    ensures Moved(s) <= 8 * |ntasks|
  {
    if Hearing(s.phase) {
      assert LeafOk(ntasks, s, s.i);
    }
  }

  // The bounds agree when every rank knows the size of the job.
  lemma SameBound(ntasks: seq<int>)
    requires ntasks != [] && forall x | 0 <= x < |ntasks| :: ntasks[x] == |ntasks|
    ensures BoundsAgree(ntasks)
  {
  }
}
