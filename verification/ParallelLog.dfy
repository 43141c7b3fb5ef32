// All ranks write one log file together: every rank learns from its left neighbour where
// the part before it ends (src/ipm_mpi_log.c, src/checkpoints/ipm_chkpt_log.c).
module ParallelLog {
  import opened Texts

  // Where rank r's part begins: the sizes of all lower ranks together.
  function Offset(bufs: seq<string>, r: nat): nat
    requires r <= |bufs|
  {
    if r == 0 then 0 else Offset(bufs, r - 1) + |bufs[r - 1]|
  }

  lemma {:induction false} JoinedParts(bufs: seq<string>, n: nat, r: nat)
    requires r < n <= |bufs|
    ensures Offset(bufs, r) + |bufs[r]| == Offset(bufs, r + 1) <= Offset(bufs, n) == |Joined(bufs[..n])|
    ensures Joined(bufs[..n])[Offset(bufs, r)..Offset(bufs, r + 1)] == bufs[r]
  {
    hide Joined;
    JoinedLast(bufs, n);
    if r < n - 1 {
      JoinedParts(bufs, n - 1, r);
      PartStays(Joined(bufs[..n - 1]), bufs[n - 1], Offset(bufs, r), Offset(bufs, r + 1));
    } else if n > 1 {
      JoinedParts(bufs, n - 1, n - 2);
      LastPart(Joined(bufs[..n - 1]), bufs[n - 1]);
    } else {
      NothingJoined(bufs[..0]);
      LastPart("", bufs[0]);
    }
  }

  lemma JoinedLast(bufs: seq<string>, n: nat)
    requires 0 < n <= |bufs|
    ensures Joined(bufs[..n]) == Joined(bufs[..n - 1]) + bufs[n - 1]
  {
    assert bufs[..n][..n - 1] == bufs[..n - 1];
  }

  lemma NothingJoined(bufs: seq<string>)
    requires bufs == []
    ensures Joined(bufs) == ""
  {
  }

  lemma PartStays(a: string, b: string, i: nat, j: nat)
    requires i <= j <= |a|
    ensures (a + b)[i..j] == a[i..j]
  {
  }

  lemma LastPart(a: string, b: string)
    ensures (a + b)[|a|..|a| + |b|] == b
  {
  }

  // Whose part place k belongs to.
  lemma {:induction false} Owner(bufs: seq<string>, n: nat, k: nat) returns (r: nat)
    requires n <= |bufs| && k < Offset(bufs, n)
    ensures r < n && Offset(bufs, r) <= k < Offset(bufs, r + 1)
  {
    if k >= Offset(bufs, n - 1) {
      r := n - 1;
    } else {
      r := Owner(bufs, n - 1, k);
    }
  }

  // ---- the program of one rank ------------------------------------------------------------------

  datatype Pc = Measure | Reduce | Delete | Barrier | RecvSum | SendSum | Write | Closed | Serial

  // chan[r] holds what rank r has sent to rank r + 1; file is the log, by place.
  datatype State = State(pc: seq<Pc>, sum: seq<nat>, offset: seq<nat>, chan: seq<seq<nat>>, file: map<nat, char>)

  // The reduction of the allocation flags.
  function Successes(mem: seq<bool>): nat {
    if mem == [] then 0 else Successes(mem[..|mem| - 1]) + (if mem[|mem| - 1] then 1 else 0)
  }

  predicate Enabled(s: State, r: nat) {
    && r < |s.pc| == |s.chan| && s.pc[r] != Closed && s.pc[r] != Serial
    && (s.pc[r] == Reduce ==> Measure !in s.pc)
    && (s.pc[r] == Barrier ==> Measure !in s.pc && Reduce !in s.pc && Delete !in s.pc)
    && (s.pc[r] == RecvSum ==> 0 < r && s.chan[r - 1] != [])
  }

  function Places(at: nat, n: nat): (s: set<nat>)
    ensures forall k: nat :: k in s <==> at <= k < at + n
  {
    if n == 0 then {} else Places(at, n - 1) + {at + n - 1}
  }

  function Written(file: map<nat, char>, at: nat, buf: string): map<nat, char> {
    file + map k | k in Places(at, |buf|) :: buf[k - at]
  }

  function Step(bufs: seq<string>, mem: seq<bool>, s: State, r: nat): State
    requires |s.pc| == |s.sum| == |s.offset| == |s.chan| == |bufs| == |mem| && Enabled(s, r)
  {
    var n := |s.pc|;
    match s.pc[r]
    case Measure => s.(pc := s.pc[r := Reduce])
    case Reduce => s.(pc := s.pc[r := if Successes(mem) != n then Serial else if r == 0 then Delete else Barrier])
    case Delete => s.(pc := s.pc[r := Barrier], file := map[])
    case Barrier => s.(pc := s.pc[r := if n == 1 then Write else if r == 0 then SendSum else RecvSum])
    case RecvSum =>
      var got := s.chan[r - 1][0];
      s.(pc := s.pc[r := if r == n - 1 then Write else SendSum], sum := s.sum[r := got], offset := s.offset[r := got],
         chan := s.chan[r - 1 := s.chan[r - 1][1..]])
    case SendSum =>
      var sum := s.sum[r] + |bufs[r]|;
      s.(pc := s.pc[r := Write], sum := s.sum[r := sum], chan := s.chan[r := s.chan[r] + [sum]])
    case Write => s.(pc := s.pc[r := Closed], file := Written(s.file, s.offset[r], bufs[r]))
    case _ => s
  }

  // The file may hold anything left over from an earlier job.
  ghost predicate Initial(n: nat, s: State) {
    && |s.pc| == |s.sum| == |s.offset| == |s.chan| == n
    && forall r | 0 <= r < n :: s.pc[r] == Measure && s.sum[r] == 0 && s.offset[r] == 0 && s.chan[r] == []
  }

  // ---- the invariant ------------------------------------------------------------------------------

  predicate Reduced(pc: Pc) {
    pc != Measure && pc != Reduce
  }

  predicate Opened(pc: Pc) {
    Reduced(pc) && pc != Delete && pc != Barrier && pc != Serial
  }

  predicate Received(pc: Pc) {
    pc == SendSum || pc == Write || pc == Closed
  }

  predicate Sent(pc: Pc) {
    pc == Write || pc == Closed
  }

  ghost predicate RankOk(bufs: seq<string>, mem: seq<bool>, s: State, r: nat)
    requires r < |s.pc| == |s.sum| == |s.offset| == |s.chan| == |bufs| == |mem|
  {
    var pc := s.pc[r];
    // everybody takes the same branch, and nobody before all have entered the reduction
    && (Reduced(pc) ==> Measure !in s.pc && (pc == Serial <==> Successes(mem) != |mem|))
    // nobody writes before the old file is gone
    && (Opened(pc) ==> Reduce !in s.pc && Delete !in s.pc)
    && (pc == Delete ==> r == 0)
    && (pc == RecvSum ==> 0 < r) && (pc == SendSum ==> r < |s.pc| - 1)
    && (r == 0 ==> s.offset[r] == 0)
    && (r == 0 && !Sent(pc) ==> s.sum[r] == 0)
    && (Received(pc) ==> s.offset[r] == Offset(bufs, r))
    && (pc == SendSum ==> s.sum[r] == Offset(bufs, r))
  }

  ghost predicate LinkOk(bufs: seq<string>, s: State, r: nat)
    requires r < |s.pc| == |s.chan| == |bufs|
  {
    if r + 1 == |s.pc| then s.chan[r] == []
    else
      && (Received(s.pc[r + 1]) ==> Sent(s.pc[r]))
      && s.chan[r] == if Sent(s.pc[r]) && !Received(s.pc[r + 1]) then [Offset(bufs, r + 1)] else []
  }

  ghost predicate FileOk(bufs: seq<string>, s: State)
    requires |s.pc| == |bufs| > 0
  {
    // once rank 0 is past the deletion only the parts of the job are in the file
    && (Reduced(s.pc[0]) && s.pc[0] != Delete && s.pc[0] != Serial ==>
          forall k: nat | k in s.file :: k < |Joined(bufs)| && s.file[k] == Joined(bufs)[k])
    && (forall r, k: nat | 0 <= r < |s.pc| && s.pc[r] == Closed && Offset(bufs, r) <= k < Offset(bufs, r + 1) ::
          k in s.file)
  }

  ghost predicate Invariant(bufs: seq<string>, mem: seq<bool>, s: State) {
    && |s.pc| == |s.sum| == |s.offset| == |s.chan| == |bufs| == |mem| > 0
    && (forall r | 0 <= r < |s.pc| :: RankOk(bufs, mem, s, r))
    && (forall r | 0 <= r < |s.pc| :: LinkOk(bufs, s, r))
    && FileOk(bufs, s)
  }

  lemma InitialOk(bufs: seq<string>, mem: seq<bool>, s: State)
    requires |bufs| == |mem| > 0 && Initial(|bufs|, s)
    ensures Invariant(bufs, mem, s)
  {
    hide Joined;
  }

  lemma RankKept(bufs: seq<string>, mem: seq<bool>, s: State, r: nat, x: nat)
    requires Invariant(bufs, mem, s) && Enabled(s, r) && x < |s.pc|
    ensures RankOk(bufs, mem, Step(bufs, mem, s, r), x)
  {
    hide FileOk, Joined, Written, Successes;
    assert RankOk(bufs, mem, s, x) && RankOk(bufs, mem, s, r);
    assert r > 0 ==> LinkOk(bufs, s, r - 1);
  }

  lemma LinkKept(bufs: seq<string>, mem: seq<bool>, s: State, r: nat, x: nat)
    requires Invariant(bufs, mem, s) && Enabled(s, r) && x < |s.pc|
    ensures LinkOk(bufs, Step(bufs, mem, s, r), x)
  {
    hide FileOk, Joined, Written, Successes;
    assert LinkOk(bufs, s, x);
    assert RankOk(bufs, mem, s, x) && RankOk(bufs, mem, s, r);
    assert r > 0 ==> LinkOk(bufs, s, r - 1);
  }

  lemma FileWritten(bufs: seq<string>, mem: seq<bool>, s: State, r: nat)
    requires Invariant(bufs, mem, s) && Enabled(s, r) && s.pc[r] == Write
    ensures FileOk(bufs, Step(bufs, mem, s, r))
  {
    hide Joined, LinkOk, Successes, Offset, Written, Step;
    assert RankOk(bufs, mem, s, r) && RankOk(bufs, mem, s, 0);
    StepWrites(bufs, mem, s, r);
    var s' := Step(bufs, mem, s, r);
    forall k: nat | k in s'.file && Reduced(s.pc[0]) && s.pc[0] != Delete && s.pc[0] != Serial
      ensures k < |Joined(bufs)| && s'.file[k] == Joined(bufs)[k]
    {
      WrittenPart(bufs, s.file, r, k);
    }
    forall x, k: nat | 0 <= x < |s.pc| && s'.pc[x] == Closed && Offset(bufs, x) <= k < Offset(bufs, x + 1)
      ensures k in s'.file
    {
      WrittenPart(bufs, s.file, r, k);
      assert x == r || k in s.file;
    }
  }

  lemma StepWrites(bufs: seq<string>, mem: seq<bool>, s: State, r: nat)
    requires |s.pc| == |s.sum| == |s.offset| == |s.chan| == |bufs| == |mem| && Enabled(s, r) && s.pc[r] == Write
    ensures Step(bufs, mem, s, r) == s.(pc := s.pc[r := Closed], file := Written(s.file, s.offset[r], bufs[r]))
  {
    hide Written;
  }

  // Writing rank r's part puts what the joined text has there, and nothing elsewhere.
  lemma WrittenPart(bufs: seq<string>, file: map<nat, char>, r: nat, k: nat)
    requires r < |bufs|
    ensures var file', at, end := Written(file, Offset(bufs, r), bufs[r]), Offset(bufs, r), Offset(bufs, r + 1);
      && end <= |Joined(bufs)|
      && (k in file' <==> k in file || at <= k < end)
      && (k in file' ==> file'[k] == if at <= k < end then Joined(bufs)[k] else file[k])
  {
    hide Joined, Offset, Places;
    assert bufs[..|bufs|] == bufs;
    JoinedParts(bufs, |bufs|, r);
    var doc, at := Joined(bufs), Offset(bufs, r);
    if at <= k < at + |bufs[r]| {
      assert bufs[r][k - at] == doc[at..Offset(bufs, r + 1)][k - at];
    }
  }

  lemma FileSame(bufs: seq<string>, mem: seq<bool>, s: State, r: nat)
    requires Invariant(bufs, mem, s) && Enabled(s, r) && s.pc[r] != Write
    ensures FileOk(bufs, Step(bufs, mem, s, r))
  {
    hide Joined, LinkOk, Successes, Offset, Places;
    assert RankOk(bufs, mem, s, r) && RankOk(bufs, mem, s, 0);
    assert forall x | 0 <= x < |s.pc| && s.pc[x] == Closed :: RankOk(bufs, mem, s, x);
  }

  lemma FileKept(bufs: seq<string>, mem: seq<bool>, s: State, r: nat)
    requires Invariant(bufs, mem, s) && Enabled(s, r)
    ensures FileOk(bufs, Step(bufs, mem, s, r))
  {
    hide FileOk, RankOk, LinkOk, Step;
    if s.pc[r] == Write {
      FileWritten(bufs, mem, s, r);
    } else {
      FileSame(bufs, mem, s, r);
    }
  }

  lemma StepKeeps(bufs: seq<string>, mem: seq<bool>, s: State, r: nat)
    requires Invariant(bufs, mem, s) && Enabled(s, r)
    ensures Invariant(bufs, mem, Step(bufs, mem, s, r))
  {
    hide RankOk, LinkOk, FileOk, Written, Successes;
    var s' := Step(bufs, mem, s, r);
    forall x | 0 <= x < |s.pc|
      ensures RankOk(bufs, mem, s', x) && LinkOk(bufs, s', x)
    {
      RankKept(bufs, mem, s, r, x);
      LinkKept(bufs, mem, s, r, x);
    }
    FileKept(bufs, mem, s, r);
  }

  // ---- no deadlock ----------------------------------------------------------------------------------

  // Rank r can move, and what it has sent has been received.
  ghost predicate Ready(s: State, r: nat) {
    Enabled(s, r) && s.chan[r] == []
  }

  predicate Ended(s: State) {
    forall r | 0 <= r < |s.pc| :: s.pc[r] == Closed || s.pc[r] == Serial
  }

  lemma {:induction false} WalkLeft(bufs: seq<string>, mem: seq<bool>, s: State, r: nat) returns (x: nat)
    requires Invariant(bufs, mem, s) && r < |s.pc| && s.pc[r] == RecvSum
    requires Measure !in s.pc && Reduce !in s.pc && Delete !in s.pc && Barrier !in s.pc && Serial !in s.pc
    ensures Ready(s, x)
  {
    hide FileOk, Joined, Offset;
    assert RankOk(bufs, mem, s, r) && RankOk(bufs, mem, s, r - 1);
    assert LinkOk(bufs, s, r) && LinkOk(bufs, s, r - 1);
    if Sent(s.pc[r - 1]) {
      x := r;
    } else if s.pc[r - 1] == SendSum {
      x := r - 1;
    } else {
      x := WalkLeft(bufs, mem, s, r - 1);
    }
  }

  lemma Progress(bufs: seq<string>, mem: seq<bool>, s: State) returns (x: nat)
    requires Invariant(bufs, mem, s) && !Ended(s)
    ensures Ready(s, x)
  {
    hide FileOk, Joined, Offset;
    if y: nat :| y < |s.pc| && s.pc[y] == Measure {
      x := y;
      Silent(bufs, mem, s, y);
    } else if y: nat :| y < |s.pc| && s.pc[y] == Reduce {
      x := y;
      Silent(bufs, mem, s, y);
    } else if y: nat :| y < |s.pc| && s.pc[y] == Delete {
      x := y;
      Silent(bufs, mem, s, y);
    } else if y: nat :| y < |s.pc| && s.pc[y] == Barrier {
      x := y;
      Silent(bufs, mem, s, y);
    } else if y: nat :| y < |s.pc| && s.pc[y] == SendSum {
      x := y;
      Silent(bufs, mem, s, y);
    } else if y: nat :| y < |s.pc| && s.pc[y] == RecvSum {
      OneBranch(bufs, mem, s, y);
      x := WalkLeft(bufs, mem, s, y);
    } else {
      var y :| 0 <= y < |s.pc| && s.pc[y] != Closed && s.pc[y] != Serial;
      OneBranch(bufs, mem, s, y);
      x := y;
      assert LinkOk(bufs, s, y);
    }
  }

  lemma Silent(bufs: seq<string>, mem: seq<bool>, s: State, y: nat)
    requires Invariant(bufs, mem, s) && y < |s.pc| && !Sent(s.pc[y])
    ensures s.chan[y] == []
  {
    hide FileOk, RankOk;
    assert LinkOk(bufs, s, y);
  }

  // Nobody runs serially while somebody runs in parallel.
  lemma OneBranch(bufs: seq<string>, mem: seq<bool>, s: State, y: nat)
    requires Invariant(bufs, mem, s) && y < |s.pc| && Reduced(s.pc[y]) && s.pc[y] != Serial
    ensures Serial !in s.pc
  {
    hide FileOk, LinkOk;
    assert RankOk(bufs, mem, s, y);
    forall x | 0 <= x < |s.pc|
      ensures s.pc[x] != Serial
    {
      assert RankOk(bufs, mem, s, x);
    }
  }

  // ---- whole runs -------------------------------------------------------------------------------------

  // How many moves a rank has left.
  function MovesLeft(mem: seq<bool>, r: nat, pc: Pc): nat
    requires r < |mem|
  {
    var alone, first, last := |mem| == 1, r == 0, r == |mem| - 1;
    var chain := if alone then 0 else if first || last then 1 else 2;
    var open := if Successes(mem) != |mem| then 0 else 2 + chain + (if first then 1 else 0);
    match pc
    case Measure => 2 + open
    case Reduce => 1 + open
    case Delete => 3 + chain
    case Barrier => 2 + chain
    case RecvSum => 1 + chain
    case SendSum => 2
    case Write => 1
    case Closed => 0
    case Serial => 0
  }

  function TotalLeft(mem: seq<bool>, pc: seq<Pc>, n: nat): nat
    requires n <= |pc| && n <= |mem|
  {
    if n == 0 then 0 else TotalLeft(mem, pc, n - 1) + MovesLeft(mem, n - 1, pc[n - 1])
  }

  lemma {:induction false} TotalChanges(mem: seq<bool>, pc: seq<Pc>, n: nat, x: nat, pc': Pc)
    requires n <= |pc| == |mem| && x < |pc|
    ensures TotalLeft(mem, pc[x := pc'], n) - TotalLeft(mem, pc, n)
         == if x < n then MovesLeft(mem, x, pc') - MovesLeft(mem, x, pc[x]) else 0
  {
    hide MovesLeft;
    if n > 0 {
      TotalChanges(mem, pc, n - 1, x, pc');
    }
  }

  lemma StepTotal(bufs: seq<string>, mem: seq<bool>, s: State, r: nat)
    requires Invariant(bufs, mem, s) && Enabled(s, r)
    ensures TotalLeft(mem, Step(bufs, mem, s, r).pc, |mem|) == TotalLeft(mem, s.pc, |mem|) - 1
  {
    hide FileOk, LinkOk, Offset, Written, TotalLeft, Successes;
    assert RankOk(bufs, mem, s, r);
    TotalChanges(mem, s.pc, |mem|, r, Step(bufs, mem, s, r).pc[r]);
  }

  ghost predicate Legal(bufs: seq<string>, mem: seq<bool>, s: State, moves: seq<nat>)
    requires |s.pc| == |s.sum| == |s.offset| == |s.chan| == |bufs| == |mem|
    decreases |moves|
  {
    moves == [] || (Enabled(s, moves[0]) && Legal(bufs, mem, Step(bufs, mem, s, moves[0]), moves[1..]))
  }

  ghost function Run(bufs: seq<string>, mem: seq<bool>, s: State, moves: seq<nat>): State
    requires |s.pc| == |s.sum| == |s.offset| == |s.chan| == |bufs| == |mem| && Legal(bufs, mem, s, moves)
    decreases |moves|
  {
    if moves == [] then s else Run(bufs, mem, Step(bufs, mem, s, moves[0]), moves[1..])
  }

  lemma {:induction false} RunKeeps(bufs: seq<string>, mem: seq<bool>, s: State, moves: seq<nat>)
    requires Invariant(bufs, mem, s) && Legal(bufs, mem, s, moves)
    ensures var e := Run(bufs, mem, s, moves);
      Invariant(bufs, mem, e) && |moves| + TotalLeft(mem, e.pc, |mem|) == TotalLeft(mem, s.pc, |mem|)
    decreases |moves|
  {
    hide RankOk, LinkOk, FileOk, Step, Enabled, TotalLeft;
    if moves != [] {
      StepKeeps(bufs, mem, s, moves[0]);
      StepTotal(bufs, mem, s, moves[0]);
      RunKeeps(bufs, mem, Step(bufs, mem, s, moves[0]), moves[1..]);
    }
  }

  lemma {:induction false} AllMoved(mem: seq<bool>, pc: seq<Pc>, n: nat)
    requires n <= |pc| == |mem| && forall r | 0 <= r < n :: pc[r] == Closed || pc[r] == Serial
    ensures TotalLeft(mem, pc, n) == 0
  {
    if n > 0 {
      AllMoved(mem, pc, n - 1);
    }
  }

  // The flags add up to the number of ranks exactly when every allocation succeeded.
  lemma {:induction false} AllSucceed(mem: seq<bool>)
    ensures Successes(mem) <= |mem|
    ensures Successes(mem) == |mem| <==> false !in mem
  {
    if mem != [] {
      AllSucceed(mem[..|mem| - 1]);
      assert mem == mem[..|mem| - 1] + [mem[|mem| - 1]];
    }
  }

  // The file is what the ranks have to write, joined in rank order, and nothing else.
  ghost predicate Tiled(bufs: seq<string>, file: map<nat, char>) {
    forall k: nat ::
      && (k in file <==> k < |Joined(bufs)|)
      && (k in file && k < |Joined(bufs)| ==> file[k] == Joined(bufs)[k])
  }

  lemma ClosedTiles(bufs: seq<string>, mem: seq<bool>, s: State)
    requires Invariant(bufs, mem, s) && forall r | 0 <= r < |s.pc| :: s.pc[r] == Closed
    ensures Tiled(bufs, s.file)
  {
    hide Joined, Offset, RankOk, LinkOk;
    assert bufs[..|bufs|] == bufs;
    JoinedParts(bufs, |bufs|, 0);
    forall k: nat | k < |Joined(bufs)|
      ensures k in s.file
    {
      var r := Owner(bufs, |bufs|, k);
    }
  }

  // Every run goes on until all ranks have ended, after a number of moves that is the same
  // for all, and they all end the same way: in parallel exactly when every allocation
  // succeeded, and then the file is every rank's part, once, in rank order.
  lemma EveryRunTiles(bufs: seq<string>, mem: seq<bool>, s: State, moves: seq<nat>)
    requires |bufs| == |mem| > 0 && Initial(|bufs|, s) && Legal(bufs, mem, s, moves)
    ensures var e := Run(bufs, mem, s, moves);
      && |moves| <= TotalLeft(mem, s.pc, |mem|)
      && if !Ended(e) then exists x :: Ready(e, x)
         else
           && |moves| == TotalLeft(mem, s.pc, |mem|)
           && (false !in mem ==> (forall r | 0 <= r < |e.pc| :: e.pc[r] == Closed) && Tiled(bufs, e.file))
           && (false in mem ==> forall r | 0 <= r < |e.pc| :: e.pc[r] == Serial)
  {
    hide Joined, Offset, LinkOk, FileOk, Legal, Tiled, Ready;
    InitialOk(bufs, mem, s);
    RunKeeps(bufs, mem, s, moves);
    AllSucceed(mem);
    var e := Run(bufs, mem, s, moves);
    if Ended(e) {
      AllMoved(mem, e.pc, |mem|);
      forall r | 0 <= r < |e.pc|
        ensures e.pc[r] == if false in mem then Serial else Closed
      {
        assert RankOk(bufs, mem, e, r);
      }
      if false !in mem {
        ClosedTiles(bufs, mem, e);
      }
    } else {
      var x := Progress(bufs, mem, e);
      assert Ready(e, x);
    }
  }
}
