// ipm_region of src/ipm_api.c: which region a rank is in, and where its time goes.
module Regions {
  import opened Sums
  import opened Texts

  const MAXSIZE_LABEL: nat := 21
  const MAXSIZE_REGION: nat := 255

  // What is kept, and compared, of a label.
  function Cut(tag: string): string {
    Kept(tag, MAXSIZE_LABEL)
  }

  // The first 21 places decide, and labels of up to 21 characters are kept whole.
  lemma CutIff(a: string, b: string)
    ensures Cut(a) == Cut(b) <==> forall i: nat | i < 21 :: AgreeAt(a, b, i)
    ensures |a| <= 21 ==> Cut(a) == a
    ensures |a| <= 21 && |b| <= 21 ==> (Cut(a) == Cut(b) <==> a == b)
  {
    KeptIff(a, b, 21);
  }

  // One call: its arguments, and the clock when it is entered and left.
  datatype Call = Call(io: int, tag: string, enter: real, leave: real)

  // The known labels, and the region the rank is in; -1 is none.
  datatype Where = Where(labels: seq<string>, current: int)

  const START := Where([], 0)

  // The region a label names; -1 is an unknown one.
  function Named(labels: seq<string>, tag: string): (r: int)
    ensures -1 <= r < |labels|
    ensures r >= 0 ==> Cut(tag) == labels[r]
    ensures r == -1 <==> Cut(tag) !in labels
  {
    if labels == [] then -1
    else if labels[|labels| - 1] == Cut(tag) then |labels| - 1
    else Named(labels[..|labels| - 1], tag)
  }

  // The call does not end the program.
  predicate Accepted(w: Where, c: Call) {
    (c.io == 1 || c.io == -1) && !(c.io == 1 && Named(w.labels, c.tag) < 0 && |w.labels| >= MAXSIZE_REGION)
  }

  function Act(w: Where, c: Call): Where {
    var labels := if c.io == 1 && Named(w.labels, c.tag) < 0 then w.labels + [Cut(c.tag)] else w.labels;
    var r := Named(labels, c.tag);
    var global := w.current >= 0 && ((r > 0 && c.io == -1) || (r == 0 && c.io == 1));
    Where(labels, if global then 0 else r)
  }

  predicate AllAccepted(calls: seq<Call>) {
    calls == [] || (AllAccepted(calls[..|calls| - 1]) && Accepted(After(calls[..|calls| - 1]), calls[|calls| - 1]))
  }

  function After(calls: seq<Call>): Where {
    if calls == [] then START else Act(After(calls[..|calls| - 1]), calls[|calls| - 1])
  }

  // ---- labels -------------------------------------------------------------------------------------

  // Labels are distinct and short, and the current region is none or a known one; before the
  // first label, region 0 has no name yet.
  ghost predicate InOrder(w: Where) {
    && (forall i, j | 0 <= i < j < |w.labels| :: w.labels[i] != w.labels[j])
    && (forall i | 0 <= i < |w.labels| :: |w.labels[i]| <= MAXSIZE_LABEL)
    && |w.labels| <= MAXSIZE_REGION && -1 <= w.current
    && (if w.labels == [] then w.current <= 0 else w.current < |w.labels|)
  }

  lemma ActInOrder(w: Where, c: Call)
    requires InOrder(w) && Accepted(w, c)
    ensures InOrder(Act(w, c)) && w.labels <= Act(w, c).labels
  {
    var r := Named(w.labels, c.tag);
    if c.io == 1 && r < 0 {
      NamedLast(w.labels, c.tag);
    }
  }

  // Every call keeps the order, and only adds labels: an index means one label forever.
  lemma {:induction false} LabelsGrow(calls: seq<Call>, k: nat)
    requires AllAccepted(calls) && k <= |calls|
    ensures InOrder(After(calls)) && After(calls[..k]).labels <= After(calls).labels
  {
    hide InOrder, Act, Accepted;
    if k == |calls| {
      assert calls[..k] == calls;
    }
    if calls == [] {
      StartInOrder();
    } else {
      var n := |calls| - 1;
      LabelsGrow(calls[..n], if k > n then n else k);
      ActInOrder(After(calls[..n]), calls[n]);
      if k <= n {
        assert calls[..n][..k] == calls[..k];
      }
    }
  }

  lemma StartInOrder()
    ensures InOrder(START)
  {
  }

  // The rank is in no region exactly after an exit from a label nobody has entered.
  lemma {:induction false} LostIff(calls: seq<Call>)
    requires AllAccepted(calls)
    ensures After(calls).current == -1
      <==> calls != [] && calls[|calls| - 1].io == -1 && Cut(calls[|calls| - 1].tag) !in After(calls).labels
  {
    if calls != [] {
      var n := |calls| - 1;
      var w, c := After(calls[..n]), calls[n];
      assert Accepted(w, c);
      if c.io == 1 && Named(w.labels, c.tag) < 0 {
        assert (w.labels + [Cut(c.tag)])[|w.labels|] == Cut(c.tag);
      }
    }
  }

  // What one more call does, in terms of the labels known before it.  Entering a region makes it
  // current, whatever was current before; a new label goes behind the known ones.  Leaving a
  // known region leads to region 0, or while in no region into the region that is left; leaving
  // an unknown one leads nowhere.
  lemma CallLeads(calls: seq<Call>, c: Call)
    requires AllAccepted(calls + [c])
    ensures var w, w', tag := After(calls), After(calls + [c]), Cut(c.tag);
      && (c.io == 1 || c.io == -1)
      && w'.labels == (if c.io == 1 && tag !in w.labels then w.labels + [tag] else w.labels)
      && (c.io == 1 ==> 0 <= w'.current < |w'.labels| && w'.labels[w'.current] == tag)
      && (c.io == -1 && tag !in w.labels ==> w'.current == -1)
      && (c.io == -1 && tag in w.labels && w.current >= 0 ==> w'.current == 0)
      && (c.io == -1 && tag in w.labels && w.current < 0 ==>
            0 <= w'.current < |w'.labels| && w'.labels[w'.current] == tag)
  {
    hide AllAccepted, After, Cut, InOrder;
    AfterSnoc(calls, c);
    LabelsGrow(calls, 0);
    ActLeads(After(calls), c);
  }

  lemma ActLeads(w: Where, c: Call)
    requires InOrder(w) && Accepted(w, c)
    ensures var w', tag := Act(w, c), Cut(c.tag);
      && w'.labels == (if c.io == 1 && tag !in w.labels then w.labels + [tag] else w.labels)
      && (c.io == 1 ==> 0 <= w'.current < |w'.labels| && w'.labels[w'.current] == tag)
      && (c.io == -1 && tag !in w.labels ==> w'.current == -1)
      && (c.io == -1 && tag in w.labels && w.current >= 0 ==> w'.current == 0)
      && (c.io == -1 && tag in w.labels && w.current < 0 ==>
            0 <= w'.current < |w'.labels| && w'.labels[w'.current] == tag)
  {
    hide Cut;
    if c.io == 1 && Named(w.labels, c.tag) < 0 {
      NamedLast(w.labels, c.tag);
    }
  }

  // Where leaving a known region leads: to region 0, or while in no region into the region
  // that is left.
  lemma ExitLeads(w: Where, c: Call)
    requires c.io == -1 && Cut(c.tag) in w.labels
    ensures Act(w, c) == Where(w.labels, if w.current >= 0 then 0 else Named(w.labels, c.tag))
  {
  }

  // Entering a region and leaving it again leads back to where one was exactly when that was
  // region 0.
  lemma BackIff(w: Where, enter: Call, leave: Call)
    requires InOrder(w) && enter.io == 1 && leave.io == -1 && Cut(enter.tag) == Cut(leave.tag) && Accepted(w, enter)
    ensures Accepted(Act(w, enter), leave)
    ensures Act(Act(w, enter), leave).current == w.current <==> w.current == 0
  {
    SameNamed(Act(w, enter).labels, enter.tag, leave.tag);
    if Named(w.labels, enter.tag) < 0 {
      NamedLast(w.labels, enter.tag);
    }
  }

  lemma {:induction false} SameNamed(labels: seq<string>, a: string, b: string)
    requires Cut(a) == Cut(b)
    ensures Named(labels, a) == Named(labels, b)
  {
    hide Cut;
    if labels != [] {
      SameNamed(labels[..|labels| - 1], a, b);
    }
  }

  // So regions nest exactly one deep: after any history, a region entered and left leads back
  // exactly when the rank was in region 0.
  lemma NestingIff(calls: seq<Call>, enter: Call, leave: Call)
    requires enter.io == 1 && leave.io == -1 && Cut(enter.tag) == Cut(leave.tag)
    requires AllAccepted(calls + [enter])
    ensures AllAccepted(calls + [enter] + [leave])
    ensures After(calls + [enter] + [leave]).current == After(calls).current <==> After(calls).current == 0
  {
    hide Act, Accepted, InOrder, Cut, After, AllAccepted;
    AfterSnoc(calls, enter);
    AfterSnoc(calls + [enter], leave);
    LabelsGrow(calls, 0);
    BackIff(After(calls), enter, leave);
  }

  lemma AfterSnoc(calls: seq<Call>, c: Call)
    ensures After(calls + [c]) == Act(After(calls), c)
    ensures AllAccepted(calls + [c]) <==> AllAccepted(calls) && Accepted(After(calls), c)
  {
    assert (calls + [c])[..|calls|] == calls;
  }

  // A history in which it does not lead back: from an inner region to the outer one.
  lemma NestingForgotten()
    ensures var all, a := Call(1, "all", 0.0, 0.0), Call(1, "a", 0.0, 0.0);
      var b, x := Call(1, "b", 0.0, 0.0), Call(-1, "b", 0.0, 0.0);
      && AllAccepted([] + [all] + [a] + [b] + [x])
      && After([] + [all] + [a] + [b]) == Where(["all", "a", "b"], 2)
      && After([] + [all] + [a] + [b] + [x]) == Where(["all", "a", "b"], 0)
  {
    hide After, AllAccepted, Act, Accepted, Named, Cut;
    var all, a := Call(1, "all", 0.0, 0.0), Call(1, "a", 0.0, 0.0);
    var b, x := Call(1, "b", 0.0, 0.0), Call(-1, "b", 0.0, 0.0);
    var s1 := [] + [all];
    var s2 := s1 + [a];
    var s3 := s2 + [b];
    NothingYet();
    AfterSnoc([], all);
    AfterSnoc(s1, a);
    AfterSnoc(s2, b);
    AfterSnoc(s3, x);
    ShortLabels();
    NewLabel([], 0, all);
    NewLabel(["all"], 0, a);
    NewLabel(["all", "a"], 1, b);
    assert [] + ["all"] == ["all"] && ["all"] + ["a"] == ["all", "a"] && ["all", "a"] + ["b"] == ["all", "a", "b"];
    ExitLeads(Where(["all", "a", "b"], 2), x);
    ExitAccepted(Where(["all", "a", "b"], 2), x);
  }

  lemma ShortLabels()
    ensures Cut("all") == "all" && Cut("a") == "a" && Cut("b") == "b"
  {
  }

  lemma ExitAccepted(w: Where, c: Call)
    requires c.io == -1
    ensures Accepted(w, c)
  {
  }

  lemma NothingYet()
    ensures After([]) == START && AllAccepted([])
  {
  }

  lemma NewLabel(labels: seq<string>, current: int, c: Call)
    requires 0 <= current && |labels| < MAXSIZE_REGION && c.io == 1 && Cut(c.tag) !in labels
    ensures Act(Where(labels, current), c) == Where(labels + [Cut(c.tag)], |labels|)
    ensures Accepted(Where(labels, current), c)
  {
    NamedLast(labels, c.tag);
  }

  // ---- time ---------------------------------------------------------------------------------------

  // The time from leaving one call to entering the next, and where the rank was meanwhile.
  datatype Gap = Gap(region: int, length: real)

  function LastLeave(start: real, calls: seq<Call>): real {
    if calls == [] then start else calls[|calls| - 1].leave
  }

  function Gaps(start: real, calls: seq<Call>): (g: seq<Gap>)
    ensures |g| == |calls|
  {
    if calls == [] then []
    else
      var before, c := calls[..|calls| - 1], calls[|calls| - 1];
      Gaps(start, before) + [Gap(After(before).current, c.enter - LastLeave(start, before))]
  }

  function Time(gaps: seq<Gap>, r: int): real {
    if gaps == [] then 0.0
    else Time(gaps[..|gaps| - 1], r) + (if gaps[|gaps| - 1].region == r then gaps[|gaps| - 1].length else 0.0)
  }

  function Count(gaps: seq<Gap>, r: int): nat {
    if gaps == [] then 0
    else Count(gaps[..|gaps| - 1], r) + (if gaps[|gaps| - 1].region == r then 1 else 0)
  }

  function TotalTime(gaps: seq<Gap>): real {
    if gaps == [] then 0.0 else TotalTime(gaps[..|gaps| - 1]) + gaps[|gaps| - 1].length
  }

  // The time spent inside the calls themselves.
  function Inside(calls: seq<Call>): real {
    if calls == [] then 0.0
    else Inside(calls[..|calls| - 1]) + calls[|calls| - 1].leave - calls[|calls| - 1].enter
  }

  // The gaps and the calls together fill the time since the start.
  lemma {:induction false} GapsTelescope(start: real, calls: seq<Call>)
    ensures TotalTime(Gaps(start, calls)) + Inside(calls) == LastLeave(start, calls) - start
  {
    if calls != [] {
      var n := |calls| - 1;
      GapsTelescope(start, calls[..n]);
      assert Gaps(start, calls)[..n] == Gaps(start, calls[..n]);
    }
  }

  function TimeUpTo(gaps: seq<Gap>, n: nat): real {
    if n == 0 then 0.0 else TimeUpTo(gaps, n - 1) + Time(gaps, n - 1)
  }

  function CountUpTo(gaps: seq<Gap>, n: nat): nat {
    if n == 0 then 0 else CountUpTo(gaps, n - 1) + Count(gaps, n - 1)
  }

  lemma {:induction false} UpToSnoc(gaps: seq<Gap>, g: Gap, n: nat)
    ensures TimeUpTo(gaps + [g], n) == TimeUpTo(gaps, n) + (if 0 <= g.region < n then g.length else 0.0)
    ensures CountUpTo(gaps + [g], n) == CountUpTo(gaps, n) + (if 0 <= g.region < n then 1 else 0)
  {
    if n > 0 {
      UpToSnoc(gaps, g, n - 1);
      SnocGap(gaps, g, n - 1);
    }
  }

  lemma SnocGap(gaps: seq<Gap>, g: Gap, r: int)
    ensures Time(gaps + [g], r) == Time(gaps, r) + (if g.region == r then g.length else 0.0)
    ensures Count(gaps + [g], r) == Count(gaps, r) + (if g.region == r then 1 else 0)
    ensures TotalTime(gaps + [g]) == TotalTime(gaps) + g.length
  {
    assert (gaps + [g])[..|gaps|] == gaps;
  }

  lemma {:induction false} UpToEmpty(n: nat)
    ensures TimeUpTo([], n) == 0.0 && CountUpTo([], n) == 0
  {
    if n > 0 {
      UpToEmpty(n - 1);
    }
  }

  // Every gap is in one region, or in none.
  lemma {:induction false} Shared(gaps: seq<Gap>, n: nat)
    requires forall k | 0 <= k < |gaps| :: -1 <= gaps[k].region < n
    ensures TimeUpTo(gaps, n) + Time(gaps, -1) == TotalTime(gaps)
    ensures CountUpTo(gaps, n) + Count(gaps, -1) == |gaps|
  {
    hide Time, Count, TotalTime, TimeUpTo, CountUpTo;
    if gaps == [] {
      NoGaps(n);
    } else {
      var m := |gaps| - 1;
      var before, g := gaps[..m], gaps[m];
      Shared(before, n);
      UpToSnoc(before, g, n);
      SnocGap(before, g, -1);
      assert gaps == before + [g];
    }
  }

  lemma NoGaps(n: nat)
    ensures TimeUpTo([], n) == 0.0 && CountUpTo([], n) == 0 && Time([], -1) == 0.0 && Count([], -1) == 0
    ensures TotalTime([]) == 0.0
  {
    UpToEmpty(n);
  }

  lemma {:induction false} GapRegions(start: real, calls: seq<Call>, k: nat)
    requires AllAccepted(calls) && k < |calls|
    ensures -1 <= Gaps(start, calls)[k].region < MAXSIZE_REGION
  {
    var m := |calls| - 1;
    LabelsGrow(calls[..m], 0);
    if k < m {
      GapRegions(start, calls[..m], k);
    }
  }

  // A gap belongs to the region the rank was in when it entered the call that ends it.
  lemma {:induction false} GapIs(start: real, calls: seq<Call>, k: nat)
    requires k < |calls|
    ensures Gaps(start, calls)[k]
         == Gap(After(calls[..k]).current, calls[k].enter - (if k == 0 then start else calls[k - 1].leave))
  {
    hide After;
    var m := |calls| - 1;
    if k < m {
      GapIs(start, calls[..m], k);
      assert calls[..m][..k] == calls[..k];
    }
  }

  // Summed over all regions, the times are all the time since the start but what was spent in
  // no region, and the counts are the gaps spent in a region.
  lemma RegionsShareTime(start: real, calls: seq<Call>)
    requires AllAccepted(calls)
    ensures TimeUpTo(Gaps(start, calls), MAXSIZE_REGION) + Time(Gaps(start, calls), -1) + Inside(calls)
         == LastLeave(start, calls) - start
    ensures CountUpTo(Gaps(start, calls), MAXSIZE_REGION) + Count(Gaps(start, calls), -1) == |calls|
  {
    hide Time, Count, TotalTime, TimeUpTo, CountUpTo, Gaps, Inside, AllAccepted;
    forall k | 0 <= k < |calls|
      ensures -1 <= Gaps(start, calls)[k].region < MAXSIZE_REGION
    {
      GapRegions(start, calls, k);
    }
    Shared(Gaps(start, calls), MAXSIZE_REGION);
    GapsTelescope(start, calls);
  }

  // ---- a rank's record ----------------------------------------------------------------------------

  class Task {
    const names: array<string>
    var nregion: nat
    var current: int
    const wtime: array<real>
    const count: array<nat>
    var wtimeInit: real
    ghost const start: real
    ghost var calls: seq<Call>

    ghost predicate Valid()
      reads this, names, wtime, count
    {
      && names.Length == wtime.Length == count.Length == MAXSIZE_REGION
      && AllAccepted(calls)
      && nregion <= MAXSIZE_REGION && Where(names[..nregion], current) == After(calls)
      && wtimeInit == LastLeave(start, calls)
      && (forall r | 0 <= r < MAXSIZE_REGION :: wtime[r] == Time(Gaps(start, calls), r))
      && (forall r | 0 <= r < MAXSIZE_REGION :: count[r] == Count(Gaps(start, calls), r))
    }

    constructor (now: real)
      ensures Valid() && calls == [] && start == now && fresh(names) && fresh(wtime) && fresh(count)
    {
      names := new string[MAXSIZE_REGION](_ => "");
      wtime := new real[MAXSIZE_REGION](_ => 0.0);
      count := new nat[MAXSIZE_REGION](_ => 0);
      nregion, current := 0, 0;
      wtimeInit := now;
      start := now;
      calls := [];
    }

    // Looks through all labels; the last that fits counts.
    method Lookup(tag: string) returns (region: int)
      requires nregion <= names.Length
      ensures region == Named(names[..nregion], tag)
    {
      region := -1;
      for i := 0 to nregion
        invariant region == Named(names[..i], tag)
      {
        assert names[..i + 1][..i] == names[..i];
        if Cut(tag) == names[i] {
          region := i;
        }
      }
    }

    // Charges the time since the last call to the current region, if there is one.
    method Charge(enter: real)
      requires wtime.Length == count.Length == MAXSIZE_REGION && current < MAXSIZE_REGION
      modifies wtime, count
      ensures forall r | 0 <= r < MAXSIZE_REGION ::
        && wtime[r] == old(wtime[r]) + (if r == current then enter - wtimeInit else 0.0)
        && count[r] == old(count[r]) + (if r == current then 1 else 0)
    {
      if current >= 0 {
        wtime[current] := wtime[current] + (enter - wtimeInit);
        count[current] := count[current] + 1;
      }
    }

    // The region to act on, registering a label that is entered for the first time.
    method Register(io: int, tag: string) returns (ok: bool, region: int)
      requires Valid()
      modifies this`nregion, names
      ensures nregion <= MAXSIZE_REGION
      ensures ok <==> !(io == 1 && Named(After(calls).labels, tag) < 0 && |After(calls).labels| >= MAXSIZE_REGION)
      ensures ok ==>
        && names[..nregion] == (if io == 1 && Named(After(calls).labels, tag) < 0 then After(calls).labels + [Cut(tag)]
                                else After(calls).labels)
        && region == Named(names[..nregion], tag)
    {
      hide Cut, Gaps, Time, Count, After, AllAccepted, LastLeave;
      assert names[..nregion] == After(calls).labels;
      region := Lookup(tag);
      if region < 0 && io == 1 {
        if nregion < MAXSIZE_REGION {
          NamedLast(names[..nregion], tag);
          region := nregion;
          names[region] := Cut(tag);
          nregion := nregion + 1;
          assert names[..nregion] == After(calls).labels + [Cut(tag)];
        } else {
          return false, region;
        }
      }
      return true, region;
    }

    // ok is false when the call ends the program.
    method Region(io: int, tag: string, enter: real, leave: real) returns (ok: bool)
      requires Valid()
      modifies this, names, wtime, count
      ensures ok <==> Accepted(After(old(calls)), Call(io, tag, enter, leave))
      ensures ok <==>
        io == -1 || (io == 1 && (Cut(tag) in After(old(calls)).labels || |After(old(calls)).labels| < 255))
      ensures ok ==> Valid() && calls == old(calls) + [Call(io, tag, enter, leave)]
      // the time since the last call goes to the region that was current
      ensures ok ==> wtimeInit == leave && forall r | 0 <= r < MAXSIZE_REGION ::
        && wtime[r] == old(wtime[r]) + (if r == old(current) then enter - old(wtimeInit) else 0.0)
        && count[r] == old(count[r]) + (if r == old(current) then 1 else 0)
      // and the region entered becomes current
      ensures ok && io == 1 ==> 0 <= current < nregion <= names.Length && names[current] == Cut(tag)
    {
      hide Named, Cut, Gaps, Time, Count, After, AllAccepted, LastLeave, InOrder;
      ghost var c := Call(io, tag, enter, leave);
      ghost var before := calls;
      KnownRegion(before);
      OneMoreCall(start, before, c);
      assert current == After(before).current;
      var region;
      ok, region := Register(io, tag);
      if !ok {
        return;
      }
      if io != 1 && io != -1 {
        return false;
      }
      Charge(enter);
      if current >= 0 {
        current := if (region > 0 && io == -1) || (region == 0 && io == 1) then 0 else region;
      } else {
        current := region;
      }
      wtimeInit := leave;
      calls := before + [c];
      CallLeads(before, c);
    }
  }

  lemma KnownRegion(calls: seq<Call>)
    requires AllAccepted(calls)
    ensures -1 <= After(calls).current < MAXSIZE_REGION
  {
    LabelsGrow(calls, 0);
  }

  lemma NamedLast(labels: seq<string>, tag: string)
    ensures Named(labels + [Cut(tag)], tag) == |labels|
  {
  }

  lemma GapsSnoc(start: real, before: seq<Call>, c: Call)
    ensures LastLeave(start, before + [c]) == c.leave
    ensures Gaps(start, before + [c])
         == Gaps(start, before) + [Gap(After(before).current, c.enter - LastLeave(start, before))]
  {
    hide After;
    assert (before + [c])[..|before|] == before;
  }

  lemma OneMoreCall(start: real, before: seq<Call>, c: Call)
    ensures var calls := before + [c];
      && After(calls) == Act(After(before), c) && LastLeave(start, calls) == c.leave
      && (AllAccepted(calls) <==> AllAccepted(before) && Accepted(After(before), c))
      && (forall r: int ::
            && Time(Gaps(start, calls), r)
               == Time(Gaps(start, before), r)
                + (if r == After(before).current then c.enter - LastLeave(start, before) else 0.0)
            && Count(Gaps(start, calls), r)
               == Count(Gaps(start, before), r) + (if r == After(before).current then 1 else 0))
  {
    hide Act, Accepted, Time, Count, Gaps, After, AllAccepted, LastLeave;
    var g := Gap(After(before).current, c.enter - LastLeave(start, before));
    AfterSnoc(before, c);
    GapsSnoc(start, before, c);
    forall r: int
      ensures Time(Gaps(start, before) + [g], r)
           == Time(Gaps(start, before), r) + (if r == g.region then g.length else 0.0)
      ensures Count(Gaps(start, before) + [g], r) == Count(Gaps(start, before), r) + (if r == g.region then 1 else 0)
    {
      SnocGap(Gaps(start, before), g, r);
    }
  }

  // The wtime array summed: everything but the time in no region and inside the calls.
  lemma {:induction false} WtimeTotal(t: Task, n: nat)
    requires t.Valid() && n <= MAXSIZE_REGION
    ensures Sum(t.wtime[..n]) == TimeUpTo(Gaps(t.start, t.calls), n)
  {
    hide Gaps, Time, Count, After, AllAccepted, LastLeave;
    if n > 0 {
      WtimeTotal(t, n - 1);
      assert t.wtime[..n][..n - 1] == t.wtime[..n - 1];
    }
  }

  lemma WtimeIsElapsed(t: Task)
    requires t.Valid()
    ensures Sum(t.wtime[..]) + Time(Gaps(t.start, t.calls), -1) + Inside(t.calls) == t.wtimeInit - t.start
  {
    WtimeTotal(t, MAXSIZE_REGION);
    assert t.wtime[..] == t.wtime[..MAXSIZE_REGION];
    RegionsShareTime(t.start, t.calls);
  }
}
