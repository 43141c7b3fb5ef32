// The event hash table: the key and hash macros of include/ipm.h and ipm_hash_cull of
// src/ipm_util.c, which call each other.
module EventTable {
  import opened Bits
  import opened KeyMacros
  import opened KeyCodec
  import opened Probing
  import opened EventStats
  import opened TableSpec

  class Task {
    const maxHash: nat      // MAXSIZE_HASH
    const hashLimit: nat    // MAXSIZE_HASHLIMIT
    const ncalls: nat       // MAXSIZE_CALLS
    const hash: array<HashEnt>
    const callMask: array<nat>
    const callCount: array2<nat>
    const callTime: array2<real>
    const regionMtime: array<real>
    var mtime: real
    var hashNkey: nat
    var hashNlog: nat
    var collisions: nat

    // The precision steps taken by each call's mask word, its flag bits, and everything
    // logged since the table was cleared.
    ghost var drops: seq<nat>
    ghost var flags: seq<nat>
    ghost var log: seq<Event>

    // The build's sizes; the arrays are distinct.
    ghost predicate Shape() {
      && 0 < hashLimit < maxHash && 3 <= maxHash && IsPrime(maxHash)
      && 1 <= ncalls < 0x100
      && hash.Length == maxHash + 1
      && callMask.Length == ncalls + 1
      && callCount.Length0 == callTime.Length0 == MAXSIZE_REGION
      && callCount.Length1 == callTime.Length1 == ncalls + 1
      && regionMtime.Length == MAXSIZE_REGION
      && callCount as object != callTime as object
      && hash as object != callMask as object
    }

    ghost predicate Valid()
      reads this, hash, callMask
    {
      && Shape()
      && TableOk(hash[..], maxHash, ncalls)
      && |Occupied(hash[..])| == hashNkey
      && |drops| == ncalls + 1
      && MasksOk(callMask[..], flags, drops)
    }

    ghost predicate EventOk(e: Event) {
      InRange(0, e.call, e.rank, e.bytes) && -1 <= e.region < MAXSIZE_REGION && 1 <= e.call <= ncalls
    }

    // Every total the table can still resolve equals that total over the events logged.
    ghost predicate Conserved()
      reads this, hash
    {
      && hashNlog == |log|
      && (forall e | e in log :: EventOk(e))
      && Accounts(hash[..], log, drops)
    }

    // The table is the dictionary of the events logged, each key on its own probe path.
    ghost predicate Refined()
      reads this, hash
      requires Shape() && |drops| == ncalls + 1
    {
      && (forall e | e in log :: EventOk(e))
      && Canonical(hash[..], maxHash)
      && Represents(hash[..], Dictionary(log, drops))
    }

    // The process exited because some call that had its share of the entries of a table at its
    // limit has no bit left.
    ghost predicate Exhausted(t: seq<HashEnt>)
      reads this
    {
      |drops| == ncalls + 1 && SpentBy(t, drops, hashLimit)
    }

    // ipm_init_task: an empty table, every call at full precision.
    constructor (maxHash: nat, hashLimit: nat, ncalls: nat)
      requires 0 < hashLimit < maxHash && 3 <= maxHash && IsPrime(maxHash) && 1 <= ncalls < 0x100
      ensures Valid() && Conserved() && Refined() && AllSound(hash[..])
      ensures this.maxHash == maxHash && this.hashLimit == hashLimit && this.ncalls == ncalls
      ensures log == [] && hashNkey == 0 && hashNlog == 0 && mtime == 0.0
      ensures forall r | 0 <= r < MAXSIZE_REGION :: regionMtime[r] == 0.0
      ensures fresh(hash) && fresh(callMask) && fresh(callCount) && fresh(callTime) && fresh(regionMtime)
    {
      this.maxHash, this.hashLimit, this.ncalls := maxHash, hashLimit, ncalls;
      hash := new HashEnt[maxHash + 1](_ => EMPTY);
      callMask := new nat[ncalls + 1](_ => CALL_MASK_BPREC);
      callCount := new nat[MAXSIZE_REGION, ncalls + 1]((_, _) => 0);
      callTime := new real[MAXSIZE_REGION, ncalls + 1]((_, _) => 0.0);
      regionMtime := new real[MAXSIZE_REGION](_ => 0.0);
      hashNkey, hashNlog, collisions, mtime := 0, 0, 0, 0.0;
      drops := seq(ncalls + 1, _ => 0);
      flags := seq(ncalls + 1, _ => 0);
      log := [];
      new;
      ClearedValid();
      FullPrecision();
      forall sel: Selection
        ensures Fold(hash[..], sel) == FoldLog(log, sel)
      {
        FoldCleared(hash[..], sel);
      }
    }

    lemma FullPrecision()
      ensures MaskWord(0, 0) == CALL_MASK_BPREC
    {
      Pow2Table();
    }

    // IPM_MPI_KEY at the current precision.
    method MakeKey(region: int, call: nat, rank: int, size: nat) returns (key: nat)
      requires Valid() && InRange(0, call, rank, size) && 1 <= call <= ncalls
      ensures key == Pack(RegionByte(region), call, rank, RoundDown(size, drops[call]))
      ensures KeyOk(key, ncalls)
    {
      key := MpiKey(callMask[call], region, call, rank, size);
      EncoderPacks(flags[call], drops[call], region, call, rank, size);
      assert callMask[..][call] == callMask[call];
      Unpack(RegionByte(region), call, rank, RoundDown(size, drops[call]));
    }

    // Merging counters into the entry at hkey, one field after the other.
    method Bump(hkey: nat, x: Stats)
      requires hkey < hash.Length
      modifies hash
      ensures hash[..] == old(hash[..])[hkey := HashEnt(old(hash[hkey].key), Merge(old(hash[hkey].stats), x))]
    {
      var e := hash[hkey];
      e := e.(stats := e.stats.(count := e.stats.count + x.count));
      e := e.(stats := e.stats.(total := e.stats.total + x.total));
      if x.tmax > e.stats.tmax {
        e := e.(stats := e.stats.(tmax := x.tmax));
      }
      if x.tmin < e.stats.tmin {
        e := e.(stats := e.stats.(tmin := x.tmin));
      }
      hash[hkey] := e;
    }

    // IPM_HASH_HKEY: the slot of a key, inserting it with fresh counters when it is new.
    // A collision in a table at its limit culls the table in the middle of the probe.
    // The result is false when that cull ran out of precision and the process exited.
    method HashHKey(fkey: nat) returns (hkey: nat, ok: bool)
      requires Valid() && KeyOk(fkey, ncalls)
      modifies this`hashNkey, this`collisions, this`drops, hash, callMask, callCount, callTime
      ensures !ok ==> Exhausted(old(hash[..])) && old(hashNkey) >= hashLimit
      ensures ok ==> Valid() && hkey < maxHash && hash[hkey].key == fkey
      ensures ok ==> hashNkey <= old(hashNkey) + 1
      ensures ok ==> Coarser(old(drops), drops) && BitsLeft(drops) <= old(BitsLeft(drops))
      ensures ok ==> SameTotals(old(hash[..]), hash[..], drops)
      ensures ok && old(AllSound(hash[..])) ==> SoundBut(hash[..], hkey)
      ensures ok ==> WithinBut(hash[..], hkey, drops, old(hash[..]), old(drops), hashLimit)
      ensures old(hashNkey) < hashLimit ==> ok && drops == old(drops)
      ensures old(hashNkey) <= hashLimit && Eases(old(hash[..]), old(drops), hashLimit) ==>
        ok && (drops == old(drops) || exists call :: StepAt(old(hash[..]), call, old(drops), drops))
      ensures ok && drops == old(drops) ==>
        Found(maxHash, old(hash[..]), hash[..], fkey, hkey, collisions)
      decreases BitsLeft(drops), 1
    {
      hide Probe, Probed, Found, SameTotals, BitsLeft, Coarser, AllSound, SoundBut, Sound, Within, WithinBut;
      hide TableOk, MasksOk, Occupied, CulledOnce, Eases, StepAt, SpentBy, IsPrime;
      TableFacts(hash[..]);
      ok := true;
      collisions := 0;
      hkey := fkey % maxHash;
      ghost var base: nat, t0, d0 := 0, hash[..], drops;
      ProbedStart(maxHash, hashLimit, t0, d0, fkey);
      while hash[hkey].key != fkey
        invariant ok && Valid() && hkey < maxHash < hash.Length
        invariant base <= collisions <= base + maxHash && BitsLeft(drops) <= BitsLeft(d0)
        invariant Probed(maxHash, hashLimit, t0, d0, hash[..], drops, fkey, hkey, collisions, base)
        decreases BitsLeft(drops), base + maxHash - collisions, if hash[hkey].key == fkey then 0 else 1
      {
        ghost var t, d, c := hash[..], drops, collisions;
        if hash[hkey].key == 0 {
          ProbedInsert(maxHash, hashLimit, t0, d0, t, d, fkey, hkey, c, base);
          InsertedOk(t, hkey, fkey);
          hash[hkey] := HashEnt(fkey, FRESH);
          hashNkey := hashNkey + 1;
          assert hash[..] == t[hkey := HashEnt(fkey, FRESH)];
        } else {
          if hashNkey >= hashLimit {
            ProbedStuck(maxHash, hashLimit, t0, d0, t, d, fkey, hkey, c, base);
            CullFits(t);
            ok := HashCull();
            if !ok {
              ProbedSpent(maxHash, hashLimit, t0, d0, t, d, fkey, hkey, c, base, drops);
              return;
            }
            ProbedCull(maxHash, hashLimit, t0, d0, t, d, fkey, hkey, c, base, hash[..], drops, collisions);
            base := collisions + 1;
          } else {
            ProbedAdvance(maxHash, hashLimit, t0, d0, t, d, fkey, hkey, c, base);
          }
          collisions := collisions + 1;
          hkey := Probe(maxHash, fkey, collisions);
        }
      }
      ProbedDone(maxHash, hashLimit, t0, d0, hash[..], drops, fkey, hkey, collisions, base);
    }

    lemma CullFits(t: seq<HashEnt>)
      requires Shape() && TableOk(t, maxHash, ncalls)
      ensures forall i | 0 <= i < |t| && t[i].key != 0 :: KeyOk(t[i].key, ncalls)
    {
    }

    lemma TableFacts(t: seq<HashEnt>)
      requires Shape() && TableOk(t, maxHash, ncalls)
      ensures |t| == maxHash + 1
    {
    }

    lemma InsertedOk(t: seq<HashEnt>, hkey: nat, fkey: nat)
      requires Shape() && TableOk(t, maxHash, ncalls) && hkey < maxHash && t[hkey].key == 0 && KeyOk(fkey, ncalls)
      ensures var u := t[hkey := HashEnt(fkey, FRESH)];
        TableOk(u, maxHash, ncalls) && |Occupied(u)| == |Occupied(t)| + 1
    {
      OccupiedInsert(t, hkey, HashEnt(fkey, FRESH));
    }

    // The scan at the start of ipm_hash_cull: count every call's entries in the scratch
    // rows and pick the first call with the most.
    method DensestCall() returns (call: nat)
      requires Valid() && hashNkey > 0
      modifies callCount, callTime
      ensures Densest(hash[..], call, ncalls)
    {
      hide TableOk, MasksOk;
      ClearScratch();
      for i := 0 to maxHash + 1
        invariant forall c | 1 <= c <= ncalls :: callCount[0, c] == Density(hash[..i], c)
      {
        CallBound(i);
        var icall := KeyCall(hash[i].key);
        callTime[0, icall] := callTime[0, icall] + hash[i].stats.total;
        callCount[0, icall] := callCount[0, icall] + 1;
        assert hash[..i + 1][..i] == hash[..i];
      }
      assert hash[..maxHash + 1] == hash[..];
      var most := 0;
      call := 0;
      for i := 1 to ncalls + 1
        invariant forall c | 1 <= c < i :: Density(hash[..], c) <= most
        invariant call < i && (if call == 0 then most == 0 else most == Density(hash[..], call) > 0)
        invariant forall c | 1 <= c < call :: Density(hash[..], c) < most
      {
        if callCount[0, i] > most {
          most := callCount[0, i];
          call := i;
        }
      }
      SomeDensity();
    }

    method ClearScratch()
      requires Shape()
      modifies callCount, callTime
      ensures forall j, c | 0 <= j < MAXSIZE_REGION && 1 <= c <= ncalls ::
        callCount[j, c] == 0 && callTime[j, c] == 0.0
    {
      for j := 0 to MAXSIZE_REGION
        invariant forall k, c | 0 <= k < j && 1 <= c <= ncalls :: callCount[k, c] == 0 && callTime[k, c] == 0.0
      {
        for i := 1 to ncalls + 1
          invariant forall k, c | 0 <= k < j && 1 <= c <= ncalls :: callCount[k, c] == 0 && callTime[k, c] == 0.0
          invariant forall c | 1 <= c < i :: callCount[j, c] == 0 && callTime[j, c] == 0.0
        {
          callCount[j, i] := 0;
          callTime[j, i] := 0.0;
        }
      }
    }

    lemma CallBound(i: nat)
      requires Valid() && i < hash.Length
      ensures KeyCall(hash[i].key) <= ncalls
    {
      assert hash[..][i] == hash[i];
      assert KeyCall(0) == 0;
    }

    lemma SomeDensity()
      requires Valid() && hashNkey > 0
      ensures exists c | 1 <= c <= ncalls :: Density(hash[..], c) > 0
    {
      var i :| i in Occupied(hash[..]);
      DensityPositive(hash[..], i);
    }

    // IPM_HASH_CLEAR on the table.
    method ClearHash()
      modifies hash
      ensures forall i | 0 <= i < hash.Length :: hash[i] == EMPTY
    {
      for i := 0 to hash.Length
        invariant forall j | 0 <= j < i :: hash[j] == EMPTY
      {
        hash[i] := EMPTY;
      }
    }

    // CALL_BUF_PRECISION_DOWN and the underflow test behind it.
    method StepPrecision(call: nat) returns (ok: bool)
      requires Shape() && |drops| == ncalls + 1 && MasksOk(callMask[..], flags, drops) && 1 <= call <= ncalls
      modifies this`drops, callMask
      ensures drops == old(drops)[call := old(drops)[call] + 1]
      ensures ok <==> drops[call] < PRECISION_BITS
      ensures ok ==> MasksOk(callMask[..], flags, drops)
    {
      assert callMask[..][call] == callMask[call];
      StepDown(flags[call], drops[call]);
      callMask[call] := PrecisionDown(callMask[call]);
      drops := drops[call := drops[call] + 1];
      ok := And(callMask[call], CALL_MASK_BPREC) != 0;
      assert callMask[..] == old(callMask[..])[call := callMask[call]];
    }

    // ipm_hash_cull: halve the size precision of the densest call, clear the table and put
    // every saved entry back under its new key.  Putting entries back may cull again, but not
    // when there is room.  A cull without such culls fails exactly when the densest call is at
    // its last bit, and any cull only when some call with its share of the entries is.
    method HashCull() returns (ok: bool)
      requires Valid() && hashNkey >= hashLimit
      modifies this`hashNkey, this`collisions, this`drops, hash, callMask, callCount, callTime
      ensures !ok ==> Exhausted(old(hash[..]))
      ensures ok ==> Valid() && hashNkey <= old(hashNkey)
      ensures ok ==> Coarser(old(drops), drops) && BitsLeft(drops) < old(BitsLeft(drops))
      ensures ok ==> SameTotals(old(hash[..]), hash[..], drops)
      ensures ok && old(AllSound(hash[..])) ==> AllSound(hash[..])
      ensures ok ==> Within(hash[..], drops, old(hash[..]), old(drops), hashLimit)
      ensures ok ==>
        exists call :: Densest(old(hash[..]), call, ncalls) && CulledAt(call, old(drops), drops, old(hashNkey))
      ensures ok ==> CulledOnce(maxHash, old(hash[..]), old(drops), hash[..], drops, hashLimit)
      ensures exists call, d1 :: StepAt(old(hash[..]), call, old(drops), d1)
      ensures forall call, d1 | StepAt(old(hash[..]), call, old(drops), d1) ::
        && (d1[call] == PRECISION_BITS ==> !ok)
        && (d1[call] < PRECISION_BITS && Roomy(old(hash[..]), d1, hashLimit) ==> ok)
      ensures old(hashNkey) <= hashLimit && (forall c | 1 <= c <= ncalls :: old(drops[c]) + 1 < PRECISION_BITS) ==> ok
      decreases BitsLeft(drops), 0
    {
      hide Restored, SameTotals, BitsLeft, Coarser, AllSound, SoundBut, Sound, Density, Recoded, WithinBut;
      hide TableOk, Occupied, Fold, IsPrime, CulledAt, Canonical, Represents, Regrouped, Roomy, SpentBy, CulledOnce;
      TableFacts(hash[..]);
      CullFits(hash[..]);
      var call := DensestCall();
      var saved := hash[..];
      ghost var d0 := drops;
      DensestHeavy(saved, call, ncalls, hashLimit);
      ClearHash();
      hashNkey := 0;
      BitsLeftStep(d0, call);
      ok := StepPrecision(call);
      ghost var d1 := drops;
      StepOnly(saved, call, d0, d1);
      RoomyFew(saved, d1, hashLimit);
      if !ok {
        SpentNow(saved, call, d1);
        return;
      }
      RestoredStart(maxHash, saved, d1, hashLimit, hash[..]);
      ClearedValid();
      for i := 0 to maxHash + 1
        invariant ok && Valid() && Restored(maxHash, saved, i, d1, hashLimit, hash[..], drops)
        invariant BitsLeft(drops) <= BitsLeft(d1)
      {
        ok := PutBack(saved, i, d1);
        if !ok {
          return;
        }
      }
      RestoredDone(maxHash, saved, d1, hashLimit, hash[..], drops);
      CullCoarser(call, d0, d1, drops, |Occupied(saved)|);
      StepWithin(hash[..], drops, saved, d0, call, hashLimit);
      OnceDone(saved, call, d0, d1);
    }

    // There is one step to take.
    lemma StepOnly(saved: seq<HashEnt>, call: nat, d0: seq<nat>, d1: seq<nat>)
      requires Shape() && |d0| == ncalls + 1 && Densest(saved, call, ncalls) && d1 == d0[call := d0[call] + 1]
      ensures StepAt(saved, call, d0, d1)
      ensures forall c, d | StepAt(saved, c, d0, d) :: c == call && d == d1
    {
      hide Densest;
      forall c, d | StepAt(saved, c, d0, d)
        ensures c == call && d == d1
      {
        OneDensest(saved, c, call, ncalls);
      }
    }

    lemma SpentNow(saved: seq<HashEnt>, call: nat, d: seq<nat>)
      requires |d| == ncalls + 1 && call < |d| && d[call] == PRECISION_BITS && Heavy(saved, call, ncalls, hashLimit)
      ensures SpentBy(saved, d, hashLimit)
    {
      hide Density;
    }

    lemma OnceDone(saved: seq<HashEnt>, call: nat, d0: seq<nat>, d1: seq<nat>)
      requires Shape() && hash.Length == maxHash + 1
      requires forall c, d | StepAt(saved, c, d0, d) :: c == call && d == d1
      requires Roomy(saved, d1, hashLimit) ==>
        drops == d1 && Canonical(hash[..], maxHash) && Represents(hash[..], Regrouped(saved, d1))
      ensures CulledOnce(maxHash, saved, d0, hash[..], drops, hashLimit)
    {
      hide StepAt, Roomy, Canonical, Represents, Regrouped;
    }

    // Re-inserting one saved entry.
    method PutBack(saved: seq<HashEnt>, i: nat, ghost d1: seq<nat>) returns (ok: bool)
      requires Valid() && i < |saved| && TableOk(saved, maxHash, ncalls)
      requires Restored(maxHash, saved, i, d1, hashLimit, hash[..], drops)
      modifies this`hashNkey, this`collisions, this`drops, hash, callMask, callCount, callTime
      ensures !ok ==> Exhausted(saved) && !Roomy(saved, d1, hashLimit)
      ensures ok ==> Valid() && Restored(maxHash, saved, i + 1, d1, hashLimit, hash[..], drops)
      ensures ok ==> BitsLeft(drops) <= old(BitsLeft(drops))
      decreases BitsLeft(drops), 2
    {
      hide Restored, SameTotals, BitsLeft, Coarser, AllSound, SoundBut, Sound, Found, WithinBut, Roomy, SpentBy, Eases;
      ok := true;
      if saved[i].key != 0 {
        ghost var t, d := hash[..], drops;
        FieldsInRange(saved[i].key);
        SmallByte(KeyRegion(saved[i].key));
        var ireg, icall := KeyRegion(saved[i].key), KeyCall(saved[i].key);
        var irank, ibyte := KeyRank(saved[i].key), KeyByte(saved[i].key);
        var key := MakeKey(ireg, icall, irank, ibyte);
        var hkey;
        hkey, ok := HashHKey(key);
        if !ok {
          RestoredSpent(maxHash, saved, i, d1, hashLimit, t, d, drops);
          return;
        }
        ghost var u := hash[..];
        RestoredMerge(maxHash, saved, i, d1, hashLimit, t, d, u, drops, hkey, collisions);
        Bump(hkey, saved[i].stats);
        KeyedUpdate(u, hkey, saved[i].stats);
      } else {
        RestoredSkip(maxHash, saved, i, d1, hashLimit, hash[..], drops);
      }
    }

    // Changing an entry's counters keeps the table's keys.
    lemma KeyedUpdate(u: seq<HashEnt>, hkey: nat, x: Stats)
      requires Shape() && TableOk(u, maxHash, ncalls) && hkey < |u| && u[hkey].key != 0
      ensures var v := u[hkey := HashEnt(u[hkey].key, Merge(u[hkey].stats, x))];
        TableOk(v, maxHash, ncalls) && |Occupied(v)| == |Occupied(u)|
    {
      OccupiedInsert(u, hkey, HashEnt(u[hkey].key, Merge(u[hkey].stats, x)));
    }

    lemma ClearedValid()
      requires Shape() && forall i | 0 <= i < hash.Length :: hash[i] == EMPTY
      ensures TableOk(hash[..], maxHash, ncalls) && |Occupied(hash[..])| == 0
    {
      assert Occupied(hash[..]) == {};
    }

    lemma CullCoarser(call: nat, d0: seq<nat>, d1: seq<nat>, d: seq<nat>, nkey: nat)
      requires call < |d0| && d1 == d0[call := d0[call] + 1] && Coarser(d1, d)
      requires nkey <= hashLimit ==> d == d1
      ensures Coarser(d0, d) && CulledAt(call, d0, d, nkey)
    {
    }

    // IPM_LOG_MPIEVENT
    method LogMpiEvent(e: Event) returns (ok: bool)
      requires Valid() && Conserved() && EventOk(e)
      modifies this`hashNkey, this`hashNlog, this`collisions, this`drops, this`log
      modifies hash, callMask, callCount, callTime
      ensures !ok ==> Exhausted(old(hash[..])) && old(hashNkey) >= hashLimit
      ensures ok ==> Valid() && Conserved() && log == old(log) + [e]
      ensures ok && WallOk(e.wall) && old(AllSound(hash[..])) ==> AllSound(hash[..])
      ensures ok ==> Coarser(old(drops), drops)
      ensures ok ==> forall c: nat | c < |drops| && drops[c] != old(drops)[c] ::
        Heavy(old(hash[..]), c, ncalls, hashLimit) && HasCall(old(hash[..]), c)
      ensures old(hashNkey) < hashLimit ==> ok && drops == old(drops)
      ensures old(hashNkey) <= hashLimit && Eases(old(hash[..]), old(drops), hashLimit) ==>
        ok && (drops == old(drops) || exists call :: StepAt(old(hash[..]), call, old(drops), drops))
      ensures ok && drops == old(drops) && old(Refined()) ==> Refined()
    {
      hide HasCall, SameTotals, Accounts, BitsLeft, AllSound, SoundBut;
      hide Sound, Found, Canonical, Represents, Dictionary, Pack;
      hide TableOk, MasksOk, Occupied, IsPrime, Merge, Density, Heavy, Eases, StepAt, SpentBy;
      hashNlog := hashNlog + 1;
      ghost var t0, d0 := hash[..], drops;
      var key := MakeKey(e.region, e.call, e.rank, e.bytes);
      assert key == EventKey(e, d0);
      var hkey;
      hkey, ok := HashHKey(key);
      if !ok {
        return;
      }
      ghost var t := hash[..];
      LostHeavy(t0, t, hkey, d0);
      EventKeyNonZero(e, d0);
      Bump(hkey, Once(e.wall));
      KeyedUpdate(t, hkey, Once(e.wall));
      AccountsOn(t0, t, log, d0, drops);
      LogAccounts(t, hkey, log, e, d0, drops);
      SoundUpdate(t, hkey, e.wall);
      if drops == d0 && Canonical(t0, maxHash) && Represents(t0, Dictionary(log, d0)) {
        LogRefines(maxHash, t0, t, hkey, collisions, log, e, d0);
      }
      log := log + [e];
    }

    lemma LostHeavy(t0: seq<HashEnt>, t: seq<HashEnt>, hkey: nat, d0: seq<nat>)
      requires Shape() && |drops| == ncalls + 1 && WithinBut(t, hkey, drops, t0, d0, hashLimit)
      ensures forall c: nat | c < |drops| && drops[c] != d0[c] ::
        Heavy(t0, c, ncalls, hashLimit) && HasCall(t0, c)
    {
      hide Density, Heavy, HasCall;
      forall c: nat | c < |drops| && drops[c] != d0[c]
        ensures HasCall(t0, c)
      {
        HeavyHas(t0, c, ncalls, hashLimit);
      }
    }

    // A table keeps accounting for its log when only unresolvable totals change.
    lemma AccountsOn(t: seq<HashEnt>, u: seq<HashEnt>, log: seq<Event>, d: seq<nat>, d': seq<nat>)
      requires Accounts(t, log, d) && SameTotals(t, u, d') && Coarser(d, d')
      ensures Accounts(u, log, d')
    {
      forall sel: Selection | sel.Resolved(d')
        ensures Fold(u, sel) == FoldLog(log, sel)
      {
        ResolvedFiner(sel, d, d');
      }
    }

    lemma SoundUpdate(t: seq<HashEnt>, hkey: nat, wall: real)
      requires hkey < |t|
      ensures SoundBut(t, hkey) && WallOk(wall) ==>
        AllSound(t[hkey := HashEnt(t[hkey].key, Merge(t[hkey].stats, Once(wall)))])
    {
      if SoundBut(t, hkey) && WallOk(wall) {
        SoundOnce(wall);
        SoundMerge(t[hkey].stats, Once(wall));
      }
    }

    // No entry has the number 255 that events logged in no region get: the rows of a region
    // are 0 to 254.
    ghost predicate RegionsFit()
      reads this, hash
    {
      forall i | 0 <= i < hash.Length && hash[i].key != 0 :: KeyRegion(hash[i].key) < MAXSIZE_REGION
    }

    // That is so exactly when nothing was logged while no region was current.
    lemma RegionsFitIff()
      requires Valid() && Conserved() && AllSound(hash[..])
      ensures RegionsFit() <==> forall e | e in log :: e.region >= 0
    {
      hide TableOk, MasksOk, Fold, FoldLog, Occupied, Selection.TakesKey, Selection.TakesEvent, Selection.Resolved;
      var sel := OfRegion(MAXSIZE_REGION);
      assert Fold(hash[..], sel) == FoldLog(log, sel) by {
        NeverBucket(sel, drops);
      }
      FoldCounts(hash[..], sel);
      FoldLogCounts(log, sel);
      LostEvents(sel);
      if RegionsFit() {
        forall i | 0 <= i < hash.Length && hash[i].key != 0
          ensures !sel.TakesKey(hash[i].key)
        {
          LostEntry(i, sel);
        }
      } else {
        var i :| 0 <= i < hash.Length && hash[i].key != 0 && KeyRegion(hash[i].key) >= MAXSIZE_REGION;
        LostEntry(i, sel);
      }
    }

    lemma NeverBucket(sel: Selection, drops: seq<nat>)
      ensures !sel.OfBucket? ==> sel.Resolved(drops)
    {
    }

    lemma LostEntry(i: nat, sel: Selection)
      requires Valid() && AllSound(hash[..]) && i < hash.Length && hash[i].key != 0 && sel == OfRegion(MAXSIZE_REGION)
      ensures sel.TakesKey(hash[i].key) <==> KeyRegion(hash[i].key) >= MAXSIZE_REGION
      ensures hash[i].stats.count > 0
    {
      assert hash[..][i] == hash[i];
      FieldsInRange(hash[i].key);
    }

    lemma LostEvents(sel: Selection)
      requires Conserved() && sel == OfRegion(MAXSIZE_REGION)
      ensures forall e | e in log :: sel.TakesEvent(e) <==> e.region < 0
    {
    }

    // The part of ipm_sync that turns the table into per-call and per-region totals.  The
    // call rows are rebuilt; the region and task times are added to what they held.
    method SyncTotals()
      requires Valid() && RegionsFit()
      modifies this`mtime, callCount, callTime, regionMtime
      ensures Valid()
      ensures forall r, c | 0 <= r < MAXSIZE_REGION && 1 <= c <= ncalls ::
        && callCount[r, c] == Fold(hash[..], OfRegionCall(r, c)).count
        && callTime[r, c] == Fold(hash[..], OfRegionCall(r, c)).total
      ensures forall r | 0 <= r < MAXSIZE_REGION ::
        regionMtime[r] == old(regionMtime[r]) + Fold(hash[..], OfRegion(r)).total
      ensures mtime == old(mtime) + Fold(hash[..], Everything).total
    {
      hide TableOk, MasksOk, Occupied, Fold, KeyRegion, KeyCall, KeyRank, KeyByte, Shift;
      ClearScratch();
      ghost var t := hash[..];
      assert t[..0] == [];
      EmptyFold();
      for i := 0 to maxHash + 1
        invariant hash[..] == t
        invariant forall r, c | 0 <= r < MAXSIZE_REGION && 1 <= c <= ncalls ::
          && callCount[r, c] == Fold(t[..i], OfRegionCall(r, c)).count
          && callTime[r, c] == Fold(t[..i], OfRegionCall(r, c)).total
        invariant forall r | 0 <= r < MAXSIZE_REGION ::
          regionMtime[r] == old(regionMtime[r]) + Fold(t[..i], OfRegion(r)).total
        invariant mtime == old(mtime) + Fold(t[..i], Everything).total
      {
        SyncStep(t, i);
        if hash[i].key != 0 {
          KeyBounds(i);
          var ireg, icall := KeyRegion(hash[i].key), KeyCall(hash[i].key);
          callTime[ireg, icall] := callTime[ireg, icall] + hash[i].stats.total;
          callCount[ireg, icall] := callCount[ireg, icall] + hash[i].stats.count;
          regionMtime[ireg] := regionMtime[ireg] + hash[i].stats.total;
          mtime := mtime + hash[i].stats.total;
        }
      }
      assert t[..maxHash + 1] == t;
    }

    lemma EmptyFold()
      ensures forall sel: Selection :: Fold([], sel) == FRESH
    {
    }

    // How the totals ipm_sync keeps change with entry i.
    lemma SyncStep(t: seq<HashEnt>, i: nat)
      requires i < |t|
      ensures forall sel: Selection ::
        && Fold(t[..i + 1], sel).count == Fold(t[..i], sel).count + Share(t[i], sel).count
        && Fold(t[..i + 1], sel).total == Fold(t[..i], sel).total + Share(t[i], sel).total
    {
      forall sel: Selection
        ensures Fold(t[..i + 1], sel).count == Fold(t[..i], sel).count + Share(t[i], sel).count
        ensures Fold(t[..i + 1], sel).total == Fold(t[..i], sel).total + Share(t[i], sel).total
      {
        FoldPrefix(t, i, sel);
      }
    }

    lemma KeyBounds(i: nat)
      requires Valid() && i < hash.Length && hash[i].key != 0
      ensures 1 <= KeyCall(hash[i].key) <= ncalls
    {
      assert hash[..][i] == hash[i];
    }

    // The precision after a cull of the given call: that call has lost a bit, and nothing
    // else has changed unless the table was beyond its limit, when nested culls may follow.
    ghost predicate CulledAt(call: nat, d: seq<nat>, d': seq<nat>, nkey: nat) {
      && call < |d| == |d'| && d[call] < d'[call]
      && (nkey <= hashLimit ==> d' == d[call := d[call] + 1])
    }
  }
}
