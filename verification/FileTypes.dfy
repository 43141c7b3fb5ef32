// The table of file types of src/files.c: linear probing by descriptor, running totals per
// type, and the totals over all types.
module FileTypes {
  import opened Finite
  import opened TypeHash

  // One visited file, its type already abbreviated.
  datatype File = File(ftype: string, size: int, blocks: int, ctime: int, mtime: int)

  // What a set of files amounts to.
  datatype Totals =
    | None
    | Some(nfile: nat, nbyte: int, nblock: int, cageMin: int, cageMax: int, cageSum: int,
           mageMin: int, mageMax: int, mageSum: int, byteMin: int, byteMax: int, blockMin: int, blockMax: int)

  function Min(a: int, b: int): int {
    if a < b then a else b
  }

  function Max(a: int, b: int): int {
    if a > b then a else b
  }

  function One(f: File): Totals {
    Some(1, f.size, f.blocks, f.ctime, f.ctime, f.ctime, f.mtime, f.mtime, f.mtime, f.size, f.size, f.blocks, f.blocks)
  }

  function Merge(a: Totals, b: Totals): Totals {
    if a.None? then b else if b.None? then a
    else Some(
      a.nfile + b.nfile, a.nbyte + b.nbyte, a.nblock + b.nblock,
      Min(a.cageMin, b.cageMin), Max(a.cageMax, b.cageMax), a.cageSum + b.cageSum,
      Min(a.mageMin, b.mageMin), Max(a.mageMax, b.mageMax), a.mageSum + b.mageSum,
      Min(a.byteMin, b.byteMin), Max(a.byteMax, b.byteMax), Min(a.blockMin, b.blockMin), Max(a.blockMax, b.blockMax))
  }

  // The totals of the visited files whose type is one of the given.
  function Fold(files: seq<File>, types: set<string>): Totals {
    if files == [] then None
    else
      var before, f := Fold(files[..|files| - 1], types), files[|files| - 1];
      if f.ftype in types then Merge(before, One(f)) else before
  }

  // The files whose type is one of the given.
  function Chosen(files: seq<File>, types: set<string>): seq<File> {
    if files == [] then []
    else
      var before, f := Chosen(files[..|files| - 1], types), files[|files| - 1];
      if f.ftype in types then before + [f] else before
  }

  // One number of each file, added up.
  function SumBy(files: seq<File>, what: File -> int): int {
    if files == [] then 0 else SumBy(files[..|files| - 1], what) + what(files[|files| - 1])
  }

  // The least and the greatest of one number of the files.
  ghost predicate Bounds(files: seq<File>, what: File -> int, least: int, most: int) {
    && (forall k | 0 <= k < |files| :: least <= what(files[k]) <= most)
    && (exists k :: 0 <= k < |files| && what(files[k]) == least)
    && (exists k :: 0 <= k < |files| && what(files[k]) == most)
  }

  // The totals count the files, add up their sizes, blocks and ages, and give the least and the
  // greatest of each.
  ghost predicate Summarizes(e: Totals, files: seq<File>) {
    match e
    case None => files == []
    case Some(nfile, nbyte, nblock, cageMin, cageMax, cageSum, mageMin, mageMax, mageSum,
              byteMin, byteMax, blockMin, blockMax) =>
      && files != [] && nfile == |files|
      && nbyte == SumBy(files, (f: File) => f.size) && nblock == SumBy(files, (f: File) => f.blocks)
      && cageSum == SumBy(files, (f: File) => f.ctime) && mageSum == SumBy(files, (f: File) => f.mtime)
      && Bounds(files, (f: File) => f.size, byteMin, byteMax)
      && Bounds(files, (f: File) => f.blocks, blockMin, blockMax)
      && Bounds(files, (f: File) => f.ctime, cageMin, cageMax)
      && Bounds(files, (f: File) => f.mtime, mageMin, mageMax)
  }

  lemma SumByMore(files: seq<File>, f: File, what: File -> int)
    ensures SumBy(files + [f], what) == SumBy(files, what) + what(f)
  {
    assert (files + [f])[..|files|] == files;
  }

  lemma BoundsMore(files: seq<File>, f: File, what: File -> int, least: int, most: int)
    requires Bounds(files, what, least, most)
    ensures Bounds(files + [f], what, Min(least, what(f)), Max(most, what(f)))
  {
    var all := files + [f];
    var i :| 0 <= i < |files| && what(files[i]) == least;
    var j :| 0 <= j < |files| && what(files[j]) == most;
    assert what(all[i]) == least && what(all[j]) == most && what(all[|files|]) == what(f);
  }

  lemma BoundsOne(f: File, what: File -> int)
    ensures Bounds([f], what, what(f), what(f))
  {
    assert what([f][0]) == what(f);
  }

  // Counting one file more.
  lemma SummarizesMore(e: Totals, files: seq<File>, f: File)
    requires Summarizes(e, files)
    ensures Summarizes(Merge(e, One(f)), files + [f])
  {
    hide Bounds;
    var size, blocks, ctime, mtime :=
      (g: File) => g.size, (g: File) => g.blocks, (g: File) => g.ctime, (g: File) => g.mtime;
    SumByMore(files, f, size);
    SumByMore(files, f, blocks);
    SumByMore(files, f, ctime);
    SumByMore(files, f, mtime);
    if e.None? {
      assert files + [f] == [f];
      BoundsOne(f, size);
      BoundsOne(f, blocks);
      BoundsOne(f, ctime);
      BoundsOne(f, mtime);
    } else {
      BoundsMore(files, f, size, e.byteMin, e.byteMax);
      BoundsMore(files, f, blocks, e.blockMin, e.blockMax);
      BoundsMore(files, f, ctime, e.cageMin, e.cageMax);
      BoundsMore(files, f, mtime, e.mageMin, e.mageMax);
    }
  }

  lemma {:induction false} FoldSummarizes(files: seq<File>, types: set<string>)
    ensures Summarizes(Fold(files, types), Chosen(files, types))
  {
    hide Summarizes, Merge, One;
    if files == [] {
      NothingSummarized();
    } else {
      var before, f := files[..|files| - 1], files[|files| - 1];
      FoldSummarizes(before, types);
      if f.ftype in types {
        SummarizesMore(Fold(before, types), Chosen(before, types), f);
      }
    }
  }

  lemma NothingSummarized()
    ensures Summarizes(None, [])
  {
  }

  // The chosen files are those of the types, as often as they occur, in order.
  lemma {:induction false} ChosenAre(files: seq<File>, types: set<string>)
    ensures forall f :: multiset(Chosen(files, types))[f] == if f.ftype in types then multiset(files)[f] else 0
  {
    if files != [] {
      var before, f := files[..|files| - 1], files[|files| - 1];
      ChosenAre(before, types);
      assert files == before + [f];
    }
  }

  lemma FoldSnoc(files: seq<File>, f: File, types: set<string>)
    ensures Fold(files + [f], types)
         == if f.ftype in types then Merge(Fold(files, types), One(f)) else Fold(files, types)
  {
    assert (files + [f])[..|files|] == files;
  }

  lemma MergeMoves(a: Totals, b: Totals, c: Totals)
    ensures Merge(Merge(a, b), c) == Merge(Merge(a, c), b) == Merge(a, Merge(b, c))
  {
  }

  ghost function Types(files: seq<File>): set<string> {
    set k | 0 <= k < |files| :: files[k].ftype
  }

  lemma {:induction false} FoldNone(files: seq<File>, types: set<string>)
    requires forall k | 0 <= k < |files| :: files[k].ftype !in types
    ensures Fold(files, types) == None
  {
    if files != [] {
      FoldNone(files[..|files| - 1], types);
    }
  }

  // ---- probing ------------------------------------------------------------------------------------

  datatype Bucket = Bucket(desc: string, sum: Totals)

  // The k-th bucket that is tried for a hash value.
  function Place(h: nat, k: nat, n: nat): nat
    requires n > 0
    ensures Place(h, k, n) < n
  {
    (h + k) % n
  }

  // Bucket b is what probing for desc finds: k buckets full of other types lie before it.
  ghost predicate Probed(t: seq<Bucket>, h: nat, desc: string, k: nat, b: nat)
    requires |t| > 0
  {
    && b < |t| && k < |t| && Place(h, k, |t|) == b
    && forall i: nat | i < k :: t[Place(h, i, |t|)].sum.Some? && t[Place(h, i, |t|)].desc != desc
  }

  ghost predicate Open(t: seq<Bucket>, desc: string, b: nat)
    requires b < |t|
  {
    t[b].sum.None? || t[b].desc == desc
  }

  // Probing for a type ends in one bucket only.
  lemma ProbedOnce(t: seq<Bucket>, h: nat, desc: string, k: nat, b: nat, k': nat, b': nat)
    requires |t| > 0 && Probed(t, h, desc, k, b) && Open(t, desc, b) && Probed(t, h, desc, k', b') && Open(t, desc, b')
    ensures k == k' && b == b'
  {
  }

  // Nearby places are different buckets.
  lemma PlacesDiffer(h: nat, i: nat, j: nat, n: nat)
    requires i < j < n
    ensures Place(h, i, n) != Place(h, j, n)
  {
    if (h + i) % n == (h + j) % n {
      var a, b := (h + i) / n, (h + j) / n;
      assert h + j == n * b + (h + j) % n && h + i == n * a + (h + i) % n;
      assert j - i == n * (b - a) by {
        Distribute(n, b, a);
      }
      NoMultiple(n, b - a, j - i);
    }
  }

  lemma Distribute(n: nat, b: int, a: int)
    ensures n * (b - a) == n * b - n * a
  {
  }

  lemma NoMultiple(n: nat, q: int, d: nat)
    requires d == n * q && d < n
    ensures d == 0
  {
    if q >= 1 {
      assert n * q >= n * 1 by {
        Monotone(n, 1, q);
      }
    } else if q < 0 {
      assert n * q <= n * 0 by {
        Monotone(n, q, 0);
      }
    }
  }

  lemma Monotone(n: nat, a: int, b: int)
    requires a <= b
    ensures n * a <= n * b
  {
    Distribute(n, b, a);
  }

  lemma NextPlace(h: nat, k: nat, n: nat)
    requires n > 0
    ensures Place(h, k + 1, n) == if Place(h, k, n) < n - 1 then Place(h, k, n) + 1 else 0
  {
    var q, r := (h + k) / n, (h + k) % n;
    assert h + k == n * q + r;
    if r < n - 1 {
      RemainderIs(n, q, r + 1);
    } else {
      assert n * (q + 1) == n * q + n;
      RemainderIs(n, q + 1, 0);
    }
  }

  lemma RemainderIs(n: nat, q: nat, r: nat)
    requires r < n
    ensures (n * q + r) % n == r
  {
    var x := n * q + r;
    assert x == n * (x / n) + x % n;
    Distribute(n, q, x / n);
    if x % n >= r {
      NoMultiple(n, q - x / n, x % n - r);
    } else {
      Distribute(n, x / n, q);
      NoMultiple(n, x / n - q, r - x % n);
    }
  }

  // ---- what the table says of the files visited -----------------------------------------------------

  // The last bucket that could be tried never is, but in a table of one.
  predicate Early(k: nat, n: nat) {
    k + 1 < n || (k == 0 && n == 1)
  }

  ghost predicate BucketOk(t: seq<Bucket>, hash: string -> nat, files: seq<File>, b: nat)
    requires b < |t|
  {
    t[b].sum.Some? ==>
      && t[b].sum == Fold(files, {t[b].desc}) && t[b].desc in Types(files)
      && exists k: nat :: Early(k, |t|) && Probed(t, hash(t[b].desc), t[b].desc, k, b)
  }

  ghost predicate BucketsOk(t: seq<Bucket>, hash: string -> nat, files: seq<File>) {
    && |t| >= 1
    && (forall b | 0 <= b < |t| :: BucketOk(t, hash, files, b))
    && (forall b, c | 0 <= b < c < |t| :: t[b].sum.Some? && t[c].sum.Some? ==> t[b].desc != t[c].desc)
    && (forall d | d in Types(files) :: exists b :: 0 <= b < |t| && t[b].sum.Some? && t[b].desc == d)
  }

  // A bucket gives the numbers of the files of its type.
  lemma BucketSummarizes(t: seq<Bucket>, hash: string -> nat, files: seq<File>, b: nat)
    requires BucketsOk(t, hash, files) && b < |t| && t[b].sum.Some?
    ensures Summarizes(t[b].sum, Chosen(files, {t[b].desc}))
  {
    hide Summarizes, Fold;
    assert BucketOk(t, hash, files, b);
    FoldSummarizes(files, {t[b].desc});
  }

  // What one visit does to the bucket it picked.
  function Updated(t: seq<Bucket>, b: nat, f: File): seq<Bucket>
    requires b < |t|
  {
    t[b := Bucket(f.ftype, Merge(t[b].sum, One(f)))]
  }

  lemma OneTypeMore(files: seq<File>, f: File)
    ensures Types(files + [f]) == Types(files) + {f.ftype}
  {
    var all := files + [f];
    assert all[|files|] == f;
    forall d | d in Types(files)
      ensures d in Types(all)
    {
      var k :| 0 <= k < |files| && files[k].ftype == d;
      assert all[k] == files[k];
    }
  }

  // A bucket keeps what it says when a file goes to the bucket probing picks for it.
  lemma BucketKept(t: seq<Bucket>, hash: string -> nat, files: seq<File>, f: File, k: nat, b: nat, c: nat)
    requires BucketsOk(t, hash, files) && Early(k, |t|) && Probed(t, hash(f.ftype), f.ftype, k, b)
    requires Open(t, f.ftype, b)
    requires c < |t|
    ensures BucketOk(Updated(t, b, f), hash, files + [f], c)
  {
    hide Merge, Types, Place;
    var t' := Updated(t, b, f);
    OneTypeMore(files, f);
    assert BucketOk(t, hash, files, c);
    FoldSnoc(files, f, {t'[c].desc});
    if c == b {
      ProbedStays(t, b, f, hash(f.ftype), f.ftype, k, b);
      if t[b].sum.None? {
        NewType(t, hash, files, f, k, b);
      }
    } else if t[c].sum.Some? {
      var i: nat :| Early(i, |t|) && Probed(t, hash(t[c].desc), t[c].desc, i, c);
      OtherType(t, hash, files, f, k, b, c);
      ProbedStays(t, b, f, hash(t[c].desc), t[c].desc, i, c);
    }
  }

  lemma ProbedStays(t: seq<Bucket>, b: nat, f: File, h: nat, desc: string, i: nat, c: nat)
    requires |t| > 0 && b < |t| && Open(t, f.ftype, b) && Probed(t, h, desc, i, c)
    requires desc == f.ftype ==> c == b
    ensures Probed(Updated(t, b, f), h, desc, i, c)
  {
    hide Merge;
    MergeSome(t[b].sum, f);
    if desc == f.ftype {
      forall j: nat | j < i
        ensures Place(h, j, |t|) != c
      {
        PlacesDiffer(h, j, i, |t|);
      }
    }
    hide Place;
  }

  lemma MergeSome(a: Totals, f: File)
    ensures Merge(a, One(f)).Some? && (a.None? ==> Merge(a, One(f)) == One(f))
  {
  }

  // An empty bucket at the end of the probing means the type is new.
  lemma NewType(t: seq<Bucket>, hash: string -> nat, files: seq<File>, f: File, k: nat, b: nat)
    requires BucketsOk(t, hash, files) && Probed(t, hash(f.ftype), f.ftype, k, b) && t[b].sum.None?
    ensures f.ftype !in Types(files) && Fold(files, {f.ftype}) == None
  {
    hide Merge, Place, Fold;
    if f.ftype in Types(files) {
      var c :| 0 <= c < |t| && t[c].sum.Some? && t[c].desc == f.ftype;
      assert BucketOk(t, hash, files, c);
      var i: nat :| Early(i, |t|) && Probed(t, hash(t[c].desc), t[c].desc, i, c);
      ProbedOnce(t, hash(f.ftype), f.ftype, k, b, i, c);
    }
    forall j | 0 <= j < |files|
      ensures files[j].ftype !in {f.ftype}
    {
      assert files[j].ftype in Types(files);
    }
    FoldNone(files, {f.ftype});
  }

  lemma OtherType(t: seq<Bucket>, hash: string -> nat, files: seq<File>, f: File, k: nat, b: nat, c: nat)
    requires BucketsOk(t, hash, files) && Probed(t, hash(f.ftype), f.ftype, k, b) && Open(t, f.ftype, b)
    requires c < |t| && c != b && t[c].sum.Some?
    ensures t[c].desc != f.ftype
  {
    hide Merge, Place, Fold, Types;
    if t[c].desc == f.ftype {
      assert BucketOk(t, hash, files, c);
      var i: nat :| Early(i, |t|) && Probed(t, hash(t[c].desc), t[c].desc, i, c);
      ProbedOnce(t, hash(f.ftype), f.ftype, k, b, i, c);
    }
  }

  lemma VisitKeeps(t: seq<Bucket>, hash: string -> nat, files: seq<File>, f: File, k: nat, b: nat)
    requires b < |t|
    requires BucketsOk(t, hash, files) && Early(k, |t|) && Probed(t, hash(f.ftype), f.ftype, k, b)
    requires Open(t, f.ftype, b)
    ensures BucketsOk(Updated(t, b, f), hash, files + [f])
  {
    hide BucketOk, Merge, Types, Place, Probed, Fold;
    var t' := Updated(t, b, f);
    OneTypeMore(files, f);
    MergeSome(t[b].sum, f);
    forall c | 0 <= c < |t|
      ensures BucketOk(t', hash, files + [f], c)
    {
      BucketKept(t, hash, files, f, k, b, c);
    }
    forall c | 0 <= c < |t| && c != b && t[c].sum.Some?
      ensures t[c].desc != f.ftype
    {
      OtherType(t, hash, files, f, k, b, c);
    }
    forall d | d in Types(files + [f])
      ensures exists c :: 0 <= c < |t'| && t'[c].sum.Some? && t'[c].desc == d
    {
      if d == f.ftype {
        assert t'[b].desc == d;
      } else {
        var c :| 0 <= c < |t| && t[c].sum.Some? && t[c].desc == d;
        assert t'[c].desc == d;
      }
    }
  }

  // ---- running out of room --------------------------------------------------------------------------

  // Distinct full buckets hold distinct types.
  lemma {:induction false} ManyTypes(t: seq<Bucket>, hash: string -> nat, files: seq<File>, h: nat, m: nat)
    returns (s: set<string>)
    requires BucketsOk(t, hash, files) && m < |t|
    requires forall i: nat | i < m :: t[Place(h, i, |t|)].sum.Some?
    ensures |s| == m && s <= Types(files)
    ensures forall d | d in s :: exists i: nat :: i < m && t[Place(h, i, |t|)].desc == d
  {
    hide Place, Types, Fold;
    if m == 0 {
      s := {};
    } else {
      var b := Place(h, m - 1, |t|);
      s := ManyTypes(t, hash, files, h, m - 1);
      assert BucketOk(t, hash, files, b);
      forall d | d in s
        ensures d != t[b].desc
      {
        var i: nat :| i < m - 1 && t[Place(h, i, |t|)].desc == d;
        PlacesDiffer(h, i, m - 1, |t|);
        DistinctDescs(t, hash, files, Place(h, i, |t|), b);
      }
      s := s + {t[b].desc};
    }
  }

  lemma DistinctDescs(t: seq<Bucket>, hash: string -> nat, files: seq<File>, b: nat, c: nat)
    requires BucketsOk(t, hash, files) && b < |t| && c < |t| && b != c && t[b].sum.Some? && t[c].sum.Some?
    ensures t[b].desc != t[c].desc
  {
    hide BucketOk, Types;
    if b < c {
    } else {
      assert c < b;
    }
  }

  // ---- the totals over all types ------------------------------------------------------------------------

  // All buckets together.
  function SumOf(t: seq<Bucket>): Totals {
    if t == [] then None else Merge(SumOf(t[..|t| - 1]), t[|t| - 1].sum)
  }

  function Flat(files: seq<File>): Totals {
    if files == [] then None else Merge(Flat(files[..|files| - 1]), One(files[|files| - 1]))
  }

  lemma FlatSnoc(files: seq<File>, f: File)
    ensures Flat(files + [f]) == Merge(Flat(files), One(f))
  {
    assert (files + [f])[..|files|] == files;
  }

  lemma {:induction false} FlatSummarizes(files: seq<File>)
    ensures Summarizes(Flat(files), files)
  {
    hide Summarizes, Merge, One;
    if files == [] {
      NothingSummarized();
    } else {
      var before, f := files[..|files| - 1], files[|files| - 1];
      FlatSummarizes(before);
      SummarizesMore(Flat(before), before, f);
      assert files == before + [f];
    }
  }

  lemma {:induction false} SumUpdated(t: seq<Bucket>, b: nat, f: File)
    requires b < |t|
    ensures SumOf(Updated(t, b, f)) == Merge(SumOf(t), One(f))
  {
    hide Merge;
    var n := |t| - 1;
    var t' := Updated(t, b, f);
    if b == n {
      assert t'[..n] == t[..n];
      MergeMoves(SumOf(t[..n]), t[n].sum, One(f));
    } else {
      assert t'[..n] == Updated(t[..n], b, f);
      SumUpdated(t[..n], b, f);
      MergeMoves(SumOf(t[..n]), t[n].sum, One(f));
    }
  }

  lemma {:induction false} SumEmpty(t: seq<Bucket>)
    requires forall b | 0 <= b < |t| :: t[b].sum.None?
    ensures SumOf(t) == None
  {
    if t != [] {
      SumEmpty(t[..|t| - 1]);
    }
  }

  // A count and extremes that some files can have.
  predicate Counts(e: Totals) {
    e.Some? ==> e.nfile > 0 && e.byteMin <= e.byteMax && e.blockMin <= e.blockMax
  }

  ghost predicate AllCount(t: seq<Bucket>) {
    forall b | 0 <= b < |t| :: Counts(t[b].sum)
  }

  lemma CountsMerge(a: Totals, b: Totals)
    requires Counts(a) && Counts(b)
    ensures Counts(Merge(a, b))
  {
  }

  // The first full bucket, and all later ones together.
  function FirstOf(t: seq<Bucket>): Totals {
    if t == [] then None
    else
      var before := FirstOf(t[..|t| - 1]);
      if before.Some? then before else t[|t| - 1].sum
  }

  function RestOf(t: seq<Bucket>): Totals {
    if t == [] || FirstOf(t[..|t| - 1]).None? then None else Merge(RestOf(t[..|t| - 1]), t[|t| - 1].sum)
  }

  lemma {:induction false} FirstAndRest(t: seq<Bucket>)
    requires AllCount(t)
    ensures SumOf(t) == Merge(FirstOf(t), RestOf(t)) && Counts(FirstOf(t)) && Counts(RestOf(t))
    ensures FirstOf(t).None? ==> RestOf(t).None?
  {
    hide Merge, Counts;
    if t != [] {
      var before, e := t[..|t| - 1], t[|t| - 1].sum;
      FirstAndRest(before);
      MergeMoves(FirstOf(before), RestOf(before), e);
      CountsMerge(RestOf(before), e);
      MergeNone(e);
    } else {
      MergeNone(None);
      NoneCounts();
    }
  }

  lemma NoneCounts()
    ensures Counts(None)
  {
  }

  lemma MergeNone(e: Totals)
    ensures Merge(None, e) == e == Merge(e, None)
  {
  }

  lemma FirstStep(t: seq<Bucket>, i: nat)
    requires i < |t|
    ensures FirstOf(t[..i + 1]) == if FirstOf(t[..i]).Some? then FirstOf(t[..i]) else t[i].sum
    ensures RestOf(t[..i + 1]) == if FirstOf(t[..i]).None? then None else Merge(RestOf(t[..i]), t[i].sum)
    ensures Full(t[..i + 1]) == Full(t[..i]) + (if t[i].sum.Some? then 1 else 0)
  {
    assert t[..i + 1][..i] == t[..i];
  }

  function Full(t: seq<Bucket>): nat {
    if t == [] then 0 else Full(t[..|t| - 1]) + (if t[|t| - 1].sum.Some? then 1 else 0)
  }

  datatype Grand = Grand(
    nfile: nat, nbyte: int, nblock: int, cageMin: int, cageMax: int, mageMin: int, mageMax: int,
    byteMin: int, byteMax: int, blockMin: int, blockMax: int)

  const EMPTY_TOTAL := Grand(0, 0, 0, 0, 0, 0, 0, 0, 0, 0, 0)

  // The first full bucket does not contribute its blocks, nor the extremes of its sizes:
  // those are compared with the zeros the totals start with.
  function GrandTotal(first: Totals, rest: Totals): Grand {
    if first.None? then EMPTY_TOTAL
    else
      var all := Merge(first, rest);
      Grand(all.nfile, all.nbyte, if rest.None? then 0 else rest.nblock,
            all.cageMin, all.cageMax, all.mageMin, all.mageMax,
            if rest.None? then 0 else Min(0, rest.byteMin), if rest.None? then 0 else Max(0, rest.byteMax),
            if rest.None? then 0 else Min(0, rest.blockMin), if rest.None? then 0 else Max(0, rest.blockMax))
  }

  // How the first pass takes in one more full bucket.
  function AddBucket(total: Grand, e: Totals): Grand
    requires e.Some?
  {
    if total.nfile == 0 then
      total.(nfile := e.nfile, nbyte := e.nbyte, cageMin := e.cageMin, cageMax := e.cageMax,
             mageMin := e.mageMin, mageMax := e.mageMax)
    else
      Grand(
        total.nfile + e.nfile, total.nbyte + e.nbyte, total.nblock + e.nblock,
        if e.cageMin < total.cageMin then e.cageMin else total.cageMin,
        if e.cageMax > total.cageMax then e.cageMax else total.cageMax,
        if e.mageMin < total.mageMin then e.mageMin else total.mageMin,
        if e.mageMax > total.mageMax then e.mageMax else total.mageMax,
        if e.byteMin < total.byteMin then e.byteMin else total.byteMin,
        if e.byteMax > total.byteMax then e.byteMax else total.byteMax,
        if e.blockMin < total.blockMin then e.blockMin else total.blockMin,
        if e.blockMax > total.blockMax then e.blockMax else total.blockMax)
  }

  lemma AddedBucket(first: Totals, rest: Totals, e: Totals)
    requires e.Some? && Counts(first) && Counts(e) && (first.None? ==> rest.None?)
    ensures AddBucket(GrandTotal(first, rest), e)
         == if first.None? then GrandTotal(e, None) else GrandTotal(first, Merge(rest, e))
  {
  }

  lemma {:induction false} FlatNotNegative(files: seq<File>)
    requires forall f | f in files :: f.size >= 0 && f.blocks >= 0
    ensures Flat(files).Some? <==> files != []
    ensures files != [] ==> Flat(files).byteMin >= 0 && Flat(files).blockMin >= 0
  {
    if files != [] {
      FlatNotNegative(files[..|files| - 1]);
    }
  }

  // The totals over all types are those over all files, with these exceptions: the blocks are
  // right exactly when the first bucket has none; the largest size exactly when the first
  // bucket has only empty files or a later one has a file as large; the smallest exactly when
  // there is an empty file.
  lemma GrandTotalIsFlat(files: seq<File>, t: seq<Bucket>)
    requires files != [] && (forall f | f in files :: f.size >= 0 && f.blocks >= 0)
    requires AllCount(t) && SumOf(t) == Flat(files)
    ensures var first, rest, all := FirstOf(t), RestOf(t), Flat(files);
      var total := GrandTotal(first, rest);
      && all.Some? && first.Some? && Summarizes(all, files)
      && total.nfile == all.nfile && total.nbyte == all.nbyte
      && total.cageMin == all.cageMin && total.cageMax == all.cageMax
      && total.mageMin == all.mageMin && total.mageMax == all.mageMax
      && total.nblock == all.nblock - first.nblock && total.byteMin == 0 == total.blockMin
      && (total.nblock == all.nblock <==> first.nblock == 0)
      && (total.byteMax == all.byteMax <==> first.byteMax == 0 || (rest.Some? && first.byteMax <= rest.byteMax))
      && (total.byteMin == all.byteMin <==> all.byteMin == 0)
      && (total.blockMax == all.blockMax <==> first.blockMax == 0 || (rest.Some? && first.blockMax <= rest.blockMax))
      && (total.blockMin == all.blockMin <==> all.blockMin == 0)
  {
    hide Summarizes;
    FlatSummarizes(files);
    FlatNotNegative(files);
    FirstAndRest(t);
    RestNotNegative(t, files);
    hide FirstOf, RestOf, SumOf, Flat;
  }

  lemma RestNotNegative(t: seq<Bucket>, files: seq<File>)
    requires AllCount(t) && SumOf(t) == Flat(files) && forall f | f in files :: f.size >= 0 && f.blocks >= 0
    ensures var rest := RestOf(t); rest.Some? ==> rest.byteMin >= 0 && rest.blockMin >= 0
  {
    hide FirstOf, RestOf, SumOf, Flat;
    FirstAndRest(t);
    FlatNotNegative(files);
    if files == [] {
      NoFiles();
    }
  }

  lemma NoFiles()
    ensures Flat([]) == None
  {
  }

  // Two files of different types for which they are wrong.
  lemma FirstPassedOver(f: File, g: File)
    requires f.ftype != g.ftype && f.size == 5 && f.blocks == 2 && g.size == 3 && g.blocks == 1
    ensures var t, all := [Bucket(f.ftype, One(f)), Bucket(g.ftype, One(g))], Flat([f, g]);
      var total := GrandTotal(FirstOf(t), RestOf(t));
      && AllCount(t) && SumOf(t) == all
      && total.nblock == 1 && all.nblock == 3 && total.byteMax == 3 && all.byteMax == 5
      && total.byteMin == 0 && all.byteMin == 3 && total.blockMax == 1 && all.blockMax == 2
  {
    hide FirstOf, RestOf, SumOf, Flat;
    TwoBuckets(Bucket(f.ftype, One(f)), Bucket(g.ftype, One(g)));
    TwoFiles(f, g);
  }

  lemma TwoBuckets(a: Bucket, b: Bucket)
    requires a.sum.Some?
    ensures FirstOf([a, b]) == a.sum && RestOf([a, b]) == b.sum && SumOf([a, b]) == Merge(a.sum, b.sum)
  {
    hide Merge;
    var t := [a, b];
    assert t[..1] == [a] && t[..1][..0] == [];
    MergeNone(a.sum);
    MergeNone(b.sum);
    assert FirstOf(t[..1]) == a.sum && RestOf(t[..1]) == None && SumOf(t[..1]) == a.sum;
  }

  lemma TwoFiles(f: File, g: File)
    ensures Flat([f, g]) == Merge(One(f), One(g))
  {
    hide Merge;
    assert [f, g] == [f] + [g] && [f] == [] + [f];
    FlatSnoc([f], g);
    FlatSnoc([], f);
    MergeNone(One(f));
  }

  // ---- the program's state ----------------------------------------------------------------------------

  class Files {
    const t: array<Bucket>
    const strhash: string -> nat
    var ftypeLast: string
    var keyLast: nat
    ghost var files: seq<File>

    // Every file visited is counted in one bucket, and the bucket of the last one is known.
    ghost predicate Valid()
      reads this, t
    {
      && keyLast < t.Length
      && (files == [] ==> ftypeLast == NULL && keyLast == 0 && forall b | 0 <= b < t.Length :: t[b].sum.None?)
      && (files != [] ==> t[keyLast].sum.Some? && t[keyLast].desc == ftypeLast)
      && AllCount(t[..]) && SumOf(t[..]) == Flat(files)
    }

    // Every type has one bucket, with exactly its files.
    ghost predicate Right()
      reads this, t
    {
      BucketsOk(t[..], strhash, files)
    }

    // The user may ask for any number of buckets.
    constructor (ftypesMax: nat, hash: string -> nat)
      requires ftypesMax >= 1
      ensures Valid() && Right() && files == [] && fresh(t) && t.Length == ftypesMax && strhash == hash
    {
      t := new Bucket[ftypesMax](_ => Bucket("", None));
      strhash := hash;
      ftypeLast, keyLast := NULL, 0;
      files := [];
      new;
      SumEmpty(t[..]);
    }

    // The first free or fitting bucket, unless all but the last one tried are full of others.
    // With a single bucket that does not fit the loop never ends.
    method Probe(ftype: string) returns (ok: bool, key: nat, ghost k: nat)
      requires t.Length >= 2 || (t.Length == 1 && Open(t[..], ftype, 0))
      ensures ok ==> Early(k, t.Length) && Probed(t[..], strhash(ftype), ftype, k, key) && Open(t[..], ftype, key)
      ensures !ok ==> t.Length >= 2 && forall i: nat | i < t.Length - 1 ::
        var b := Place(strhash(ftype), i, t.Length); t[b].sum.Some? && t[b].desc != ftype
    {
      hide Place;
      ghost var h := strhash(ftype);
      var collisions := 0;
      key := strhash(ftype) % t.Length;
      FirstPlace(h, t.Length);
      while t[key].sum.Some? && t[key].desc != ftype
        invariant key == Place(h, collisions, t.Length) && Early(collisions, t.Length)
        invariant forall i: nat | i < collisions ::
          t[Place(h, i, t.Length)].sum.Some? && t[Place(h, i, t.Length)].desc != ftype
        decreases t.Length - collisions
      {
        NextPlace(h, collisions, t.Length);
        key := if key < t.Length - 1 then key + 1 else 0;
        collisions := collisions + 1;
        if collisions == t.Length - 1 {
          return false, key, collisions;
        }
      }
      return true, key, collisions;
    }

    // One visited file; ok is false when the program gives up for want of buckets.  The type
    // of the file before is not probed for again, and before the first file that type is
    // "NULL", in bucket 0.
    method Visit(f: File) returns (ok: bool)
      requires Valid()
      requires t.Length == 1 ==> files == [] || f.ftype == ftypeLast
      modifies this, t
      ensures ok ==> Valid() && files == old(files) + [f]
      ensures ok && old(Right()) ==>
        (Right() <==> (old(files) == [] && f.ftype == NULL ==> strhash(NULL) % t.Length == 0))
      ensures !ok && old(Right()) ==> |Types(old(files)) - {f.ftype}| >= t.Length - 1
    {
      hide BucketsOk, Fold, Types, Place, Merge, Probed, SumOf, Flat, Counts;
      var key;
      ghost var k, was := 0, t[..];
      if f.ftype == ftypeLast {
        key := keyLast;
        ShortcutKeeps(was, strhash, files, f, key);
      } else {
        ok, key, k := Probe(f.ftype);
        if !ok {
          if Right() {
            OutOfRoom(was, strhash, files, f.ftype);
          }
          return;
        }
        KeyInRange(was, strhash(f.ftype), f.ftype, k, key);
        if Right() {
          VisitKeeps(was, strhash, files, f, k, key);
        }
      }
      MergeSome(t[key].sum, f);
      CountsOne(t[key].sum, f);
      SumUpdated(was, key, f);
      FlatSnoc(files, f);
      t[key] := Bucket(f.ftype, Merge(t[key].sum, One(f)));
      ftypeLast, keyLast := f.ftype, key;
      files := files + [f];
      assert t[..] == Updated(was, key, f);
      return true;
    }

    // The totals over all types, and how many there are.
    method FirstPass() returns (total: Grand, ftypesNum: nat)
      requires Valid()
      ensures total == GrandTotal(FirstOf(t[..]), RestOf(t[..])) && ftypesNum == Full(t[..])
      ensures Merge(FirstOf(t[..]), RestOf(t[..])) == Flat(files) && Summarizes(Flat(files), files)
    {
      hide FirstOf, RestOf, SumOf, Flat, Full, GrandTotal, AddBucket, Merge, Counts, Summarizes;
      FlatSummarizes(files);
      total, ftypesNum := EMPTY_TOTAL, 0;
      NothingYet(t[..0]);
      for i := 0 to t.Length
        invariant total == GrandTotal(FirstOf(t[..i]), RestOf(t[..i])) && ftypesNum == Full(t[..i])
      {
        FirstAndRest(t[..i]);
        FirstStep(t[..], i);
        if t[i].sum.Some? {
          ftypesNum := ftypesNum + 1;
          AddedBucket(FirstOf(t[..i]), RestOf(t[..i]), t[i].sum);
          total := AddBucket(total, t[i].sum);
        } else {
          MergeNone(RestOf(t[..i]));
        }
      }
      assert t[..t.Length] == t[..];
      FirstAndRest(t[..]);
    }
  }

  lemma NothingYet(t: seq<Bucket>)
    requires t == []
    ensures EMPTY_TOTAL == GrandTotal(FirstOf(t), RestOf(t)) && Full(t) == 0
  {
  }

  lemma CountsOne(e: Totals, f: File)
    requires Counts(e)
    ensures Counts(Merge(e, One(f)))
  {
  }

  lemma FirstPlace(h: nat, n: nat)
    requires n > 0
    ensures Place(h, 0, n) == h % n
  {
  }

  lemma KeyInRange(t: seq<Bucket>, h: nat, desc: string, k: nat, b: nat)
    requires |t| > 0 && Probed(t, h, desc, k, b)
    ensures b < |t|
  {
  }

  // The bucket of the file before is the one probing would find; before the first file the
  // shortcut takes bucket 0, and the table stays right exactly when probing would too.
  lemma ShortcutKeeps(t: seq<Bucket>, hash: string -> nat, files: seq<File>, f: File, key: nat)
    requires key < |t|
    requires if files == [] then key == 0 && f.ftype == NULL && forall b | 0 <= b < |t| :: t[b].sum.None?
             else t[key].sum.Some? && t[key].desc == f.ftype
    ensures BucketsOk(t, hash, files) ==>
      (BucketsOk(Updated(t, key, f), hash, files + [f]) <==> (files == [] ==> hash(NULL) % |t| == 0))
  {
    hide Fold, Types, Merge;
    if BucketsOk(t, hash, files) {
      if files == [] {
        NullShortcut(t, hash);
        if hash(NULL) % |t| == 0 {
          assert Probed(t, hash(NULL), NULL, 0, 0);
          VisitKeeps(t, hash, files, f, 0, 0);
        } else {
          MisplacedNull(t, hash, f);
          assert files + [f] == [f];
        }
      } else {
        assert BucketOk(t, hash, files, key);
        var k: nat :| Early(k, |t|) && Probed(t, hash(f.ftype), f.ftype, k, key);
        VisitKeeps(t, hash, files, f, k, key);
      }
    }
  }

  lemma OutOfRoom(t: seq<Bucket>, hash: string -> nat, files: seq<File>, ftype: string)
    requires BucketsOk(t, hash, files) && |t| >= 2
    requires forall i: nat | i < |t| - 1 ::
      t[Place(hash(ftype), i, |t|)].sum.Some? && t[Place(hash(ftype), i, |t|)].desc != ftype
    ensures |Types(files) - {ftype}| >= |t| - 1
  {
    hide Place, Types, BucketOk;
    var s := ManyTypes(t, hash, files, hash(ftype), |t| - 1);
    assert s <= Types(files) - {ftype};
    SubsetSize(s, Types(files) - {ftype});
  }

  // A first file of type "NULL" goes to bucket 0, which is where probing would put it exactly
  // when its hash says so.
  lemma NullShortcut(t: seq<Bucket>, hash: string -> nat)
    requires |t| >= 1 && forall b | 0 <= b < |t| :: t[b].sum.None?
    ensures (exists k: nat :: Probed(t, hash(NULL), NULL, k, 0)) <==> hash(NULL) % |t| == 0
  {
    if hash(NULL) % |t| == 0 {
      assert Probed(t, hash(NULL), NULL, 0, 0);
    }
    if k: nat :| Probed(t, hash(NULL), NULL, k, 0) {
      OnlyFirst(t, hash(NULL), NULL, k, 0);
    }
  }

  // Probing ends at the first place when that is free.
  lemma OnlyFirst(t: seq<Bucket>, h: nat, desc: string, k: nat, b: nat)
    requires |t| >= 1 && Probed(t, h, desc, k, b) && t[Place(h, 0, |t|)].sum.None?
    ensures k == 0 && b == h % |t|
  {
    FirstPlace(h, |t|);
  }

  lemma MisplacedNull(t: seq<Bucket>, hash: string -> nat, f: File)
    requires |t| >= 1 && f.ftype == NULL && hash(NULL) % |t| != 0 && forall b | 0 <= b < |t| :: t[b].sum.None?
    ensures !BucketsOk(Updated(t, 0, f), hash, [f])
  {
    hide Fold, Types, Merge;
    var t' := Updated(t, 0, f);
    MergeSome(t[0].sum, f);
    if BucketsOk(t', hash, [f]) {
      assert BucketOk(t', hash, [f], 0);
      var k: nat :| Early(k, |t'|) && Probed(t', hash(NULL), NULL, k, 0);
      FirstPlace(hash(NULL), |t|);
      OnlyFirst(t', hash(NULL), NULL, k, 0);
    }
  }

  // ---- when the shortcut goes wrong ---------------------------------------------------------------------

  // With the default number of buckets, a first file of type NULL and a later one, after a file
  // of another type elsewhere, end up in two buckets.
  lemma NullOpensTwo(t: seq<Bucket>, hash: string -> nat, f: File, g: File, b: nat, h: File)
    requires |t| == 1024 && (forall i | 0 <= i < 1024 :: t[i].sum.None?) && hash(NULL) == StrHash(NULL)
    requires f.ftype == NULL == h.ftype && g.ftype != NULL && 0 < b < 1024 && b != 396
    ensures var t2 := Updated(Updated(t, 0, f), b, g);
      && Probed(t2, hash(NULL), NULL, 0, 396) && Open(t2, NULL, 396)
      && var t3 := Updated(t2, 396, h);
         t3[0].sum.Some? && t3[396].sum.Some? && t3[0].desc == t3[396].desc == NULL
  {
    NullHash();
    FirstPlace(hash(NULL), 1024);
    hide StrHash, Place;
  }
}
