// What the key macros mean.  A key is read as the number
//   region * 2^56 + call * 2^48 + |rank| * 2^32 + [rank < 0] * 2^31 + bytes,
// and a mask word that has been stepped down d times rounds sizes down to multiples of 2^d.
module KeyCodec {
  import opened Bits
  import opened KeyMacros

  const MAXSIZE_REGION: nat := 255
  const PRECISION_BITS: nat := 48

  function KeyByte(key: nat): nat {
    key % 0x8000_0000
  }

  function KeyRank(key: nat): int {
    var r := key / 0x1_0000_0000 % 0x1_0000;
    if key / 0x8000_0000 % 2 == 1 then -r else r
  }

  function KeyCall(key: nat): nat {
    key / 0x1_0000_0000_0000 % 0x100
  }

  function KeyRegion(key: nat): nat {
    key / 0x100_0000_0000_0000
  }

  // The values the four fields can hold.
  predicate InRange(region: int, call: int, rank: int, bytes: int) {
    && 0 <= region < 0x100
    && 0 <= call < 0x100
    && -0xFFFF <= rank <= 0xFFFF
    && 0 <= bytes < 0x8000_0000
  }

  function Pack(region: nat, call: nat, rank: int, bytes: nat): nat {
    region * 0x100_0000_0000_0000 + call * 0x1_0000_0000_0000
    + (if rank < 0 then -rank * 0x1_0000_0000 + 0x8000_0000 else rank * 0x1_0000_0000)
    + bytes
  }

  // A mask word with flag bits hi whose size precision has been stepped down d times.
  function MaskWord(hi: nat, d: nat): nat
    requires d <= PRECISION_BITS
  {
    Pow2Monotone(d, PRECISION_BITS);
    hi * 0x1_0000_0000_0000 + (Pow2(PRECISION_BITS) - Pow2(d))
  }

  // Every key splits into its five fields.
  lemma Split(key: nat) returns (region: nat, call: nat, r: nat, sign: nat, bytes: nat)
    requires key < WORD
    ensures region < 0x100 && call < 0x100 && r < 0x1_0000 && sign < 2 && bytes < 0x8000_0000
    ensures key == Join(region, call, r, sign, bytes)
  {
    bytes := key % 0x8000_0000;
    var k1 := key / 0x8000_0000;
    sign := k1 % 2;
    var k2 := k1 / 2;
    r := k2 % 0x1_0000;
    var k3 := k2 / 0x1_0000;
    call := k3 % 0x100;
    region := k3 / 0x100;
  }

  function Join(region: nat, call: nat, r: nat, sign: nat, bytes: nat): nat {
    (((region * 0x100 + call) * 0x1_0000 + r) * 2 + sign) * 0x8000_0000 + bytes
  }

  function Signed(sign: nat, r: nat): int {
    if sign == 1 then 0 - r else r
  }

  lemma JoinFields(region: nat, call: nat, r: nat, sign: nat, bytes: nat)
    requires region < 0x100 && call < 0x100 && r < 0x1_0000 && sign < 2 && bytes < 0x8000_0000
    ensures var key := Join(region, call, r, sign, bytes);
      && KeyRegion(key) == region
      && KeyCall(key) == call
      && KeyRank(key) == Signed(sign, r)
      && KeyByte(key) == bytes
  {
    var rc := region * 0x100 + call;
    var peer := rc * 0x1_0000 + r;
    var key := Join(region, call, r, sign, bytes);
    DivUnique(key, 0x8000_0000, 2 * peer + sign, bytes);
    DivUnique(key, 0x1_0000_0000, peer, sign * 0x8000_0000 + bytes);
    DivUnique(key, 0x1_0000_0000_0000, rc, r * 0x1_0000_0000 + sign * 0x8000_0000 + bytes);
    DivUnique(key, 0x100_0000_0000_0000, region,
              call * 0x1_0000_0000_0000 + r * 0x1_0000_0000 + sign * 0x8000_0000 + bytes);
    DivUnique(rc, 0x100, region, call);
    DivUnique(peer, 0x1_0000, rc, r);
    DivUnique(2 * peer + sign, 2, peer, sign);
  }

  // Unpacking what was packed gives every field back.
  lemma Unpack(region: nat, call: nat, rank: int, bytes: nat)
    requires InRange(region, call, rank, bytes)
    ensures Pack(region, call, rank, bytes) < WORD
    ensures KeyRegion(Pack(region, call, rank, bytes)) == region
    ensures KeyCall(Pack(region, call, rank, bytes)) == call
    ensures KeyRank(Pack(region, call, rank, bytes)) == rank
    ensures KeyByte(Pack(region, call, rank, bytes)) == bytes
  {
    var r, sign := if rank < 0 then -rank else rank, if rank < 0 then 1 else 0;
    assert Pack(region, call, rank, bytes) == Join(region, call, r, sign, bytes);
    JoinFields(region, call, r, sign, bytes);
  }

  lemma FieldsInRange(key: nat)
    requires key < WORD
    ensures InRange(KeyRegion(key), KeyCall(key), KeyRank(key), KeyByte(key))
  {
    var region, call, r, sign, bytes := Split(key);
    JoinFields(region, call, r, sign, bytes);
  }

  // The decoding macros read exactly these fields, whatever the key.
  lemma DecodersRead(key: nat)
    requires key < WORD
    ensures ByteBits(key) == KeyByte(key)
    ensures RankBits(key) == KeyRank(key)
    ensures CallBits(key) == KeyCall(key)
    ensures RegionBits(key) == KeyRegion(key)
  {
    var region, call, r, sign, bytes := Split(key);
    JoinFields(region, call, r, sign, bytes);
    JoinCallRegion(key, region, call, r, sign, bytes);
    JoinRankByte(key, region, call, r, sign, bytes);
  }

  lemma JoinCallRegion(key: nat, region: nat, call: nat, r: nat, sign: nat, bytes: nat)
    requires region < 0x100 && call < 0x100 && r < 0x1_0000 && sign < 2 && bytes < 0x8000_0000
    requires key == Join(region, call, r, sign, bytes)
    ensures And(key, KEY_MASK_CALL) == call * 0x1_0000_0000_0000
    ensures And(key, KEY_MASK_REGION) == region * 0x100_0000_0000_0000
  {
    Pow2Table();
    var low := r * 0x1_0000_0000 + sign * 0x8000_0000 + bytes;
    AndFieldOf(key, KEY_MASK_CALL, region, 8, call, 48, low);
    AndFieldOf(key, KEY_MASK_REGION, 0, 8, region, 56, call * 0x1_0000_0000_0000 + low);
  }

  lemma JoinRankByte(key: nat, region: nat, call: nat, r: nat, sign: nat, bytes: nat)
    requires region < 0x100 && call < 0x100 && r < 0x1_0000 && sign < 2 && bytes < 0x8000_0000
    requires key == Join(region, call, r, sign, bytes)
    ensures And(key, KEY_MASK_RANK) == r * 0x1_0000_0000
    ensures And(key, KEY_MASK_NORANK) == sign * 0x8000_0000
    ensures And(key, KEY_MASK_BYTE) == bytes
  {
    Pow2Table();
    assert Pow2(1) == 2;
    var rc := region * 0x100 + call;
    var peer := rc * 0x1_0000 + r;
    AndFieldOf(key, KEY_MASK_RANK, rc, 16, r, 32, sign * 0x8000_0000 + bytes);
    AndFieldOf(key, KEY_MASK_NORANK, peer, 1, sign, 31, bytes);
    AndLowOf(key, KEY_MASK_BYTE, 2 * peer + sign, 31, bytes);
  }

  // The size bits a mask word lets through.
  lemma MaskedSize(hi: nat, d: nat, size: nat)
    requires d <= PRECISION_BITS && size < 0x1_0000_0000_0000
    ensures And(size, And(MaskWord(hi, d), CALL_MASK_BPREC)) == RoundDown(size, d)
  {
    Pow2Table();
    Pow2Monotone(d, PRECISION_BITS);
    AndLowOf(MaskWord(hi, d), CALL_MASK_BPREC, hi, 48, Pow2(48) - Pow2(d));
    AndHigh(size, 48, d);
  }

  // What is kept of a region number, which may be -1.
  function RegionByte(region: int): (r: nat)
    ensures r < 0x100
  {
    region % 0x100
  }

  // IPM_MPI_KEY packs the region's low byte, call and signed rank as they are and the size
  // rounded down.
  lemma EncoderPacks(hi: nat, d: nat, region: int, call: nat, rank: int, size: nat)
    requires d <= PRECISION_BITS && InRange(0, call, rank, size)
    ensures MpiKey(MaskWord(hi, d), region, call, rank, size)
         == Pack(RegionByte(region), call, rank, RoundDown(size, d))
  {
    MaskedSize(hi, d, size);
    PeerField(region, call, rank);
    SizeField(RegionByte(region), call, rank, RoundDown(size, d));
  }

  // Shifting left by k in a word keeps the low bits only.
  lemma ShiftWord(x: nat, m: nat, k: nat)
    requires k > 0 && m * k == WORD
    ensures Word(x * k) == x % m * k
  {
    var q, r := x / m, x % m;
    assert x * k == WORD * q + r * k by {
      Regroup(m, q, r, k);
    }
    assert 0 <= r * k < WORD by {
      Below(r, m, k);
    }
    DivUnique(x * k, WORD, q, r * k);
  }

  lemma Regroup(m: nat, q: nat, r: nat, k: nat)
    ensures (m * q + r) * k == m * k * q + r * k
  {
  }

  lemma Below(r: nat, m: nat, k: nat)
    requires r < m && k > 0
    ensures 0 <= r * k < m * k
  {
  }

  // Remainders of a word of fields.
  lemma LowFields(x: nat, m: nat, n: nat, low: nat)
    requires m > 0 && n > 0 && low < n
    ensures (x * n + low) % (m * n) == x % m * n + low
  {
    var q, r := x / m, x % m;
    assert x * n + low == m * n * q + (r * n + low) by {
      Regroup(m, q, r, n);
    }
    assert r * n + low < m * n by {
      LastField(r, m, n, low);
    }
    DivUnique(x * n + low, m * n, q, r * n + low);
  }

  lemma LastField(r: nat, m: nat, n: nat, low: nat)
    requires r < m && low < n
    ensures r * n + low < m * n
  {
    Below(r, r + 1, n);
    assert (r + 1) * n == r * n + n;
    if r + 1 < m {
      Below(r + 1, m, n);
    }
  }

  lemma WordByte(region: int)
    ensures Word(region) % 0x100 == RegionByte(region)
  {
  }

  lemma SmallByte(region: nat)
    requires region < 0x100
    ensures RegionByte(region) == region
  {
  }

  lemma RemainderTwice(x: nat, m: nat, n: nat)
    requires m > 0 && n > 0 && m * n > 0
    ensures x % (m * n) % n == x % n
  {
    var q, r := x / (m * n), x % (m * n);
    var s := r / n;
    assert x == n * (m * q + s) + r % n by {
      assert x == m * n * q + r;
      assert r == n * s + r % n;
      RegroupTwice(m, n, q, s);
    }
    DivUnique(x, n, m * q + s, r % n);
  }

  lemma RegroupTwice(m: nat, n: nat, q: nat, s: nat)
    ensures n * (m * q + s) == m * n * q + n * s
  {
  }

  lemma PeerField(region: int, call: nat, rank: int)
    requires InRange(0, call, rank, 0)
    ensures PeerBits(region, call, rank) == Pack(RegionByte(region), call, rank, 0)
  {
    hide Or, Word, Pow2, RegionByte;
    Pow2Table();
    var w, r, rb := Word(region), if rank < 0 then -rank else rank, RegionByte(region);
    var regionCall := RegionCall(w, call);
    var peer := Peer(regionCall, w % 0x100 * 0x100 + call, r);
    WordByte(region);
    ShiftWord(peer, 0x1_0000_0000, 0x1_0000_0000);
    if rank < 0 {
      var low := rb * 0x100_0000 + call * 0x1_0000 + r;
      OrDisjointOf(low * 0x1_0000_0000, low, 32, 0x8000_0000);
    }
  }

  lemma RegionCall(w: nat, call: nat) returns (rc: nat)
    requires call < 0x100
    ensures rc == Or(Word(w * 0x100), call) && rc % 0x1_0000 == w % 0x100 * 0x100 + call
  {
    hide Or, Word, Pow2;
    Pow2Table();
    ShiftWord(w, 0x100_0000_0000_0000, 0x100);
    var high := w % 0x100_0000_0000_0000;
    OrDisjointOf(high * 0x100, high, 8, call);
    rc := high * 0x100 + call;
    LowFields(high, 0x100, 0x100, call);
    RemainderTwice(w, 0x1_0000_0000_0000, 0x100);
  }

  lemma Peer(rc: nat, low: nat, r: nat) returns (peer: nat)
    requires r < 0x1_0000 && low == rc % 0x1_0000
    ensures peer == Or(Word(rc * 0x1_0000), r) && peer % 0x1_0000_0000 == low * 0x1_0000 + r
  {
    hide Or, Word, Pow2;
    Pow2Table();
    ShiftWord(rc, 0x1_0000_0000_0000, 0x1_0000);
    var high := rc % 0x1_0000_0000_0000;
    OrDisjointOf(high * 0x1_0000, high, 16, r);
    peer := high * 0x1_0000 + r;
    LowFields(high, 0x1_0000, 0x1_0000, r);
    RemainderTwice(rc, 0x1_0000_0000, 0x1_0000);
  }

  lemma SizeField(region: nat, call: nat, rank: int, bytes: nat)
    requires InRange(region, call, rank, bytes)
    ensures Or(Pack(region, call, rank, 0), bytes) == Pack(region, call, rank, bytes)
  {
    hide Or, Pow2;
    Pow2Table();
    var r := if rank < 0 then -rank else rank;
    var peer := (region * 0x100 + call) * 0x1_0000 + r;
    OrDisjointOf(Pack(region, call, rank, 0), 2 * peer + (if rank < 0 then 1 else 0), 31, bytes);
  }

  // Decoding an encoded key returns region, call and signed rank, and the size rounded
  // down to a multiple of 2^d after d precision steps.
  lemma EncodeDecode(hi: nat, d: nat, region: nat, call: nat, rank: int, size: nat)
    requires d <= PRECISION_BITS && InRange(region, call, rank, size)
    ensures var key := MpiKey(MaskWord(hi, d), region, call, rank, size);
      && key < WORD
      && RegionBits(key) == region
      && CallBits(key) == call
      && RankBits(key) == rank
      && ByteBits(key) == RoundDown(size, d)
  {
    hide And, Or, Pow2, Shift, RoundDown, MpiKey, MaskWord, Pack, RegionBits, CallBits, RankBits, ByteBits, RegionByte,
      KeyRegion, KeyCall, KeyRank, KeyByte;
    EncoderPacks(hi, d, region, call, rank, size);
    SmallByte(region);
    RoundDownIs(size, d);
    Unpack(region, call, rank, RoundDown(size, d));
    DecodersRead(Pack(region, call, rank, RoundDown(size, d)));
  }

  // Re-encoding a key that was stored at precision d with a mask at a coarser precision e
  // gives the key the original event would have had at e.
  lemma ReencodeCoarser(hi: nat, d: nat, hi': nat, e: nat, region: nat, call: nat, rank: int, size: nat)
    requires d <= e <= PRECISION_BITS && InRange(region, call, rank, size)
    ensures var key := MpiKey(MaskWord(hi, d), region, call, rank, size);
      MpiKey(MaskWord(hi', e), RegionBits(key), CallBits(key), RankBits(key), ByteBits(key))
      == MpiKey(MaskWord(hi', e), region, call, rank, size)
  {
    hide And, Or, Pow2, Shift, RoundDown, MpiKey, MaskWord, Pack, RegionBits, CallBits, RankBits, ByteBits;
    EncodeDecode(hi, d, region, call, rank, size);
    RoundDownIs(size, d);
    RoundTwice(size, d, e);
    EncoderPacks(hi', e, region, call, rank, size);
    EncoderPacks(hi', e, region, call, rank, RoundDown(size, d));
  }

  // Two events share a key at precision d exactly when they agree on region, call and rank
  // and their sizes differ only below bit d.
  lemma SameKeyIff(hi: nat, d: nat, r1: nat, c1: nat, k1: int, s1: nat, r2: nat, c2: nat, k2: int, s2: nat)
    requires d <= PRECISION_BITS && InRange(r1, c1, k1, s1) && InRange(r2, c2, k2, s2)
    ensures MpiKey(MaskWord(hi, d), r1, c1, k1, s1) == MpiKey(MaskWord(hi, d), r2, c2, k2, s2)
      <==> r1 == r2 && c1 == c2 && k1 == k2 && Shift(s1, d) == Shift(s2, d)
  {
    hide And, Or, Pow2, Shift, RoundDown, MpiKey, MaskWord, Pack, RegionByte;
    SmallByte(r1);
    SmallByte(r2);
    EncoderPacks(hi, d, r1, c1, k1, s1);
    EncoderPacks(hi, d, r2, c2, k2, s2);
    SamePackIff(r1, c1, k1, RoundDown(s1, d), r2, c2, k2, RoundDown(s2, d));
    RoundSame(s1, s2, d);
    RoundDownIs(s1, d);
    RoundDownIs(s2, d);
  }

  lemma SamePackIff(r1: nat, c1: nat, k1: int, s1: nat, r2: nat, c2: nat, k2: int, s2: nat)
    requires InRange(r1, c1, k1, s1) && InRange(r2, c2, k2, s2)
    ensures Pack(r1, c1, k1, s1) == Pack(r2, c2, k2, s2) <==> r1 == r2 && c1 == c2 && k1 == k2 && s1 == s2
  {
    Unpack(r1, c1, k1, s1);
    Unpack(r2, c2, k2, s2);
  }

  // One precision step: the mask word keeps its flag bits and rounds twice as coarsely;
  // it has no size bit left exactly after 48 steps.
  lemma StepDown(hi: nat, d: nat)
    requires hi < 0x1_0000 && d < PRECISION_BITS
    ensures PrecisionDown(MaskWord(hi, d)) == MaskWord(hi, d + 1)
    ensures And(MaskWord(hi, d + 1), CALL_MASK_BPREC) == 0 <==> d + 1 == PRECISION_BITS
  {
    Pow2Table();
    Pow2Monotone(d + 1, 48);
    StrictPow2(d + 1);
    DownWord(MaskWord(hi, d), hi, Pow2(48) - Pow2(d), Pow2(48) - Pow2(d + 1));
    MaskFields(MaskWord(hi, d + 1), hi, Pow2(48) - Pow2(d + 1));
  }

  lemma DownWord(w: nat, hi: nat, low: nat, low': nat)
    requires hi < 0x1_0000 && low < 0x1_0000_0000_0000 && low' < 0x1_0000_0000_0000
    requires w == hi * 0x1_0000_0000_0000 + low && low * 2 == 0x1_0000_0000_0000 + low'
    ensures PrecisionDown(w) == hi * 0x1_0000_0000_0000 + low'
  {
    Pow2Table();
    MaskFields(w, hi, low);
    var high, doubled := hi * 0x1_0000_0000_0000, low * 2;
    AndLowOf(doubled, CALL_MASK_BPREC, 1, 48, low');
    OrDisjointOf(high, hi, 48, low');
  }

  lemma UpWord(w: nat, hi: nat, low: nat, low': nat)
    requires hi < 0x1_0000 && low < 0x1_0000_0000_0000
    requires w == hi * 0x1_0000_0000_0000 + low && low == 2 * low'
    ensures PrecisionUp(w) == hi * 0x1_0000_0000_0000 + low'
  {
    Pow2Table();
    MaskFields(w, hi, low);
    assert low / 2 == low';
    AndAll(low', CALL_MASK_BPREC, 48);
    OrDisjointOf(hi * 0x1_0000_0000_0000, hi, 48, low');
  }

  // A mask word splits into flag bits and size bits.
  lemma MaskFields(w: nat, hi: nat, low: nat)
    requires hi < 0x1_0000 && low < 0x1_0000_0000_0000 && w == hi * 0x1_0000_0000_0000 + low
    ensures And(w, CALL_MASK_BPREC) == low
    ensures And(w, CALL_MASK_STATE_OPT) == hi * 0x1_0000_0000_0000
  {
    Pow2Table();
    AndLowOf(w, CALL_MASK_BPREC, hi, 48, low);
    AndFieldOf(w, CALL_MASK_STATE_OPT, 0, 16, hi, 48, low);
  }

  lemma StrictPow2(d: nat)
    requires d <= 48
    ensures Pow2(d) == Pow2(48) <==> d == 48
  {
    if d < 48 {
      Pow2Monotone(d + 1, 48);
    }
  }

  // Stepping up again after a step down does not restore the mask word: the top size bit is
  // gone.  The size of an MPI event never reaches that bit, so every size is rounded as before.
  lemma StepUpAfterDown(hi: nat, d: nat, size: nat)
    requires hi < 0x1_0000 && d < PRECISION_BITS && size < 0x8000_0000
    ensures var mask := PrecisionUp(PrecisionDown(MaskWord(hi, d)));
      && mask != MaskWord(hi, d)
      && And(size, And(mask, CALL_MASK_BPREC)) == RoundDown(size, d)
  {
    hide And, Or, PrecisionUp, PrecisionDown, RoundDown;
    Pow2Table();
    StepDown(hi, d);
    Pow2Monotone(d, 47);
    assert Pow2(48) == 2 * Pow2(47) && Pow2(d + 1) == 2 * Pow2(d);
    var low := Pow2(47) - Pow2(d);
    UpWord(MaskWord(hi, d + 1), hi, 2 * low, low);
    MaskFields(hi * 0x1_0000_0000_0000 + low, hi, low);
    Pow2Monotone(31, 47);
    AndHigh(size, 47, d);
  }

  // Logged while no region is current, an event gets region number 255.
  lemma LostRegion(hi: nat, d: nat, call: nat, rank: int, size: nat)
    requires d <= PRECISION_BITS && InRange(0, call, rank, size)
    ensures RegionBits(MpiKey(MaskWord(hi, d), -1, call, rank, size)) == MAXSIZE_REGION
  {
    hide And, Or, Pow2, Shift, RoundDown, MpiKey, MaskWord, Pack, RegionBits, KeyRegion, CallBits, RankBits, ByteBits;
    EncoderPacks(hi, d, -1, call, rank, size);
    RoundDownIs(size, d);
    Unpack(MAXSIZE_REGION, call, rank, RoundDown(size, d));
    DecodersRead(Pack(MAXSIZE_REGION, call, rank, RoundDown(size, d)));
  }
}
