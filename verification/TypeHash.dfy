// strhash of src/files.c, and what it makes of the type the shortcut starts with.
module TypeHash {
  import opened Bits

  const NULL := "NULL"

  // A char is signed, and a negative one fills the upper bits when it is widened.
  function CharBits(c: char): nat {
    var byte := c as int % 0x100;
    if byte < 0x80 then byte else byte + 0xFFFF_FF00
  }

  // The hash is kept in 32 bits.
  function StrHash(s: string): nat {
    if s == "" then 0
    else
      var sum := StrHash(s[..|s| - 1]);
      Xor(Xor(sum * 16 % 0x1_0000_0000, sum / 0x1000_0000), CharBits(s[|s| - 1]))
  }

  // One more character, as long as nothing leaves the word.
  lemma OneMoreChar(s: string, c: char, sum: nat, hi: nat, lo: nat, x: nat)
    requires StrHash(s) == sum < 0x100_0000 && sum * 16 == hi * 0x100 + lo && lo < 0x100
    requires c as int < 0x80 && x == Xor(lo, c as int)
    ensures StrHash(s + [c]) == hi * 0x100 + x
  {
    hide Xor, Pow2;
    assert (s + [c])[..|s|] == s;
    XorZero(sum * 16);
    Pow2Table();
    XorLow(hi, lo, c as int, 8);
  }

  lemma NullHash()
    ensures StrHash(NULL) == 0x4B18C && StrHash(NULL) % 1024 == 396
  {
    hide StrHash, Xor;
    var s0, s1, s2, s3 := "", "" + ['N'], "" + ['N'] + ['U'], "" + ['N'] + ['U'] + ['L'];
    EmptyHash();
    XorBytes();
    OneMoreChar(s0, 'N', 0, 0, 0, 0x4E);
    OneMoreChar(s1, 'U', 0x4E, 0x4, 0xE0, 0xB5);
    OneMoreChar(s2, 'L', 0x4B5, 0x4B, 0x50, 0x1C);
    OneMoreChar(s3, 'L', 0x4B1C, 0x4B1, 0xC0, 0x8C);
    assert s3 + ['L'] == NULL;
  }

  lemma EmptyHash()
    ensures StrHash("") == 0
  {
  }

  lemma XorBytes()
    ensures Xor(0, 0x4E) == 0x4E && Xor(0xE0, 0x55) == 0xB5 && Xor(0x50, 0x4C) == 0x1C && Xor(0xC0, 0x4C) == 0x8C
  {
    hide Xor;
    XorZero(0);
    XorNibble(0, 0, 0, 0, 0, 0, 0, 1, 0, 0);
    XorNibble(0, 4, 0, 0, 0, 0, 1, 1, 1, 0);
    XorNibble(0, 0, 1, 1, 1, 0, 0, 1, 0, 1);
    XorNibble(14, 5, 0, 0, 0, 0, 0, 1, 0, 1);
    XorNibble(0, 0, 0, 1, 0, 1, 0, 1, 0, 0);
    XorNibble(5, 4, 0, 0, 0, 0, 1, 1, 0, 0);
    XorNibble(0, 0, 1, 1, 0, 0, 0, 1, 0, 0);
    XorNibble(12, 4, 0, 0, 0, 0, 1, 1, 0, 0);
  }

  function Differ(x: nat, y: nat): nat {
    if x == y then 0 else 1
  }

  // Four bits more on two words.
  lemma XorNibble(a: nat, b: nat, x3: nat, x2: nat, x1: nat, x0: nat, y3: nat, y2: nat, y1: nat, y0: nat)
    requires x3 < 2 && x2 < 2 && x1 < 2 && x0 < 2 && y3 < 2 && y2 < 2 && y1 < 2 && y0 < 2
    ensures Xor(16 * a + 8 * x3 + 4 * x2 + 2 * x1 + x0, 16 * b + 8 * y3 + 4 * y2 + 2 * y1 + y0)
         == 16 * Xor(a, b) + 8 * Differ(x3, y3) + 4 * Differ(x2, y2) + 2 * Differ(x1, y1) + Differ(x0, y0)
  {
    hide Xor;
    var a3, b3 := 2 * a + x3, 2 * b + y3;
    var a2, b2 := 2 * a3 + x2, 2 * b3 + y2;
    var a1, b1 := 2 * a2 + x1, 2 * b2 + y1;
    XorStep(a3, b3, a, x3, b, y3);
    XorStep(a2, b2, a3, x2, b3, y2);
    XorStep(a1, b1, a2, x1, b2, y1);
    XorStep(2 * a1 + x0, 2 * b1 + y0, a1, x0, b1, y0);
  }
}
