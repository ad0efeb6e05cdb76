/** The hash of the INI dictionary, and which keys cannot collide under it. */
module IniHash {
  import opened Common

  /** A C string, without its terminator. */
  type Str = seq<byte>

  /** The byte as unsigned int; plain char is taken as unsigned, as on the target. */
  function Widened(c: byte): bv32 { Wide(Bits(c)) }

  /** The bit vector whose value is the byte; see BitsValue. */
  function Bits(c: byte): bv8
    decreases c as int
  {
    if c == 0 then 0 else Bits(c - 1) + 1
  }

  function Wide(b: bv8): bv32 { b as bv32 }

  function Plus(x: bv32, y: bv32): bv32 { x + y }

  function Add10(x: bv32): bv32 { x + (x << 10) }

  function Xor6(x: bv32): bv32 { x ^ (x >> 6) }

  function Add3(x: bv32): bv32 { x + (x << 3) }

  function Xor11(x: bv32): bv32 { x ^ (x >> 11) }

  function Add15(x: bv32): bv32 { x + (x << 15) }

  function HashStep(res: bv32, c: byte): bv32 {
    Xor6(Add10(Plus(res, Widened(c))))
  }

  function HashLoop(key: Str): bv32 {
    if key == [] then 0 else HashStep(HashLoop(key[..|key| - 1]), key[|key| - 1])
  }

  function HashEnd(res: bv32): bv32 {
    Add15(Xor11(Add3(res)))
  }

  function HashOf(key: Str): bv32 {
    HashEnd(HashLoop(key))
  }

  /** A null key hashes to 0. */
  method HashForKey(key: Option<Str>) returns (res: bv32)
    ensures res == match key case Some(k) => HashOf(k) case None => 0
  {
    hide HashStep, HashEnd;
    res := 0;
    if key.None? {
      return;
    }
    var k := key.value;
    for i := 0 to |k|
      invariant res == HashLoop(k[..i])
    {
      res := HashStep(res, k[i]);
      assert k[..i + 1][..i] == k[..i];
    }
    assert k[..|k|] == k;
    res := HashEnd(res);
  }

  /** Two values of the hash, which fix its constants. */
  lemma KnownHashes()
    ensures HashOf([97]) == 0xCA2E_9442
    ensures HashOf([97, 98]) == 0x45E6_1E58
  {
    var a: Str, ab: Str := [97], [97, 98];
    assert a[..0] == [] && ab[..1] == a;
    assert Bits(97) == 97 && Bits(98) == 98 by {
      BitsAre(97, 97);
      BitsAre(98, 98);
    }
  }

  // ---------- Every mixing step can be undone ----------

  // x + (x << 10) is x times 1025 and x + (x << 3) is x times 9, both odd, so each has an inverse
  // modulo 2^32. The `Bits` lemmas are about single bit-vector terms; the others lift them to the
  // functions, so that the laws below need no arithmetic.

  function UndoXor6(y: bv32): bv32 { y ^ (y >> 6) ^ (y >> 12) ^ (y >> 18) ^ (y >> 24) ^ (y >> 30) }

  function UndoAdd10(y: bv32): bv32 { y * 0xC00F_FC01 }

  function UndoAdd3(y: bv32): bv32 { y * 0x38E3_8E39 }

  function UndoXor11(y: bv32): bv32 { y ^ (y >> 11) ^ (y >> 22) }

  function UndoAdd15(y: bv32): bv32 { y - (y << 15) + (y << 30) }

  lemma Xor6Bits(x: bv32)
    ensures UndoXor6(x ^ (x >> 6)) == x
  {}

  lemma Add10IsMul(x: bv32)
    ensures x + (x << 10) == x * 1025
  {}

  lemma Add10Bits(x: bv32)
    ensures UndoAdd10(x * 1025) == x
  {}

  lemma Add3Bits(x: bv32)
    ensures UndoAdd3(x + (x << 3)) == x
  {}

  lemma Xor11Bits(x: bv32)
    ensures UndoXor11(x ^ (x >> 11)) == x
  {}

  lemma Add15Bits(x: bv32)
    ensures UndoAdd15(x + (x << 15)) == x
  {}

  lemma Xor6Undone(x: bv32)
    ensures UndoXor6(Xor6(x)) == x
  {
    hide UndoXor6;
    Xor6Bits(x);
  }

  lemma Add10Undone(x: bv32)
    ensures UndoAdd10(Add10(x)) == x
  {
    hide UndoAdd10;
    Add10IsMul(x);
    Add10Bits(x);
  }

  lemma Add3Undone(x: bv32)
    ensures UndoAdd3(Add3(x)) == x
  {
    hide UndoAdd3;
    Add3Bits(x);
  }

  lemma Xor11Undone(x: bv32)
    ensures UndoXor11(Xor11(x)) == x
  {
    hide UndoXor11;
    Xor11Bits(x);
  }

  lemma Add15Undone(x: bv32)
    ensures UndoAdd15(Add15(x)) == x
  {
    hide UndoAdd15;
    Add15Bits(x);
  }

  function Minus(y: bv32, x: bv32): bv32 { y - x }

  lemma SumBits(x: bv32, y: bv32)
    ensures Minus(x + y, x) == y && Minus(x + y, y) == x
  {}

  lemma PlusUndone(x: bv32, y: bv32)
    ensures Minus(Plus(x, y), x) == y && Minus(Plus(x, y), y) == x
  {
    hide Minus;
    SumBits(x, y);
  }

  function Narrow(w: bv32): bv8 { (w & 0xFF) as bv8 }

  lemma WideBits(b: bv8)
    ensures Narrow(b as bv32) == b
  {}

  lemma WideUndone(b: bv8)
    ensures Narrow(Wide(b)) == b
  {
    hide Narrow;
    WideBits(b);
  }

  function Value(b: bv8): int { b as int }

  lemma NextValue(b: bv8)
    requires b as int < 255
    ensures (b + 1) as int == b as int + 1
  {}

  lemma {:induction false} BitsValue(c: byte)
    ensures Value(Bits(c)) == c as int
    decreases c as int
  {
    if c > 0 {
      BitsValue(c - 1);
      NextValue(Bits(c - 1));
    }
  }

  lemma BitsAre(c: byte, b: bv8)
    requires b as int == c as int
    ensures Bits(c) == b
  {
    BitsValue(c);
    SameValue(Bits(c), b);
  }

  lemma SameValue(a: bv8, b: bv8)
    requires Value(a) == b as int
    ensures a == b
  {}

  lemma WidenedDiffer(c: byte, d: byte)
    requires c != d
    ensures Widened(c) != Widened(d)
  {
    hide Bits, Wide, Narrow, Value;
    BitsValue(c);
    BitsValue(d);
    WideUndone(Bits(c));
    WideUndone(Bits(d));
  }

  lemma SameByteBehind(x: bv32, y: bv32, c: byte)
    ensures HashStep(x, c) == HashStep(y, c) <==> x == y
  {
    hide Widened, Plus, Xor6, Add10, UndoXor6, UndoAdd10, Minus;
    Xor6Undone(Add10(Plus(x, Widened(c))));
    Xor6Undone(Add10(Plus(y, Widened(c))));
    Add10Undone(Plus(x, Widened(c)));
    Add10Undone(Plus(y, Widened(c)));
    PlusUndone(x, Widened(c));
    PlusUndone(y, Widened(c));
  }

  lemma OtherByteBehind(x: bv32, c: byte, d: byte)
    requires c != d
    ensures HashStep(x, c) != HashStep(x, d)
  {
    hide Widened, Plus, Xor6, Add10, UndoXor6, UndoAdd10, Minus;
    Xor6Undone(Add10(Plus(x, Widened(c))));
    Xor6Undone(Add10(Plus(x, Widened(d))));
    Add10Undone(Plus(x, Widened(c)));
    Add10Undone(Plus(x, Widened(d)));
    PlusUndone(x, Widened(c));
    PlusUndone(x, Widened(d));
    WidenedDiffer(c, d);
  }

  lemma EndIsInjective(x: bv32, y: bv32)
    ensures HashEnd(x) == HashEnd(y) <==> x == y
  {
    hide Add3, Xor11, Add15, UndoAdd3, UndoXor11, UndoAdd15;
    Add15Undone(Xor11(Add3(x)));
    Add15Undone(Xor11(Add3(y)));
    Xor11Undone(Add3(x));
    Xor11Undone(Add3(y));
    Add3Undone(x);
    Add3Undone(y);
  }

  lemma {:induction false} LoopBehind(a: Str, b: Str, back: Str)
    ensures HashLoop(a + back) == HashLoop(b + back) <==> HashLoop(a) == HashLoop(b)
  {
    hide HashStep;
    if back == [] {
      assert a + back == a && b + back == b;
    } else {
      var n := |back| - 1;
      assert (a + back)[..|a + back| - 1] == a + back[..n] && (b + back)[..|b + back| - 1] == b + back[..n];
      LoopBehind(a, b, back[..n]);
      SameByteBehind(HashLoop(a + back[..n]), HashLoop(b + back[..n]), back[n]);
    }
  }

  /** Whether two keys collide does not depend on what they both end with. */
  lemma CommonEndKeepsCollisions(a: Str, b: Str, back: Str)
    ensures HashOf(a + back) == HashOf(b + back) <==> HashOf(a) == HashOf(b)
  {
    hide HashLoop, HashEnd;
    EndIsInjective(HashLoop(a + back), HashLoop(b + back));
    EndIsInjective(HashLoop(a), HashLoop(b));
    LoopBehind(a, b, back);
  }

  /** Two keys that differ in a single byte never have the same hash. */
  lemma OneByteChangesTheHash(front: Str, c: byte, d: byte, back: Str)
    requires c != d
    ensures HashOf(front + [c] + back) != HashOf(front + [d] + back)
  {
    hide HashStep, HashEnd;
    assert (front + [c])[..|front|] == front == (front + [d])[..|front|];
    OtherByteBehind(HashLoop(front), c, d);
    EndIsInjective(HashLoop(front + [c]), HashLoop(front + [d]));
    CommonEndKeepsCollisions(front + [c], front + [d], back);
  }
}
