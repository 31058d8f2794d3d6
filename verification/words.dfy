/** Byte-addressed memory of a 32-bit machine, and its 32-bit words. */
module Words {
  const W: nat := 0x1_0000_0000

  type Byte = x: nat | x < 256
  type U32 = x: nat | x < W
  type Memory = U32 -> Byte

  // a + b modulo 2^32, for an offset b.
  function Add(a: U32, b: int): U32
    requires 0 - W <= b <= W
  {
    if a + b >= W then a + b - W else if a + b < 0 then a + b + W else a + b
  }

  // How far address x is above address a, going round.
  function Past(x: U32, a: U32): U32 { if x >= a then x - a else x - a + W }

  // Byte k of v, least significant first.
  function ByteOf(v: U32, k: nat): Byte {
    if k == 0 then v % 0x100 else if k == 1 then v / 0x100 % 0x100
    else if k == 2 then v / 0x1_0000 % 0x100 else v / 0x100_0000 % 0x100
  }

  function Join(b0: Byte, b1: Byte, b2: Byte, b3: Byte): U32 {
    b0 + 0x100 * b1 + 0x1_0000 * b2 + 0x100_0000 * b3
  }

  // Dividing by 256, and then again.
  lemma DivideTwice(v: nat)
    ensures v / 0x1_0000 == v / 0x100 / 0x100
  {
    var a, b := v / 0x100, v / 0x100 / 0x100;
    assert v == (b * 0x100 + a % 0x100) * 0x100 + v % 0x100;
  }

  lemma JoinBytes(v: U32)
    ensures Join(ByteOf(v, 0), ByteOf(v, 1), ByteOf(v, 2), ByteOf(v, 3)) == v
  {
    var a, b, c := v / 0x100, v / 0x1_0000, v / 0x100_0000;
    Quotients(v);
    Digits(v, a, b, c);
    TopByte(c);
  }

  lemma Quotients(v: nat)
    ensures v / 0x1_0000 == v / 0x100 / 0x100 && v / 0x100_0000 == v / 0x1_0000 / 0x100
  {
    DivideTwice(v);
    DivideTwice(v / 0x100);
    assert v / 0x100_0000 == v / 0x100 / 0x1_0000;
  }

  lemma TopByte(c: nat)
    requires c < 0x100
    ensures c % 0x100 == c
  {}

  lemma Digits(v: nat, a: nat, b: nat, c: nat)
    requires v < W && a == v / 0x100 && b == a / 0x100 && c == b / 0x100
    ensures v == v % 0x100 + 0x100 * (a % 0x100) + 0x1_0000 * (b % 0x100) + 0x100_0000 * c && c < 0x100
  {}

  // The other way round.
  lemma BytesOfJoin(b0: Byte, b1: Byte, b2: Byte, b3: Byte)
    ensures var v := Join(b0, b1, b2, b3);
      ByteOf(v, 0) == b0 && ByteOf(v, 1) == b1 && ByteOf(v, 2) == b2 && ByteOf(v, 3) == b3
  {
    var v := Join(b0, b1, b2, b3);
    assert v / 0x100 == b1 + 0x100 * b2 + 0x1_0000 * b3;
    assert v / 0x1_0000 == b2 + 0x100 * b3;
    assert v / 0x100_0000 == b3;
  }

  function Load(mem: Memory, a: U32): U32 {
    Join(mem(a), mem(Add(a, 1)), mem(Add(a, 2)), mem(Add(a, 3)))
  }

  // Address x is one of the four bytes of the word at a.
  predicate InWord(x: U32, a: U32) { Past(x, a) < 4 }

  function Store(mem: Memory, a: U32, v: U32): Memory {
    (x: U32) => if InWord(x, a) then ByteOf(v, Past(x, a)) else mem(x)
  }

  // The words at a and b have no byte in common.
  predicate Apart(a: U32, b: U32) { 4 <= Past(b, a) <= W - 4 }

  lemma ByteStored(mem: Memory, a: U32, v: U32, k: nat)
    requires k < 4
    ensures Store(mem, a, v)(Add(a, k)) == ByteOf(v, k)
  {
    var x := Add(a, k);
    assert Past(x, a) == k;
    assert InWord(x, a);
    var f := Store(mem, a, v);
    assert f(x) == (if InWord(x, a) then ByteOf(v, Past(x, a)) else mem(x));
  }

  lemma LoadStored(mem: Memory, a: U32, v: U32)
    ensures Load(Store(mem, a, v), a) == v
  {
    JoinBytes(v);
    ByteStored(mem, a, v, 0);
    ByteStored(mem, a, v, 1);
    ByteStored(mem, a, v, 2);
    ByteStored(mem, a, v, 3);
  }

  lemma LoadSame(mem: Memory, mem': Memory, a: U32)
    requires forall x: U32 :: InWord(x, a) ==> mem(x) == mem'(x)
    ensures Load(mem, a) == Load(mem', a)
  {
    assert InWord(a, a) && InWord(Add(a, 1), a) && InWord(Add(a, 2), a) && InWord(Add(a, 3), a);
  }

  lemma LoadApart(mem: Memory, a: U32, v: U32, b: U32)
    requires Apart(a, b)
    ensures Load(Store(mem, a, v), b) == Load(mem, b)
  {
    forall x: U32 | InWord(x, b) ensures Store(mem, a, v)(x) == mem(x) {
      assert !InWord(x, a);
    }
    LoadSame(Store(mem, a, v), mem, b);
  }
}
