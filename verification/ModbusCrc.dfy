/** The CRC-16 of the Modbus serial line protocol (MODBUS over Serial Line V1.02, section 6.2.2). */
module ModbusCrc {

  import opened Common

  // ---------------------------------------------------------------- the shift register

  function Shift(c: bv16): bv16 {
    if c & 1 == 1 then (c >> 1) ^ 0xA001 else c >> 1
  }

  function ShiftN(c: bv16, n: nat): bv16 {
    if n == 0 then c else Shift(ShiftN(c, n - 1))
  }

  function Step(c: bv16, b: Byte): bv16 {
    ShiftN(X(c, b as bv16), 8)
  }

  function CrcFrom(c: bv16, data: seq<Byte>): bv16 {
    if data == [] then c else Step(CrcFrom(c, data[..|data| - 1]), data[|data| - 1])
  }

  function Crc(data: seq<Byte>): bv16 {
    CrcFrom(0xFFFF, data)
  }

  function Low(c: bv16): Byte { (c & 0xFF) as Byte }

  function High(c: bv16): Byte { ((c >> 8) & 0xFF) as Byte }

  /** The register starts with all bits set; one bit of a byte shifts it by one and feeds back the generator polynomial
      when the bit that leaves it is set. */
  lemma RegisterMeaning(c: bv16)
    ensures Crc([]) == 0xFFFF
    ensures Shift(2 * c) == (2 * c) >> 1 && Shift(2 * c + 1) == ((2 * c + 1) >> 1) ^ 0xA001
    ensures Low(c) as bv16 == c & 0xFF && High(c) as bv16 == c >> 8
  {
  }

  /** The worked example of the standard (appendix B): the checksum of 02 07 is 0x1241, sent as 41 12. */
  lemma StandardExample()
    ensures Crc([0x02, 0x07]) == 0x1241 && Low(0x1241) == 0x41 && High(0x1241) == 0x12
  {
    assert [0x02, 0x07][..1] == [0x02] && [0x02][..0] == [];
    FirstByte();
    SecondByte();
    hide Step;
    assert Crc([]) == 0xFFFF && CrcFrom(0xFFFF, [0x02]) == Step(0xFFFF, 0x02);
  }

  lemma FirstByte()
    ensures Step(0xFFFF, 0x02) == 0x813E
  {
    EightShifts(0xFFFD);
  }

  lemma SecondByte()
    ensures Step(0x813E, 0x07) == 0x1241
  {
    EightShifts(0x8139);
  }

  lemma EightShifts(c: bv16)
    ensures ShiftN(c, 8) == Shift(Shift(Shift(Shift(Shift(Shift(Shift(Shift(c))))))))
  {
    hide Shift;
    assert ShiftN(c, 1) == Shift(c) && ShiftN(c, 2) == Shift(ShiftN(c, 1)) && ShiftN(c, 3) == Shift(ShiftN(c, 2));
    assert ShiftN(c, 4) == Shift(ShiftN(c, 3)) && ShiftN(c, 5) == Shift(ShiftN(c, 4));
    assert ShiftN(c, 6) == Shift(ShiftN(c, 5)) && ShiftN(c, 7) == Shift(ShiftN(c, 6));
  }

  // ---------------------------------------------------------------- the code

  method Crc16Modbus(data: seq<Byte>) returns (crc: bv16)
    ensures crc == Crc(data)
  {
    crc := 0xFFFF;
    var i := 0;
    while i < |data|
      invariant 0 <= i <= |data|
      invariant crc == Crc(data[..i])
    {
      ghost var before := crc;
      crc := crc ^ (data[i] as bv16);
      var j := 0;
      while j < 8
        invariant 0 <= j <= 8
        invariant crc == ShiftN(X(before, data[i] as bv16), j)
      {
        if crc & 0x0001 == 1 {
          crc := (crc >> 1) ^ 0xA001;
        } else {
          crc := crc >> 1;
        }
        j := j + 1;
      }
      assert data[..i + 1][..i] == data[..i];
      i := i + 1;
    }
    assert data[..i] == data;
  }

  method AppendCrc(frame: seq<Byte>) returns (out: seq<Byte>)
    ensures out == frame + [Low(Crc(frame)), High(Crc(frame))]
    ensures Crc(out) == 0
    ensures frame != [] ==> Accepted(out)
  {
    var crc := Crc16Modbus(frame);
    out := frame;
    out := out + [(crc & 0xFF) as Byte];
    out := out + [((crc >> 8) & 0xFF) as Byte];
    assert out == frame + [Low(crc), High(crc)];
    ResidueZero(frame, Low(crc), High(crc));
    assert out[..|out| - 2] == frame;
  }

  /** What verifyModbusCRC tests: the last two bytes are the checksum of the rest, low byte first. */
  predicate Accepted(frame: seq<Byte>) {
    && |frame| >= 3
    && frame[|frame| - 2] == Low(Crc(frame[..|frame| - 2]))
    && frame[|frame| - 1] == High(Crc(frame[..|frame| - 2]))
  }

  method VerifyCrc(frame: seq<Byte>) returns (ok: bool)
    ensures ok <==> |frame| >= 3 && Crc(frame) == 0
    ensures ok <==> Accepted(frame)
  {
    if |frame| < 3 { return false; }
    hide Crc, Low, High;
    var crc := Crc16Modbus(frame[..|frame| - 2]);
    var lo := frame[|frame| - 2];
    var hi := frame[|frame| - 1];
    assert frame == frame[..|frame| - 2] + [lo, hi];
    ResidueZero(frame[..|frame| - 2], lo, hi);
    ok := Low(crc) == lo && High(crc) == hi;
  }

  // ---------------------------------------------------------------- linearity and invertibility

  /** Exclusive or, named so that proofs can treat it as a symbol. */
  function X(a: bv16, b: bv16): bv16 { a ^ b }

  lemma OddOrEven(a: bv16)
    ensures a & 1 == 1 || a & 1 == 0
  {
  }

  lemma ShiftOddOdd(a: bv16, b: bv16)
    requires a & 1 == 1 && b & 1 == 1
    ensures Shift(X(a, b)) == X(Shift(a), Shift(b))
  {
  }

  lemma ShiftOddEven(a: bv16, b: bv16)
    requires a & 1 == 1 && b & 1 == 0
    ensures Shift(X(a, b)) == X(Shift(a), Shift(b)) && Shift(X(b, a)) == X(Shift(b), Shift(a))
  {
  }

  lemma ShiftEvenEven(a: bv16, b: bv16)
    requires a & 1 == 0 && b & 1 == 0
    ensures Shift(X(a, b)) == X(Shift(a), Shift(b))
  {
  }

  lemma ShiftLinear(a: bv16, b: bv16)
    ensures Shift(X(a, b)) == X(Shift(a), Shift(b))
  {
    hide X, Shift;
    OddOrEven(a);
    OddOrEven(b);
    if a & 1 == 1 && b & 1 == 1 {
      ShiftOddOdd(a, b);
    } else if a & 1 == 1 {
      ShiftOddEven(a, b);
    } else if b & 1 == 1 {
      ShiftOddEven(b, a);
    } else {
      ShiftEvenEven(a, b);
    }
  }

  lemma ShiftInjective(a: bv16)
    requires Shift(a) == 0
    ensures a == 0
  {
  }

  lemma XorZero(a: bv16, b: bv16)
    ensures X(a, b) == 0 <==> a == b
  {
    if X(a, b) == 0 {
      assert a == (a ^ b) ^ b;
      assert 0 ^ b == b;
    } else {
      assert a == b ==> a ^ b == 0;
    }
  }

  lemma {:induction false} ShiftNLinear(a: bv16, b: bv16, n: nat)
    ensures ShiftN(X(a, b), n) == X(ShiftN(a, n), ShiftN(b, n))
  {
    hide X, Shift;
    if n > 0 {
      ShiftNLinear(a, b, n - 1);
      ShiftLinear(ShiftN(a, n - 1), ShiftN(b, n - 1));
    }
  }

  lemma {:induction false} ShiftNZero(a: bv16, n: nat)
    ensures ShiftN(a, n) == 0 <==> a == 0
  {
    if n > 0 {
      ShiftNZero(a, n - 1);
      if ShiftN(a, n) == 0 {
        ShiftInjective(ShiftN(a, n - 1));
      }
    }
  }

  lemma {:induction false} ShiftNInjective(a: bv16, b: bv16, n: nat)
    requires ShiftN(a, n) == ShiftN(b, n)
    ensures a == b
  {
    hide X, ShiftN;
    ShiftNLinear(a, b, n);
    XorZero(ShiftN(a, n), ShiftN(b, n));
    ShiftNZero(X(a, b), n);
    XorZero(a, b);
  }

  /** Eight shifts of a value with an empty low byte only move its high byte down. */
  lemma ShiftHighByte(h: Byte)
    ensures ShiftN((h as bv16) << 8, 8) == h as bv16
  {
    var x := (h as bv16) << 8;
    assert ShiftN(x, 1) == x >> 1;
    assert ShiftN(x, 2) == x >> 2;
    assert ShiftN(x, 3) == x >> 3;
    assert ShiftN(x, 4) == x >> 4;
    assert ShiftN(x, 5) == x >> 5;
    assert ShiftN(x, 6) == x >> 6;
    assert ShiftN(x, 7) == x >> 7;
    assert ShiftN(x, 8) == x >> 8;
  }

  lemma SplitWord(c: bv16, lo: Byte, hi: Byte)
    ensures X(c, lo as bv16) == (hi as bv16) << 8 <==> lo == Low(c) && hi == High(c)
  {
  }

  lemma StepTwo(c: bv16, lo: Byte, hi: Byte)
    ensures Step(Step(c, lo), hi) == 0 <==> X(c, lo as bv16) == (hi as bv16) << 8
  {
    hide X, ShiftN;
    var h := hi as bv16;
    ShiftNZero(X(Step(c, lo), h), 8);
    XorZero(Step(c, lo), h);
    ShiftHighByte(hi);
    if ShiftN(X(c, lo as bv16), 8) == ShiftN(h << 8, 8) {
      ShiftNInjective(X(c, lo as bv16), h << 8, 8);
    }
  }

  lemma {:induction false} CrcFromConcat(c: bv16, a: seq<Byte>, b: seq<Byte>)
    ensures CrcFrom(c, a + b) == CrcFrom(CrcFrom(c, a), b)
    decreases |b|
  {
    if b == [] {
      assert a + b == a;
    } else {
      var n := |b| - 1;
      assert (a + b)[..|a + b| - 1] == a + b[..n];
      CrcFromConcat(c, a, b[..n]);
    }
  }

  lemma CrcPair(c: bv16, x: Byte, y: Byte)
    ensures CrcFrom(c, [x, y]) == Step(Step(c, x), y)
  {
    assert [x, y][..1] == [x];
    assert [x][..0] == [];
    assert CrcFrom(c, [x]) == Step(c, x);
  }

  /** The checksum of a whole frame is zero exactly when its last two bytes are the checksum of the rest. */
  lemma ResidueZero(frame: seq<Byte>, lo: Byte, hi: Byte)
    ensures Crc(frame + [lo, hi]) == 0 <==> lo == Low(Crc(frame)) && hi == High(Crc(frame))
  {
    CrcFromConcat(0xFFFF, frame, [lo, hi]);
    CrcPair(Crc(frame), lo, hi);
    StepTwo(Crc(frame), lo, hi);
    SplitWord(Crc(frame), lo, hi);
  }

  // ---------------------------------------------------------------- corrupted frames

  function Xor(a: seq<Byte>, b: seq<Byte>): (r: seq<Byte>)
    requires |a| == |b|
    ensures |r| == |a|
    ensures forall i :: 0 <= i < |a| ==> r[i] == a[i] ^ b[i]
  {
    seq(|a|, i requires 0 <= i < |a| => a[i] ^ b[i])
  }

  lemma ByteXor(x: Byte, y: Byte)
    ensures X(x as bv16, y as bv16) == (x ^ y) as bv16
  {
  }

  lemma XorAssoc(a: bv16, b: bv16, c: bv16)
    ensures X(X(a, b), c) == X(a, X(b, c))
  {
  }

  lemma XorComm(a: bv16, b: bv16)
    ensures X(a, b) == X(b, a)
  {
  }

  lemma XorPairs(c: bv16, d: bv16, v: bv16, w: bv16)
    ensures X(X(c, v), X(d, w)) == X(X(c, d), X(v, w))
  {
    hide X;
    XorAssoc(c, v, X(d, w));
    XorAssoc(v, d, w);
    XorComm(v, d);
    XorAssoc(d, v, w);
    XorAssoc(c, d, X(v, w));
  }

  lemma StepLinear(c: bv16, d: bv16, x: Byte, y: Byte)
    ensures X(Step(c, x), Step(d, y)) == Step(X(c, d), x ^ y)
  {
    hide X, ShiftN;
    var v, w := x as bv16, y as bv16;
    ByteXor(x, y);
    ShiftNLinear(X(c, v), X(d, w), 8);
    XorPairs(c, d, v, w);
  }

  /** The checksums of two frames differ by the checksum, from zero, of their bytewise difference. */
  lemma {:induction false} CrcDifference(c: bv16, d: bv16, a: seq<Byte>, b: seq<Byte>)
    requires |a| == |b|
    ensures X(CrcFrom(c, a), CrcFrom(d, b)) == CrcFrom(X(c, d), Xor(a, b))
  {
    hide Step, X;
    if a == [] {
    } else {
      var n := |a| - 1;
      CrcDifference(c, d, a[..n], b[..n]);
      assert Xor(a, b)[..n] == Xor(a[..n], b[..n]);
      StepLinear(CrcFrom(c, a[..n]), CrcFrom(d, b[..n]), a[n], b[n]);
    }
  }

  predicate Zeros(s: seq<Byte>) { forall i :: 0 <= i < |s| ==> s[i] == 0 }

  /** Zero bytes neither create nor cancel a difference. */
  lemma {:induction false} CrcZeros(c: bv16, s: seq<Byte>)
    requires Zeros(s)
    ensures CrcFrom(c, s) == 0 <==> c == 0
  {
    if s != [] {
      var n := |s| - 1;
      CrcZeros(c, s[..n]);
      var d := CrcFrom(c, s[..n]);
      assert X(d, 0) == d;
      ShiftNZero(d, 8);
    }
  }

  function ShiftEight(c: bv16): bv16 {
    Shift(Shift(Shift(Shift(Shift(Shift(Shift(Shift(c))))))))
  }

  /** A byte whose low k bits are clear and whose eight shifts stay below bit 8 + k is zero. */
  lemma ShortBurst(x: bv16, k: nat)
    requires k <= 7 && x < 256
    requires x & (((1 as bv16) << k) - 1) == 0
    requires ShiftEight(x) >> (8 + k) == 0
    ensures x == 0
  {
    if k == 0 {
    } else if k == 1 {
    } else if k == 2 {
    } else if k == 3 {
    } else if k == 4 {
    } else if k == 5 {
    } else if k == 6 {
    } else {
    }
  }

  predicate Bit(x: Byte, j: nat)
    requires j < 8
  {
    (x >> j) & 1 == 1
  }

  lemma LowBitsClear(x: Byte, k: nat)
    requires k <= 8 && forall j :: 0 <= j < k ==> !Bit(x, j)
    ensures k <= 7 ==> (x as bv16) & (((1 as bv16) << k) - 1) == 0
    ensures k == 8 ==> x == 0
  {
    assert k > 0 ==> !Bit(x, 0);
    assert k > 1 ==> !Bit(x, 1);
    assert k > 2 ==> !Bit(x, 2);
    assert k > 3 ==> !Bit(x, 3);
    assert k > 4 ==> !Bit(x, 4);
    assert k > 5 ==> !Bit(x, 5);
    assert k > 6 ==> !Bit(x, 6);
    assert k > 7 ==> !Bit(x, 7);
    if k == 0 {
    } else if k == 1 {
    } else if k == 2 {
    } else if k == 3 {
    } else if k == 4 {
    } else if k == 5 {
    } else if k == 6 {
    } else if k == 7 {
    } else {
    }
  }

  lemma HighBitsClear(z: Byte, k: nat)
    requires k <= 7 && forall j :: k <= j < 8 ==> !Bit(z, j)
    ensures z >> k == 0
  {
    assert k <= 0 ==> !Bit(z, 0);
    assert k <= 1 ==> !Bit(z, 1);
    assert k <= 2 ==> !Bit(z, 2);
    assert k <= 3 ==> !Bit(z, 3);
    assert k <= 4 ==> !Bit(z, 4);
    assert k <= 5 ==> !Bit(z, 5);
    assert k <= 6 ==> !Bit(z, 6);
    assert !Bit(z, 7);
    if k == 0 {
    } else if k == 1 {
    } else if k == 2 {
    } else if k == 3 {
    } else if k == 4 {
    } else if k == 5 {
    } else if k == 6 {
    } else {
    }
  }

  function Word(y: Byte, z: Byte): bv16 { X(y as bv16, (z as bv16) << 8) }

  lemma WordFacts(y: Byte, z: Byte, k: nat)
    requires k <= 7
    ensures z >> k == 0 ==> Word(y, z) >> (8 + k) == 0
    ensures Word(y, z) == 0 ==> y == 0 && z == 0
  {
    if k == 0 {
    } else if k == 1 {
    } else if k == 2 {
    } else if k == 3 {
    } else if k == 4 {
    } else if k == 5 {
    } else if k == 6 {
    } else {
    }
  }

  lemma ShiftEightIs(c: bv16)
    ensures ShiftN(c, 8) == ShiftEight(c)
  {
    hide Shift;
    assert ShiftN(c, 1) == Shift(c);
    assert ShiftN(c, 2) == Shift(Shift(c));
    assert ShiftN(c, 4) == Shift(Shift(Shift(Shift(c))));
    assert ShiftN(c, 6) == Shift(Shift(Shift(Shift(Shift(Shift(c))))));
  }

  /** A difference of at most 16 consecutive bits, spread over three bytes, leaves a non-zero register. */
  lemma ThreeBytes(x: Byte, y: Byte, z: Byte, k: nat)
    requires k <= 7
    requires (x as bv16) & (((1 as bv16) << k) - 1) == 0 && z >> k == 0
    requires x != 0 || y != 0 || z != 0
    ensures Step(Step(Step(0, x), y), z) != 0
  {
    var d := Step(0, x);
    if Step(Step(d, y), z) == 0 {
      BurstSolve(x, y, z);
      WordFacts(y, z, k);
      ShortBurst(x as bv16, k);
      ShiftNZero(0, 8);
      ShiftEightIs(0);
    }
  }

  lemma BurstSolve(x: Byte, y: Byte, z: Byte)
    requires Step(Step(Step(0, x), y), z) == 0
    ensures ShiftEight(x as bv16) == Word(y, z)
  {
    hide X, ShiftN, ShiftEight;
    var v, w := y as bv16, (z as bv16) << 8;
    var d := Step(0, x);
    StepTwo(d, y, z);
    assert X(d, v) == w;
    XorZeroLeft(x as bv16);
    ShiftEightIs(x as bv16);
    XorSolve(d, v, w);
  }

  lemma XorZeroLeft(a: bv16)
    ensures X(0, a) == a
  {
  }

  lemma XorSolve(d: bv16, v: bv16, w: bv16)
    requires X(d, v) == w
    ensures d == X(v, w)
  {
  }

  /** The difference of two frames whose differing bits span at most 16 bit times is not cancelled. */
  lemma BurstCrc(e: seq<Byte>, lo: nat)
    requires !Zeros(e)
    requires forall i, j :: 0 <= i < |e| && 0 <= j < 8 && Bit(e[i], j) ==> lo <= 8 * i + j < lo + 16
    ensures CrcFrom(0, e) != 0
  {
    hide X, Step, Bit, CrcFrom;
    var f := e + [0, 0];
    var m, k := lo / 8, lo % 8;
    forall i | 0 <= i < |e| && !(m <= i <= m + 2)
      ensures e[i] == 0
    {
      LowBitsClear(e[i], 8);
    }
    var i :| 0 <= i < |e| && e[i] != 0;
    assert m <= i <= m + 2;
    LowBitsClear(f[m], k);
    if m + 2 < |e| {
      HighBitsClear(f[m + 2], k);
    }
    ZeroShift(k);
    assert f[i] != 0;
    ThreeBytes(f[m], f[m + 1], f[m + 2], k);
    MiddleCrc(f, m);
    CrcFromConcat(0, e, [0, 0]);
    CrcZeros(CrcFrom(0, e), [0, 0]);
  }

  lemma MiddleCrc(f: seq<Byte>, m: nat)
    requires m + 3 <= |f| && Zeros(f[..m]) && Zeros(f[m + 3..])
    ensures CrcFrom(0, f) == 0 <==> Step(Step(Step(0, f[m]), f[m + 1]), f[m + 2]) == 0
  {
    hide CrcFrom, Step;
    var mid := [f[m], f[m + 1], f[m + 2]];
    assert f == f[..m] + (mid + f[m + 3..]);
    CrcZeros(0, f[..m]);
    CrcFromConcat(0, f[..m], mid + f[m + 3..]);
    CrcFromConcat(0, mid, f[m + 3..]);
    CrcTriple(f[m], f[m + 1], f[m + 2]);
    CrcZeros(CrcFrom(0, mid), f[m + 3..]);
  }

  lemma ZeroShift(k: nat)
    requires k <= 7
    ensures (0 as Byte) >> k == 0
  {
  }

  lemma CrcTriple(x: Byte, y: Byte, z: Byte)
    ensures CrcFrom(0, [x, y, z]) == Step(Step(Step(0, x), y), z)
  {
    hide Step;
    assert [x, y, z][..2] == [x, y];
    CrcPair(0, x, y);
  }

  /** All differing bits of two frames were sent within n bit times from time lo on; bit j of byte i
      is sent at time 8 * i + j, low bits first. */
  predicate Burst(a: seq<Byte>, b: seq<Byte>, lo: nat, n: nat)
    requires |a| == |b|
  {
    forall i, j :: 0 <= i < |a| && 0 <= j < 8 && Bit(Xor(a, b)[i], j) ==> lo <= 8 * i + j < lo + n
  }

  /** No accepted frame becomes another accepted one through a burst error of at most 16 bits. */
  lemma BurstRejected(a: seq<Byte>, b: seq<Byte>, lo: nat)
    requires |a| == |b| && a != b && |a| >= 3
    requires Crc(a) == 0 && Burst(a, b, lo, 16)
    ensures Crc(b) != 0
  {
    hide Bit, CrcFrom, X;
    var e := Xor(a, b);
    var i :| 0 <= i < |a| && a[i] != b[i];
    ByteDiffers(a[i], b[i]);
    assert e[i] != 0;
    BurstCrc(e, lo);
    CrcDifference(0xFFFF, 0xFFFF, a, b);
    XorZero(0xFFFF, 0xFFFF);
    XorZero(Crc(a), Crc(b));
  }

  lemma ByteDiffers(x: Byte, y: Byte)
    ensures x ^ y == 0 <==> x == y
  {
  }

  /** In particular a corruption confined to one byte, or to two adjacent bytes, is always rejected. */
  lemma AdjacentBytesRejected(a: seq<Byte>, b: seq<Byte>, p: nat)
    requires |a| == |b| && a != b && Accepted(a)
    requires forall i :: 0 <= i < |a| && i != p && i != p + 1 ==> a[i] == b[i]
    ensures !Accepted(b)
  {
    hide Crc, Low, High;
    var n := |a|;
    ResidueZero(a[..n - 2], a[n - 2], a[n - 1]);
    ResidueZero(b[..n - 2], b[n - 2], b[n - 1]);
    assert a == a[..n - 2] + [a[n - 2], a[n - 1]];
    assert b == b[..n - 2] + [b[n - 2], b[n - 1]];
    forall i, j | 0 <= i < n && 0 <= j < 8 && i != p && i != p + 1
      ensures !Bit(Xor(a, b)[i], j)
    {
      NoBit(a[i], j);
    }
    BurstRejected(a, b, 8 * p);
  }

  lemma NoBit(x: Byte, j: nat)
    requires j < 8
    ensures !Bit(x ^ x, j)
  {
    assert x ^ x == 0;
    ZeroShift(if j <= 7 then j else 7);
  }
}
