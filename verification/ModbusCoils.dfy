/** Coil packing and unpacking of the Modbus plugin (MODBUS Application Protocol V1.1b3, sections 6.1
    and 6.11), with the response layout of the TCP transport. */
module ModbusCoils {

  import opened Common

  function Mask(j: nat): Byte
    requires j < 8
  {
    if j == 0 then 1 else if j == 1 then 2 else if j == 2 then 4 else if j == 3 then 8
    else if j == 4 then 16 else if j == 5 then 32 else if j == 6 then 64 else 128
  }

  lemma MaskShift(j: nat)
    requires j < 8
    ensures (1 as Byte) << j == Mask(j)
  {
    if j == 0 {
    } else if j == 1 {
    } else if j == 2 {
    } else if j == 3 {
    } else if j == 4 {
    } else if j == 5 {
    } else if j == 6 {
    } else {
    }
  }

  lemma MaskMeets(m: nat, j: nat)
    requires m < 8 && j < 8
    ensures Mask(m) & Mask(j) != 0 <==> m == j
  {
  }

  lemma OrAnd(p: Byte, q: Byte, r: Byte)
    ensures (p | q) & r != 0 <==> p & r != 0 || q & r != 0
  {
  }

  lemma ZeroAnd(r: Byte)
    ensures 0 & r == 0
  {
  }

  predicate Coil(b: Byte, j: nat)
    requires j < 8
  {
    b & Mask(j) != 0
  }

  /** Coil j is the bit of weight 2 to the j. */
  lemma CoilMeaning(b: Byte)
    ensures Coil(b, 0) <==> b & 0x01 != 0
    ensures Coil(b, 1) <==> b & 0x02 != 0
    ensures Coil(b, 2) <==> b & 0x04 != 0
    ensures Coil(b, 3) <==> b & 0x08 != 0
    ensures Coil(b, 4) <==> b & 0x10 != 0
    ensures Coil(b, 5) <==> b & 0x20 != 0
    ensures Coil(b, 6) <==> b & 0x40 != 0
    ensures Coil(b, 7) <==> b & 0x80 != 0
  {
  }

  /** b shows the first n coils of vals from base on, and zeros above them. */
  predicate Shows(b: Byte, vals: seq<bool>, base: nat, n: nat)
    requires n <= 8 && base + n <= |vals|
  {
    forall j :: 0 <= j < 8 ==> (Coil(b, j) <==> j < n && vals[base + j])
  }

  /** data holds the coils of vals, eight to a byte, low bit first, with zero padding. */
  predicate Packs(data: seq<Byte>, vals: seq<bool>) {
    && |data| == (|vals| + 7) / 8
    && forall k :: 0 <= k < |data| ==>
         Shows(data[k], vals, 8 * k, if 8 * k + 8 <= |vals| then 8 else |vals| - 8 * k)
  }

  function Limited(vals: seq<bool>): seq<bool> {
    if |vals| <= 2000 then vals else vals[..2000]
  }

  /** The packing loop: one bit per coil, a byte appended after every eighth coil and at the end. */
  method PackCoils(vals: seq<bool>) returns (data: seq<Byte>)
    ensures Packs(data, vals)
  {
    hide Shows;
    var count := |vals|;
    data := [];
    var byte: Byte := 0;
    var i := 0;
    NoCoils(vals, 0);
    while i < count
      invariant 0 <= i <= count
      invariant |data| == i / 8
      invariant forall k :: 0 <= k < |data| ==> Shows(data[k], vals, 8 * k, 8)
      invariant Shows(byte, vals, 8 * (i / 8), i % 8)
    {
      ghost var before := byte;
      if vals[i] {
        byte := byte | ((1 as Byte) << (i % 8));
      }
      NextCoil(before, byte, vals, 8 * (i / 8), i % 8);
      if i % 8 == 7 {
        data := data + [byte];
        byte := 0;
        NoCoils(vals, i + 1);
      }
      i := i + 1;
    }
    if count % 8 != 0 {
      data := data + [byte];
    }
  }

  /** The worked example of the standard (section 6.11): ten coils are packed into CD 01. */
  method StandardExample() returns (data: seq<Byte>)
    ensures data == [0xCD, 0x01]
  {
    var vals := [true, false, true, true, false, false, true, true, true, false];
    data := PackCoils(vals);
    assert Shows(data[0], vals, 0, 8) && Shows(data[1], vals, 8, 2);
    FullByte(data[0], vals);
    PaddedByte(data[1], vals);
  }

  lemma FullByte(b: Byte, vals: seq<bool>)
    requires |vals| == 10 && Shows(b, vals, 0, 8)
    requires vals[..8] == [true, false, true, true, false, false, true, true]
    ensures b == 0xCD
  {
    CoilMeaning(b);
    hide Coil;
    assert vals[..8][0] && !vals[..8][1] && vals[..8][2] && vals[..8][3];
    assert !vals[..8][4] && !vals[..8][5] && vals[..8][6] && vals[..8][7];
    assert Coil(b, 0) && !Coil(b, 1) && Coil(b, 2) && Coil(b, 3) && !Coil(b, 4) && !Coil(b, 5);
    assert Coil(b, 6) && Coil(b, 7);
  }

  lemma PaddedByte(b: Byte, vals: seq<bool>)
    requires |vals| == 10 && Shows(b, vals, 8, 2) && vals[8] && !vals[9]
    ensures b == 0x01
  {
    CoilMeaning(b);
    hide Coil;
    assert Coil(b, 0) && !Coil(b, 1) && !Coil(b, 2) && !Coil(b, 3) && !Coil(b, 4) && !Coil(b, 5);
    assert !Coil(b, 6) && !Coil(b, 7);
  }

  function ByteOf(n: nat): Byte
    requires n < 256
  {
    n as Byte
  }

  function Value(b: Byte): nat { b as nat }

  lemma Successor(b: Byte)
    requires b < 255
    ensures Value(b + 1) == Value(b) + 1
  {
  }

  lemma ValueDetermines(n: nat, b: Byte)
    requires n < 256 && Value(b) == n
    ensures ByteOf(n) == b
  {
  }

  lemma {:induction false} ByteValue(n: nat)
    requires n < 256
    ensures Value(ByteOf(n)) == n
  {
    if n > 0 {
      ByteValue(n - 1);
      var b := ByteOf(n - 1);
      assert Value(255) == 255;
      ValueNotTop(b);
      hide Value, ByteOf;
      Successor(b);
      ValueDetermines(n, b + 1);
    }
  }

  lemma ValueNotTop(b: Byte)
    requires Value(b) < 255
    ensures b < 255
  {
    assert Value(255) == 255;
  }

  /** A 16-bit value, high byte first. */
  function WordBytes(w: nat): (r: seq<Byte>)
    requires w < 0x1_0000
    ensures |r| == 2
  {
    [ByteOf(w / 256), ByteOf(w % 256)]
  }

  lemma ByteIs(n: nat)
    requires n < 256
    ensures ByteOf(n) as nat == n
  {
    ByteValue(n);
  }

  /** The high byte comes first. */
  lemma WordMeaning(w: nat)
    requires w < 0x1_0000
    ensures (WordBytes(w)[0] as nat) * 256 + WordBytes(w)[1] as nat == w
  {
    ByteIs(w / 256);
    ByteIs(w % 256);
    hide ByteOf;
  }

  /** The write-multiple-coils request: at most 2000 coils, with their count and their byte count. */
  method WriteMultipleCoilsPdu(addr: nat, vals: seq<bool>) returns (pdu: seq<Byte>)
    requires addr < 0x1_0000
    ensures |pdu| == 6 + (|Limited(vals)| + 7) / 8
    ensures pdu[..5] == [0x0F] + WordBytes(addr) + WordBytes(|Limited(vals)|)
    ensures |pdu| - 6 < 256 && pdu[5] == ByteOf(|pdu| - 6)
    ensures Packs(pdu[6..], Limited(vals))
    ensures pdu[0] == 0x0F && (pdu[1] as nat) * 256 + pdu[2] as nat == addr
    ensures (pdu[3] as nat) * 256 + pdu[4] as nat == |Limited(vals)| <= 2000 && pdu[5] as nat == |pdu| - 6
    ensures if |vals| <= 2000 then Limited(vals) == vals else |Limited(vals)| == 2000 && Limited(vals) <= vals
  {
    hide Shows, ByteOf, WordBytes;
    var count := if |vals| <= 2000 then |vals| else 2000;
    var byteCount := (count + 7) / 8;
    var data := PackCoils(Limited(vals));
    var head := [0x0F] + WordBytes(addr) + WordBytes(count);
    pdu := head + [ByteOf(byteCount)] + data;
    assert pdu[6..] == data && pdu[..5] == head;
    WordMeaning(addr);
    WordMeaning(count);
    ByteIs(byteCount);
  }

  lemma NoCoils(vals: seq<bool>, base: nat)
    requires base <= |vals|
    ensures Shows(0, vals, base, 0)
  {
    forall j | 0 <= j < 8
      ensures !Coil(0, j)
    {
      ZeroAnd(Mask(j));
    }
  }

  lemma NextCoil(b: Byte, b': Byte, vals: seq<bool>, base: nat, n: nat)
    requires n < 8 && base + n < |vals| && Shows(b, vals, base, n)
    requires b' == if vals[base + n] then b | ((1 as Byte) << n) else b
    ensures Shows(b', vals, base, n + 1)
  {
    MaskShift(n);
    forall j | 0 <= j < 8
      ensures Coil(b', j) <==> j < n + 1 && vals[base + j]
    {
      assert Coil(b, j) <==> j < n && vals[base + j];
      hide Mask;
      OrAnd(b, Mask(n), Mask(j));
      MaskMeets(n, j);
    }
  }

  // ---------------------------------------------------------------- reading coils

  /** PastEnd: the unpacking read behind the end of the response, with no defined result. */
  datatype ReadResult = Coils(values: seq<bool>) | NoResponse | TooShort | ModbusException(code: Byte) | PastEnd

  /** The first n coils shown by data. */
  function Unpacked(data: seq<Byte>, n: nat): (values: seq<bool>)
    requires n <= 8 * |data|
    ensures |values| == n
    ensures forall i :: 0 <= i < n ==> values[i] == Coil(data[i / 8], i % 8)
  {
    seq(n, i requires 0 <= i < n => Coil(data[i / 8], i % 8))
  }

  /** Parses a TCP response to a read-coils request for count coils; the seven-byte MBAP header comes
      first. The bytes the byte count announces are read without a check that they are there. */
  method ReadCoils(resp: seq<Byte>, count: nat) returns (r: ReadResult)
    ensures resp == [] ==> r == NoResponse
    ensures 0 < |resp| < 12 ==> r == TooShort
    ensures |resp| >= 12 && resp[7] & 0x80 != 0 ==> r == ModbusException(resp[8])
    ensures |resp| >= 12 && resp[7] & 0x80 == 0 && |resp| < 9 + Value(resp[8]) ==> r == PastEnd
    ensures |resp| >= 12 && resp[7] & 0x80 == 0 && |resp| >= 9 + Value(resp[8]) ==>
      r == Coils(Unpacked(resp[9..9 + Value(resp[8])], Min(count, 8 * Value(resp[8]))))
  {
    if |resp| == 0 { return NoResponse; }
    if |resp| < 12 { return TooShort; }
    if resp[7] & 0x80 != 0 { return ModbusException(resp[8]); }
    hide Coil, Unpacked, Value;
    var byteCount := Value(resp[8]);
    ghost var data := resp[9..9 + Min(byteCount, |resp| - 9)];
    var values: seq<bool> := [];
    NoneUnpacked(data);
    var i := 0;
    while i < byteCount
      invariant 0 <= i <= byteCount && i <= |data|
      invariant values == Unpacked(data, Min(count, 8 * i))
    {
      if 9 + i >= |resp| { return PastEnd; }
      var byte := resp[9 + i];
      values := UnpackByte(byte, values, count, data, i);
      i := i + 1;
    }
    assert data == resp[9..9 + byteCount];
    return Coils(values);
  }

  /** A response of twelve bytes that announces sixteen bytes of coils is read past its end. */
  method AnnouncesTooMuch() returns (resp: seq<Byte>, r: ReadResult)
    ensures |resp| == 12 && resp[7] & 0x80 == 0 && Value(resp[8]) == 16 && r == PastEnd
  {
    resp := [0, 0, 0, 0, 0, 6, 1] + [0x01, ByteOf(16)] + [0, 0, 0];
    FunctionCode();
    ByteValue(16);
    r := ReadCoils(resp, 128);
  }

  /** The inner unpacking loop: the bits of byte i, low bit first, until count coils are there. */
  method UnpackByte(byte: Byte, before: seq<bool>, count: nat, ghost data: seq<Byte>, ghost i: nat)
    returns (values: seq<bool>)
    requires i < |data| && data[i] == byte && before == Unpacked(data, Min(count, 8 * i))
    ensures values == Unpacked(data, Min(count, 8 * (i + 1)))
  {
    hide Coil, Unpacked;
    values := before;
    var b := 0;
    while b < 8 && |values| < count
      invariant 0 <= b <= 8
      invariant values == Unpacked(data, Min(count, 8 * i + b))
    {
      CoilBit(byte, b);
      NextUnpacked(data, i, b);
      values := values + [byte & ((1 as Byte) << b) != 0];
      b := b + 1;
    }
  }

  lemma NoneUnpacked(data: seq<Byte>)
    ensures Unpacked(data, 0) == []
  {
  }

  lemma NextUnpacked(data: seq<Byte>, i: nat, b: nat)
    requires i < |data| && b < 8
    ensures Unpacked(data, 8 * i + b + 1) == Unpacked(data, 8 * i + b) + [Coil(data[i], b)]
  {
    hide Coil;
  }

  lemma CoilBit(byte: Byte, b: nat)
    requires b < 8
    ensures byte & ((1 as Byte) << b) != 0 <==> Coil(byte, b)
  {
    MaskShift(b);
  }

  lemma PackedUnpack(data: seq<Byte>, vals: seq<bool>)
    requires Packs(data, vals)
    ensures Unpacked(data, |vals|) == vals
  {
    hide Coil;
    forall i | 0 <= i < |vals|
      ensures Coil(data[i / 8], i % 8) == vals[i]
    {
      var k := i / 8;
      var n := if 8 * k + 8 <= |vals| then 8 else |vals| - 8 * k;
      assert Shows(data[k], vals, 8 * k, n);
      assert i == 8 * k + i % 8 && i % 8 < n;
    }
  }

  /** Writing coils and reading the stored bytes back over TCP returns the original list when there are
      at least 17 coils. A shorter list, although packed correctly, is refused as too short: its whole
      response has at most 11 bytes and the length check asks for 12. */
  method WriteThenRead(mbap: seq<Byte>, addr: nat, vals: seq<bool>) returns (r: ReadResult)
    requires |mbap| == 7 && addr < 0x1_0000
    ensures |vals| >= 17 ==> r == Coils(Limited(vals))
    ensures |vals| < 17 ==> r == TooShort
  {
    hide Coil, Unpacked, Value, ByteOf, Packs, WordBytes;
    var pdu := WriteMultipleCoilsPdu(addr, vals);
    ByteValue(|pdu| - 6);
    r := ReadBack(mbap, pdu[5], pdu[6..], |Limited(vals)|, Limited(vals));
  }

  /** The answer of a device that stored coils as data, parsed. */
  method ReadBack(mbap: seq<Byte>, n: Byte, data: seq<Byte>, count: nat, ghost coils: seq<bool>) returns (r: ReadResult)
    requires |mbap| == 7 && Packs(data, coils) && Value(n) == |data| && count == |coils|
    ensures |coils| >= 17 ==> r == Coils(coils)
    ensures |coils| < 17 ==> r == TooShort
  {
    hide Coil, Unpacked, Value, Shows;
    Layout(mbap, n, data);
    r := ReadCoils(mbap + ([0x01, n] + data), count);
    PackedUnpack(data, coils);
  }

  lemma Layout(mbap: seq<Byte>, n: Byte, data: seq<Byte>)
    requires |mbap| == 7
    ensures var resp := mbap + ([0x01, n] + data);
      |resp| == 9 + |data| && resp[7] & 0x80 == 0 && resp[8] == n && resp[9..9 + |data|] == data
  {
    FunctionCode();
    var resp := mbap + ([0x01, n] + data);
    assert resp[7] == 0x01;
  }

  lemma FunctionCode()
    ensures (0x01 as Byte) & 0x80 == 0
  {
  }
}
