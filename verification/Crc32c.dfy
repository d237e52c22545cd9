/** CRC32C (Castagnoli), section 12.1 of RFC 3720, as the bit-at-a-time fold. */
module Crc32c {
  import opened Bytes

  const POLYNOMIAL: bv32 := 0x82F63B78
  const ALL_ONES: bv32 := 0xFFFFFFFF

  function BitStep(crc: bv32): bv32 {
    if crc & 1 != 0 then (crc >> 1) ^ POLYNOMIAL else crc >> 1
  }

  function Invert(crc: bv32): bv32 { crc ^ ALL_ONES }

  function BitSteps(crc: bv32, n: nat): bv32
    decreases n, crc
  {
    if n == 0 then crc else BitStep(BitSteps(crc, n - 1))
  }

  function ByteStep(crc: bv32, b: Byte): bv32 {
    BitSteps(crc ^ (b as bv32), 8)
  }

  type Register = bv32
  type Stepper = (Register, Byte) -> Register

  /** The register after feeding `data` byte by byte. */
  function Fold(step: Stepper, crc: Register, data: Blob): Register {
    if data == [] then crc else step(Fold(step, crc, data[..|data| - 1]), data[|data| - 1])
  }

  /** Continue a finished checksum over more data: undo the final inversion, fold, invert. */
  function AppendWith(step: Stepper, crc: Register, data: Blob): Register {
    Invert(Fold(step, Invert(crc), data))
  }

  function Append(crc: Register, data: Blob): Register {
    AppendWith(ByteStep, crc, data)
  }

  function Checksum(data: Blob): Register {
    Append(0, data)
  }

  lemma {:induction false} FoldConcat(step: Stepper, crc: Register, a: Blob, b: Blob)
    ensures Fold(step, crc, a + b) == Fold(step, Fold(step, crc, a), b)
  {
    if b == [] {
      assert a + b == a;
    } else {
      FoldConcat(step, crc, a, b[..|b| - 1]);
      assert (a + b)[..|a + b| - 1] == a + b[..|b| - 1];
    }
  }

  lemma InvertTwice(x: Register)
    ensures Invert(Invert(x)) == x
  {}

  lemma AppendWithLaw(step: Stepper, crc: Register, a: Blob, b: Blob)
    ensures AppendWith(step, AppendWith(step, crc, a), b) == AppendWith(step, crc, a + b)
  {
    var start := Invert(crc);
    var middle := Fold(step, start, a);
    FoldConcat(step, start, a, b);
    InvertTwice(middle);
    assert AppendWith(step, Invert(middle), b) == Invert(Fold(step, middle, b));
  }

  /** `crc32c_append(crc32c_append(crc, a), b) == crc32c_append(crc, a ++ b)`. */
  lemma AppendLaw(crc: Register, a: Blob, b: Blob)
    ensures Append(Append(crc, a), b) == Append(crc, a + b)
  {
    AppendWithLaw(ByteStep, crc, a, b);
  }

  /** The inner loop: eight bit steps. */
  method ComputeByteStep(start: bv32, b: Byte) returns (crc: bv32)
    ensures crc == ByteStep(start, b)
  {
    crc := start ^ (b as bv32);
    for k := 0 to 8
      invariant crc == BitSteps(start ^ (b as bv32), k)
    {
      if crc & 1 != 0 {
        crc := (crc >> 1) ^ 0x82F63B78;
      } else {
        crc := crc >> 1;
      }
    }
  }

  /** The outer loop over the bytes, with the initial and final inversion. */
  method ComputeChecksum(data: Blob) returns (crc: bv32)
    ensures crc == Checksum(data)
  {
    crc := 0xFFFFFFFF;
    for i := 0 to |data|
      invariant crc == Fold(ByteStep, 0xFFFFFFFF, data[..i])
    {
      assert data[..i + 1][..i] == data[..i];
      crc := ComputeByteStep(crc, data[i]);
    }
    assert data[..|data|] == data;
    crc := crc ^ 0xFFFFFFFF;
  }

  lemma EightSteps(c: Register)
    ensures BitSteps(c, 8) == BitStep(BitStep(BitStep(BitStep(BitStep(BitStep(BitStep(BitStep(c))))))))
  {
    assert BitSteps(c, 1) == BitStep(c);
    assert BitSteps(c, 2) == BitStep(BitSteps(c, 1));
    assert BitSteps(c, 3) == BitStep(BitSteps(c, 2));
    assert BitSteps(c, 4) == BitStep(BitSteps(c, 3));
    assert BitSteps(c, 5) == BitStep(BitSteps(c, 4));
    assert BitSteps(c, 6) == BitStep(BitSteps(c, 5));
    assert BitSteps(c, 7) == BitStep(BitSteps(c, 6));
  }

  lemma ByteSteps(c: Register, b: Byte)
    ensures ByteStep(c, b) == BitStep(BitStep(BitStep(BitStep(BitStep(BitStep(BitStep(BitStep(c ^ (b as bv32)))))))))
  {
    EightSteps(c ^ (b as bv32));
  }

  lemma FoldSnoc(step: Stepper, crc: Register, data: Blob, b: Byte)
    ensures Fold(step, crc, data + [b]) == step(Fold(step, crc, data), b)
  {
    assert (data + [b])[..|data|] == data;
  }

  lemma Digit1()
    ensures ByteStep(0xFFFFFFFF, 0x31) == 0x6F0A661C
  {
    ByteSteps(0xFFFFFFFF, 0x31);
  }

  lemma Digit2()
    ensures ByteStep(0x6F0A661C, 0x32) == 0x8CAA3B9F
  {
    ByteSteps(0x6F0A661C, 0x32);
  }

  lemma Digit3()
    ensures ByteStep(0x8CAA3B9F, 0x33) == 0xEF84D04D
  {
    ByteSteps(0x8CAA3B9F, 0x33);
  }

  lemma Digit4()
    ensures ByteStep(0xEF84D04D, 0x34) == 0x09C50B11
  {
    ByteSteps(0xEF84D04D, 0x34);
  }

  lemma Digit5()
    ensures ByteStep(0x09C50B11, 0x35) == 0xE72EDCCA
  {
    ByteSteps(0x09C50B11, 0x35);
  }

  lemma Digit6()
    ensures ByteStep(0xE72EDCCA, 0x36) == 0xBECA8E79
  {
    ByteSteps(0xE72EDCCA, 0x36);
  }

  lemma Digit7()
    ensures ByteStep(0xBECA8E79, 0x37) == 0xEDBD6815
  {
    ByteSteps(0xBECA8E79, 0x37);
  }

  lemma Digit8()
    ensures ByteStep(0xEDBD6815, 0x38) == 0x9F787F65
  {
    ByteSteps(0xEDBD6815, 0x38);
  }

  lemma Digit9()
    ensures ByteStep(0x9F787F65, 0x39) == 0x1CF96D7C
  {
    ByteSteps(0x9F787F65, 0x39);
  }

  /** The published check value of CRC32C: the checksum of the digits 1 to 9. */
  lemma CheckValue()
    ensures Checksum([0x31, 0x32, 0x33, 0x34, 0x35, 0x36, 0x37, 0x38, 0x39]) == 0xE3069283
  {
    hide ByteStep, BitSteps;
    var d := [0x31, 0x32, 0x33, 0x34, 0x35, 0x36, 0x37, 0x38, 0x39];
    Digit1();
    FoldSnoc(ByteStep, ALL_ONES, d[..0], d[0]);
    assert d[..0] + [d[0]] == d[..1];
    Digit2();
    FoldSnoc(ByteStep, ALL_ONES, d[..1], d[1]);
    assert d[..1] + [d[1]] == d[..2];
    Digit3();
    FoldSnoc(ByteStep, ALL_ONES, d[..2], d[2]);
    assert d[..2] + [d[2]] == d[..3];
    Digit4();
    FoldSnoc(ByteStep, ALL_ONES, d[..3], d[3]);
    assert d[..3] + [d[3]] == d[..4];
    Digit5();
    FoldSnoc(ByteStep, ALL_ONES, d[..4], d[4]);
    assert d[..4] + [d[4]] == d[..5];
    Digit6();
    FoldSnoc(ByteStep, ALL_ONES, d[..5], d[5]);
    assert d[..5] + [d[5]] == d[..6];
    Digit7();
    FoldSnoc(ByteStep, ALL_ONES, d[..6], d[6]);
    assert d[..6] + [d[6]] == d[..7];
    Digit8();
    FoldSnoc(ByteStep, ALL_ONES, d[..7], d[7]);
    assert d[..7] + [d[7]] == d[..8];
    Digit9();
    FoldSnoc(ByteStep, ALL_ONES, d[..8], d[8]);
    assert d[..8] + [d[8]] == d[..9];
    assert d[..9] == d;
  }
}
