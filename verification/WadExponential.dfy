/** snekmate's 18-decimal exponential, with its wrapping 256-bit operations. */
module WadExponential {
  import opened Arith

  const TWO78: nat := 0x4000_0000000000000000
  const TWO95: nat := 0x80000000_0000000000000000
  const TWO96: nat := 0x1_00000000_0000000000000000
  const LN2_96: nat := 54_916_777_467_707_473_351_141_471_128

  function Unsigned(x: int): nat {
    x % UINT256
  }

  function SignedDiv(a: int, b: int): int {
    if b == 0 then 0 else Signed(TruncDiv(a, b))
  }

  function Shift96(x: int): int {
    x / TWO96
  }

  /** Numerator and denominator of the rational approximation on the reduced argument. */
  function Numerator(x: int): int {
    var y := Signed(Shift96(Signed(Signed(x + 1_346_386_616_545_796_478_920_950_773_328) * x))
                    + 57_155_421_227_552_351_082_224_309_758_442);
    Signed(
      Signed(Signed(Shift96(Signed(Signed(Signed(y + x) - 94_201_549_194_550_492_254_356_042_504_812) * y))
                    + 28_719_021_644_029_726_153_956_944_680_412_240) * x)
      + Signed(4_385_272_521_454_847_904_659_076_985_693_276 * TWO96))
  }

  function Denominator(x: int): int {
    var q0 := Signed(Shift96(Signed(Signed(x - 2_855_989_394_907_223_263_936_484_059_900) * x))
                     + 50_020_603_652_535_783_019_961_831_881_945);
    var q1 := Signed(Shift96(Signed(q0 * x)) - 533_845_033_583_426_703_283_633_433_725_380);
    var q2 := Signed(Shift96(Signed(q1 * x)) + 3_604_857_256_930_695_427_073_651_918_091_429);
    var q3 := Signed(Shift96(Signed(q2 * x)) - 14_423_608_567_350_463_180_887_372_962_807_573);
    Signed(Shift96(Signed(q3 * x)) + 26_449_188_498_355_588_339_934_803_723_976_023)
  }

  function WadExp(x: int): Result<int> {
    if x <= -41_446_531_673_892_822_313 then Ok(0)
    else if x >= 135_305_999_368_893_231_589 then Err(Overflow)
    else
      var scaled := SignedDiv(Signed(x * TWO78), 3_814_697_265_625);
      var k := Signed(Shift96(Signed(SignedDiv(Signed(scaled * TWO96), LN2_96) + TWO95)));
      var reduced := Signed(scaled - Signed(k * LN2_96));
      var r := SignedDiv(Numerator(reduced), Denominator(reduced));
      if 195 < k then Err(Revert("negative shift count"))
      else Ok(Unsigned(Unsigned(r) * 3_822_833_074_963_236_453_042_738_258_902_158_003_155_416_615_667)
              / Pow2(195 - k))
  }
}
