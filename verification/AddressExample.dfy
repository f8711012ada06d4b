/**
 * One address in full (include/gs++/scriptpubkey.hpp, src/cashaddr/cashaddr.cpp): the key hash script of twenty
 * zero bytes and its address on the main network.
 */
module AddressExample {
  import opened Options
  import opened Transactions
  import opened LinearRegister
  import opened CashAddrChecksum
  import opened CashAddrShort
  import opened CashAddr
  import opened CashAddrErrors
  import opened ConvertBits
  import opened Address

  const ZERO_KEY: Script := [0x76, 0xA9, 0x14] + seq(20, _ => 0) + [0x88, 0xAC]

  /** "bitcoincash" */
  const PREFIX: Text := [0x62, 0x69, 0x74, 0x63, 0x6f, 0x69, 0x6e, 0x63, 0x61, 0x73, 0x68]

  /** "bitcoincash:qqqqqqqqqqqqqqqqqqqqqqqqqqqqqqqqqqfnhks603" */
  const ADDRESS: Text := PREFIX + [0x3A] + seq(34, _ => 0x71) + [0x66, 0x6e, 0x68, 0x6b, 0x73, 0x36, 0x30, 0x33]

  const PREFIX_SYMBOLS: seq<Symbol> := [2, 9, 20, 3, 15, 9, 14, 3, 1, 19, 8, 0]
  const CHECKSUM: seq<Symbol> := [9, 19, 23, 22, 16, 26, 15, 17]

  /** The symbols that the checksum covers: prefix, payload and checksum. */
  const COVERED: seq<Symbol> := PREFIX_SYMBOLS + seq(34, _ => 0) + CHECKSUM

  /** The register, three symbols at a time. */
  ghost predicate RunTable(r: Register<Word, Symbol>) {
    && r.Run(0x1, [2, 9, 20]) == 0x8934
    && r.Run(0x8934, [3, 15, 9]) == 0x449a0de9
    && r.Run(0x449a0de9, [14, 3, 1]) == 0xd5ec9a1e50
    && r.Run(0xd5ec9a1e50, [19, 8, 0]) == 0xf669cd6d15
    && r.Run(0xf669cd6d15, [0, 0, 0]) == 0xa8a494e118
    && r.Run(0xa8a494e118, [0, 0, 0]) == 0x5ab8443f6f
    && r.Run(0x5ab8443f6f, [0, 0, 0]) == 0x7ce34ae71d
    && r.Run(0x7ce34ae71d, [0, 0, 0]) == 0xacc5b9687e
    && r.Run(0xacc5b9687e, [0, 0, 0]) == 0x1bc31a7d4f
    && r.Run(0x1bc31a7d4f, [0, 0, 0]) == 0x2a0c9ee33b
    && r.Run(0x2a0c9ee33b, [0, 0, 0]) == 0xf65f531364
    && r.Run(0xf65f531364, [0, 0, 0]) == 0xb6bf957043
    && r.Run(0xb6bf957043, [0, 0, 0]) == 0x3e393005b9
    && r.Run(0x3e393005b9, [0, 0, 0]) == 0x11f80a2a2c
    && r.Run(0x11f80a2a2c, [0, 0, 0]) == 0xa123289bef
    && r.Run(0xa123289bef, [0, 9, 19]) == 0xdaa484c872
    && r.Run(0xdaa484c872, [23, 22, 16]) == 0x46460dfc86
    && r.Run(0x46460dfc86, [26, 15, 17]) == 0x1
  }

  lemma Three1()
    ensures CODE.Run(0x1, [2, 9, 20]) == 0x8934
  {
    assert CODE.Step(0x1, 2) == 0x22 && CODE.Step(0x22, 9) == 0x449 && CODE.Step(0x449, 20) == 0x8934;
    ThreeSteps(CODE, 0x1, 2, 9, 20);
  }

  lemma Three2()
    ensures CODE.Run(0x8934, [3, 15, 9]) == 0x449a0de9
  {
    assert CODE.Step(0x8934, 3) == 0x112683 && CODE.Step(0x112683, 15) == 0x224d06f && CODE.Step(0x224d06f, 9) == 0x449a0de9;
    ThreeSteps(CODE, 0x8934, 3, 15, 9);
  }

  lemma Three3()
    ensures CODE.Run(0x449a0de9, [14, 3, 1]) == 0xd5ec9a1e50
  {
    assert CODE.Step(0x449a0de9, 14) == 0x89341bd2e && CODE.Step(0x89341bd2e, 3) == 0x8a9a8b2ba2 && CODE.Step(0x8a9a8b2ba2, 1) == 0xd5ec9a1e50;
    ThreeSteps(CODE, 0x449a0de9, 14, 3, 1);
  }

  lemma Three4()
    ensures CODE.Run(0xd5ec9a1e50, [19, 8, 0]) == 0xf669cd6d15
  {
    assert CODE.Step(0xd5ec9a1e50, 19) == 0x7445c65529 && CODE.Step(0x7445c65529, 8) == 0xac1f536da6 && CODE.Step(0xac1f536da6, 0) == 0xf669cd6d15;
    ThreeSteps(CODE, 0xd5ec9a1e50, 19, 8, 0);
  }

  lemma Three5()
    ensures CODE.Run(0xf669cd6d15, [0, 0, 0]) == 0xa8a494e118
  {
    assert CODE.Step(0xf669cd6d15, 0) == 0xf7d1778e5e && CODE.Step(0xf7d1778e5e, 0) == 0xc0c62be73e && CODE.Step(0xc0c62be73e, 0) == 0xa8a494e118;
    ThreeSteps(CODE, 0xf669cd6d15, 0, 0, 0);
  }

  lemma Three6()
    ensures CODE.Run(0xa8a494e118, [0, 0, 0]) == 0x5ab8443f6f
  {
    assert CODE.Step(0xa8a494e118, 0) == 0x61113cfad5 && CODE.Step(0x61113cfad5, 0) == 0x7f376b0bcc && CODE.Step(0x7f376b0bcc, 0) == 0x5ab8443f6f;
    ThreeSteps(CODE, 0xa8a494e118, 0, 0, 0);
  }

  lemma Three7()
    ensures CODE.Run(0x5ab8443f6f, [0, 0, 0]) == 0x7ce34ae71d
  {
    assert CODE.Step(0x5ab8443f6f, 0) == 0x1863fd18cb && CODE.Step(0x1863fd18cb, 0) == 0xed3a720ee3 && CODE.Step(0xed3a720ee3, 0) == 0x7ce34ae71d;
    ThreeSteps(CODE, 0x5ab8443f6f, 0, 0, 0);
  }

  lemma Three8()
    ensures CODE.Run(0x7ce34ae71d, [0, 0, 0]) == 0xacc5b9687e
  {
    assert CODE.Step(0x7ce34ae71d, 0) == 0x203c79a54f && CODE.Step(0x203c79a54f, 0) == 0xf4b16b1a24 && CODE.Step(0xf4b16b1a24, 0) == 0xacc5b9687e;
    ThreeSteps(CODE, 0x7ce34ae71d, 0, 0, 0);
  }

  lemma Three9()
    ensures CODE.Run(0xacc5b9687e, [0, 0, 0]) == 0x1bc31a7d4f
  {
    assert CODE.Step(0xacc5b9687e, 0) == 0xed348dd615 && CODE.Step(0xed348dd615, 0) == 0x7d3cb1f9dd && CODE.Step(0x7d3cb1f9dd, 0) == 0x1bc31a7d4f;
    ThreeSteps(CODE, 0xacc5b9687e, 0, 0, 0);
  }

  lemma Three10()
    ensures CODE.Run(0x1bc31a7d4f, [0, 0, 0]) == 0x2a0c9ee33b
  {
    assert CODE.Step(0x1bc31a7d4f, 0) == 0x99269ebe63 && CODE.Step(0x99269ebe63, 0) == 0xdbd9453f93 && CODE.Step(0xdbd9453f93, 0) == 0x2a0c9ee33b;
    ThreeSteps(CODE, 0x1bc31a7d4f, 0, 0, 0);
  }

  lemma Three11()
    ensures CODE.Run(0x2a0c9ee33b, [0, 0, 0]) == 0xf65f531364
  {
    assert CODE.Step(0x2a0c9ee33b, 0) == 0x2a5f3f5ac5 && CODE.Step(0x2a5f3f5ac5, 0) == 0x202b086505 && CODE.Step(0x202b086505, 0) == 0xf65f531364;
    ThreeSteps(CODE, 0x2a0c9ee33b, 0, 0, 0);
  }

  lemma Three12()
    ensures CODE.Run(0xf65f531364, [0, 0, 0]) == 0xb6bf957043
  {
    assert CODE.Step(0xf65f531364, 0) == 0xf102b8407e && CODE.Step(0xf102b8407e, 0) == 0x1abfd2233e && CODE.Step(0x1abfd2233e, 0) == 0xb6bf957043;
    ThreeSteps(CODE, 0xf65f531364, 0, 0, 0);
  }

  lemma Three13()
    ensures CODE.Run(0xb6bf957043, [0, 0, 0]) == 0x3e393005b9
  {
    assert CODE.Step(0xb6bf957043, 0) == 0x4334dfc636 && CODE.Step(0x4334dfc636, 0) == 0xc8b5532468 && CODE.Step(0xc8b5532468, 0) == 0x3e393005b9;
    ThreeSteps(CODE, 0xb6bf957043, 0, 0, 0);
  }

  lemma Three14()
    ensures CODE.Run(0x3e393005b9, [0, 0, 0]) == 0x11f80a2a2c
  {
    assert CODE.Step(0x3e393005b9, 0) == 0xd55d8e1367 && CODE.Step(0xd55d8e1367, 0) == 0x626747f3da && CODE.Step(0x626747f3da, 0) == 0x11f80a2a2c;
    ThreeSteps(CODE, 0x3e393005b9, 0, 0, 0);
  }

  lemma Three15()
    ensures CODE.Run(0x11f80a2a2c, [0, 0, 0]) == 0xa123289bef
  {
    assert CODE.Step(0x11f80a2a2c, 0) == 0x46b628dc62 && CODE.Step(0x46b628dc62, 0) == 0x78ebb06ee8 && CODE.Step(0x78ebb06ee8, 0) == 0xa123289bef;
    ThreeSteps(CODE, 0x11f80a2a2c, 0, 0, 0);
  }

  lemma Three16()
    ensures CODE.Run(0xa123289bef, [0, 9, 19]) == 0xdaa484c872
  {
    assert CODE.Step(0xa123289bef, 0) == 0xc9140f2a54 && CODE.Step(0xc9140f2a54, 9) == 0xa12b1c230 && CODE.Step(0xa12b1c230, 19) == 0xdaa484c872;
    ThreeSteps(CODE, 0xa123289bef, 0, 9, 19);
  }

  lemma Three17()
    ensures CODE.Run(0xdaa484c872, [23, 22, 16]) == 0x46460dfc86
  {
    assert CODE.Step(0xdaa484c872, 23) == 0x5b4a01f0c && CODE.Step(0x5b4a01f0c, 22) == 0xb69403e196 && CODE.Step(0xb69403e196, 16) == 0x46460dfc86;
    ThreeSteps(CODE, 0xdaa484c872, 23, 22, 16);
  }

  lemma Three18()
    ensures CODE.Run(0x46460dfc86, [26, 15, 17]) == 0x1
  {
    assert CODE.Step(0x46460dfc86, 26) == 0x66ef147272 && CODE.Step(0x66ef147272, 15) == 0x80f27a1f23 && CODE.Step(0x80f27a1f23, 17) == 0x1;
    ThreeSteps(CODE, 0x46460dfc86, 26, 15, 17);
  }

  lemma RunTableHolds()
    ensures RunTable(CODE)
  {
    Three1();
    Three2();
    Three3();
    Three4();
    Three5();
    Three6();
    Three7();
    Three8();
    Three9();
    Three10();
    Three11();
    Three12();
    Three13();
    Three14();
    Three15();
    Three16();
    Three17();
    Three18();
  }

  lemma Onward(r: Register<Word, Symbol>, start: Word, v: seq<Symbol>, w: seq<Symbol>, c: Word, c': Word)
    requires r.Run(start, v) == c && r.Run(c, w) == c'
    ensures r.Run(start, v + w) == c'
  {
    RunConcat(r, start, v, w);
  }
  const HALF1: seq<Symbol> :=
    [2, 9, 20] + [3, 15, 9] + [14, 3, 1] + [19, 8, 0] + [0, 0, 0] + [0, 0, 0] + [0, 0, 0] + [0, 0, 0] + [0, 0, 0]
  const HALF2: seq<Symbol> :=
    [0, 0, 0] + [0, 0, 0] + [0, 0, 0] + [0, 0, 0] + [0, 0, 0] + [0, 0, 0] + [0, 9, 19] + [23, 22, 16] + [26, 15, 17]

  lemma FirstHalf(r: Register<Word, Symbol>)
    requires RunTable(r)
    ensures r.Run(0x1, HALF1) == 0x1bc31a7d4f
  {
    var v1 := [2, 9, 20];
    var v2 := v1 + [3, 15, 9];
    Onward(r, 0x1, v1, [3, 15, 9], 0x8934, 0x449a0de9);
    var v3 := v2 + [14, 3, 1];
    Onward(r, 0x1, v2, [14, 3, 1], 0x449a0de9, 0xd5ec9a1e50);
    var v4 := v3 + [19, 8, 0];
    Onward(r, 0x1, v3, [19, 8, 0], 0xd5ec9a1e50, 0xf669cd6d15);
    var v5 := v4 + [0, 0, 0];
    Onward(r, 0x1, v4, [0, 0, 0], 0xf669cd6d15, 0xa8a494e118);
    var v6 := v5 + [0, 0, 0];
    Onward(r, 0x1, v5, [0, 0, 0], 0xa8a494e118, 0x5ab8443f6f);
    var v7 := v6 + [0, 0, 0];
    Onward(r, 0x1, v6, [0, 0, 0], 0x5ab8443f6f, 0x7ce34ae71d);
    var v8 := v7 + [0, 0, 0];
    Onward(r, 0x1, v7, [0, 0, 0], 0x7ce34ae71d, 0xacc5b9687e);
    var v9 := v8 + [0, 0, 0];
    Onward(r, 0x1, v8, [0, 0, 0], 0xacc5b9687e, 0x1bc31a7d4f);
  }

  lemma SecondHalf(r: Register<Word, Symbol>)
    requires RunTable(r)
    ensures r.Run(0x1bc31a7d4f, HALF2) == 0x1
  {
    var v1 := [0, 0, 0];
    var v2 := v1 + [0, 0, 0];
    Onward(r, 0x1bc31a7d4f, v1, [0, 0, 0], 0x2a0c9ee33b, 0xf65f531364);
    var v3 := v2 + [0, 0, 0];
    Onward(r, 0x1bc31a7d4f, v2, [0, 0, 0], 0xf65f531364, 0xb6bf957043);
    var v4 := v3 + [0, 0, 0];
    Onward(r, 0x1bc31a7d4f, v3, [0, 0, 0], 0xb6bf957043, 0x3e393005b9);
    var v5 := v4 + [0, 0, 0];
    Onward(r, 0x1bc31a7d4f, v4, [0, 0, 0], 0x3e393005b9, 0x11f80a2a2c);
    var v6 := v5 + [0, 0, 0];
    Onward(r, 0x1bc31a7d4f, v5, [0, 0, 0], 0x11f80a2a2c, 0xa123289bef);
    var v7 := v6 + [0, 9, 19];
    Onward(r, 0x1bc31a7d4f, v6, [0, 9, 19], 0xa123289bef, 0xdaa484c872);
    var v8 := v7 + [23, 22, 16];
    Onward(r, 0x1bc31a7d4f, v7, [23, 22, 16], 0xdaa484c872, 0x46460dfc86);
    var v9 := v8 + [26, 15, 17];
    Onward(r, 0x1bc31a7d4f, v8, [26, 15, 17], 0x46460dfc86, 0x1);
  }

  lemma Halves()
    ensures HALF1 + HALF2 == COVERED
  {
    var front, back: seq<Symbol> := seq(15, _ => 0), seq(19, _ => 0);
    assert HALF1 == PREFIX_SYMBOLS + front;
    assert HALF2 == back + CHECKSUM;
    assert front + back == seq(34, _ => 0);
    assert PREFIX_SYMBOLS + front + (back + CHECKSUM) == PREFIX_SYMBOLS + (front + back) + CHECKSUM;
  }

  lemma CoveredRun()
    ensures CODE.Run(1, COVERED) == 1
  {
    RunTableHolds();
    FirstHalf(CODE);
    SecondHalf(CODE);
    Onward(CODE, 1, HALF1, HALF2, 0x1bc31a7d4f, 1);
    Halves();
  }

  // ----- The parts -----

  lemma Lows3(a: Byte, b: Byte, c: Byte)
    ensures Lows([a, b, c]) == [LowFive(a), LowFive(b), LowFive(c)]
  {
  }

  lemma LowsOfBitcoin()
    ensures LowFive(0x62) == 2 && LowFive(0x69) == 9 && LowFive(0x74) == 20
    ensures LowFive(0x63) == 3 && LowFive(0x6f) == 15 && LowFive(0x6e) == 14
  {
  }

  lemma LowsOfCash()
    ensures LowFive(0x61) == 1 && LowFive(0x73) == 19 && LowFive(0x68) == 8
  {
  }

  lemma PrefixBytes()
    ensures Expanded(PREFIX) == PREFIX_SYMBOLS
  {
    var s, t, u, v: Text := [0x62, 0x69, 0x74], [0x63, 0x6f, 0x69], [0x6e, 0x63, 0x61], [0x73, 0x68];
    LowsOfBitcoin();
    LowsOfCash();
    Lows3(0x62, 0x69, 0x74);
    Lows3(0x63, 0x6f, 0x69);
    Lows3(0x6e, 0x63, 0x61);
    assert Lows(v) == [LowFive(0x73), LowFive(0x68)];
    LowsConcat(s, t);
    LowsConcat(s + t, u);
    LowsConcat(s + t + u, v);
    assert s + t + u + v == PREFIX;
    assert Expanded(PREFIX) == Lows(PREFIX) + [0];
  }

  lemma ChecksumIs()
    ensures Checksum(Expanded(PREFIX) + seq(34, _ => 0)) == CHECKSUM
  {
    var sy: seq<Symbol> := seq(34, _ => 0);
    CoveredRun();
    PrefixBytes();
    XorOne(Remainder(COVERED));
    ChecksumUnique(Expanded(PREFIX) + sy, CHECKSUM);
  }

  lemma TextIs()
    ensures Encoded(PREFIX, seq(34, _ => 0)) == ADDRESS
  {
    var sy: seq<Symbol> := seq(34, _ => 0);
    ChecksumIs();
    LastChars();
    assert Chars(sy + CHECKSUM) == Chars(sy) + Chars(CHECKSUM);
    assert Chars(sy) == seq(34, _ => 0x71);
  }

  lemma LastChars()
    ensures CharOf(0) == 0x71 && Chars(CHECKSUM) == [0x66, 0x6e, 0x68, 0x6b, 0x73, 0x36, 0x30, 0x33]
  {
  }

  lemma {:induction false} ZeroValue(n: nat, width: nat)
    ensures Value(seq(n, _ => 0), width) == 0
  {
    if n > 0 {
      var zeros: Digits := seq(n, _ => 0);
      ZeroValue(n - 1, width);
      assert zeros[..n - 1] == seq(n - 1, _ => 0);
    }
  }

  /** The address of the script. */
  lemma ZeroKeyAddress()
    ensures IsAddressOf(ADDRESS, ZERO_KEY, PREFIX)
  {
    var sy: seq<Symbol> := seq(34, _ => 0);
    var data: seq<Byte> := seq(21, _ => 0);
    PayloadExactly(ZERO_KEY, data);
    assert Payload(ZERO_KEY) == Some(data);
    ZeroValue(21, 8);
    ZeroValue(34, 5);
    SmallPowers();
    assert AsDigits(sy) == seq(34, _ => 0);
    assert Padded(data, 8, 5, AsDigits(sy));
    TextIs();
  }
}
