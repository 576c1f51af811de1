/** Published addresses, which between them use every letter of the alphabet, and the hashes they stand for. */
module CashAddrPublished {
  import opened Wrappers
  import opened CashAddrChecksum
  import opened CashAddrCodec
  import opened CashAddrExact

  /** Symbols that spell the version and hash, a checksum that verifies, and their letters make up the address. */
  lemma Publishes(version: bv8, hash: seq<bv8>, network: Network, data: seq<bv8>, checksum: seq<bv8>, text: string)
    requires (version == 0 || version == 8) && |hash| == 20 && network != OtherNet
    requires |data| == 34 && |checksum| == 8 && Symbols(data + checksum)
    requires NumberFrom(0, 32, data) == 4 * NumberFrom(0, 256, [version] + hash)
    requires Run(PrefixState(network), data + checksum) == 1
    requires EncodeSymbols(data + checksum) == text
    ensures EncodeBchAddress(version, hash, network) == Ok(text)
    ensures DecodeBchAddress(text, network) == Ok([version] + hash)
    ensures DecodeBchAddress(AddressPrefix(network).value + ":" + text, network) == Ok([version] + hash)
  {
    hide NumberFrom, ConvertBits, Run, EncodeSymbols, PrefixSymbols, PrefixState, DecodeBchAddress, AddressPrefix,
         Checksum, ChecksumSymbols;
    VersionEncodes(version, hash, network);
    KnownNetwork(network);
    var prefix := AddressPrefix(network).value;
    ConvertBitsNumber([version] + hash);
    var symbols := ConvertBits([version] + hash, 8, 5, true).value;
    assert Pow2(2) == 4;
    assert Symbols(data) by {
      assert (data + checksum)[..34] == data;
    }
    DigitsDetermined(0, 0, symbols, data);
    PrefixReaches(network);
    RunConcat(1, PrefixSymbols(prefix), data + checksum);
    RunsToZero(PrefixSymbols(prefix) + (data + checksum));
    AppendedChecksumHolds(prefix, data);
    ChecksumSymbolsAreSymbols(Checksum(PrefixSymbols(prefix) + data + ZEROS));
    CorruptionDetected(prefix, data + checksum, WithChecksum(prefix, data), 34, 42);
    DecodeEncode(version, hash, network);
  }

  lemma KnownNetwork(network: Network)
    requires network != OtherNet
    ensures AddressPrefix(network).Ok?
  {
  }

  lemma RunsToZero(v: seq<bv8>)
    requires Run(1, v) == 1
    ensures Checksum(v) == 0
  {
  }

  lemma TextConcat(a: seq<bv8>, b: seq<bv8>)
    requires Symbols(a) && Symbols(b)
    ensures Symbols(a + b) && EncodeSymbols(a + b) == EncodeSymbols(a) + EncodeSymbols(b)
  {
  }

  // ----- numbers and states, five bytes or eight symbols at a time

  lemma {:induction false} NumberThrough(base: nat, data: seq<bv8>, r: seq<nat>)
    requires |r| == |data| + 1 && forall i :: 0 <= i < |data| ==> r[i + 1] == r[i] * base + data[i] as int
    ensures NumberFrom(r[0], base, data) == r[|data|]
  {
    if data != [] {
      NumberThrough(base, data[1..], r[1..]);
    }
  }

  lemma {:induction false} RunThrough(v: seq<bv8>, r: seq<bv64>)
    requires |r| == |v| + 1 && forall i :: 0 <= i < |v| ==> r[i + 1] == Step(r[i], v[i])
    ensures Run(r[0], v) == r[|v|]
  {
    hide Step;
    if v != [] {
      RunThrough(v[1..], r[1..]);
    }
  }

  function Power(base: nat, n: nat): nat {
    if n == 0 then 1 else base * Power(base, n - 1)
  }

  lemma Distribute(acc: nat, base: nat, d: nat, p: nat)
    ensures (acc * base + d) * p == acc * (base * p) + d * p
  {
    assert (acc * base + d) * p == acc * base * p + d * p;
  }

  lemma {:induction false} NumberShift(acc: nat, base: nat, data: seq<bv8>)
    ensures NumberFrom(acc, base, data) == acc * Power(base, |data|) + NumberFrom(0, base, data)
    decreases |data|
  {
    if data != [] {
      var d, p := data[0] as int, Power(base, |data| - 1);
      NumberShift(acc * base + d, base, data[1..]);
      NumberShift(0 * base + d, base, data[1..]);
      Distribute(acc, base, d, p);
    }
  }

  lemma Powers()
    ensures Power(256, 5) == Power(32, 8) == 0x100_0000_0000
    ensures Power(256, 1) == 256 && Power(32, 2) == 1024
  {
  }

  lemma SameChunk(acc: nat, bytes: seq<bv8>, symbols: seq<bv8>)
    requires |bytes| == 5 && |symbols| == 8 && NumberFrom(0, 256, bytes) == NumberFrom(0, 32, symbols)
    ensures NumberFrom(acc, 256, bytes) == NumberFrom(acc, 32, symbols)
  {
    hide NumberFrom, Power;
    Powers();
    NumberShift(acc, 256, bytes);
    NumberShift(acc, 32, symbols);
  }

  /** Four chunks and a last byte, which takes two symbols with two bits to spare. */
  lemma Regrouped(a: seq<bv8>, b: seq<bv8>, c: seq<bv8>, d: seq<bv8>, e: seq<bv8>,
                  v: seq<bv8>, w: seq<bv8>, x: seq<bv8>, y: seq<bv8>, z: seq<bv8>)
    requires |a| == |b| == |c| == |d| == 5 && |e| == 1 && |v| == |w| == |x| == |y| == 8 && |z| == 2
    requires NumberFrom(0, 256, a) == NumberFrom(0, 32, v) && NumberFrom(0, 256, b) == NumberFrom(0, 32, w)
    requires NumberFrom(0, 256, c) == NumberFrom(0, 32, x) && NumberFrom(0, 256, d) == NumberFrom(0, 32, y)
    requires 4 * NumberFrom(0, 256, e) == NumberFrom(0, 32, z)
    ensures NumberFrom(0, 32, v + w + x + y + z) == 4 * NumberFrom(0, 256, a + b + c + d + e)
  {
    hide NumberFrom, Power;
    NumberConcat(0, 256, a + b + c + d, e);
    NumberConcat(0, 256, a + b + c, d);
    NumberConcat(0, 256, a + b, c);
    NumberConcat(0, 256, a, b);
    NumberConcat(0, 32, v + w + x + y, z);
    NumberConcat(0, 32, v + w + x, y);
    NumberConcat(0, 32, v + w, x);
    NumberConcat(0, 32, v, w);
    SameChunk(NumberFrom(0, 256, a), b, w);
    SameChunk(NumberFrom(0, 256, a + b), c, x);
    SameChunk(NumberFrom(0, 256, a + b + c), d, y);
    Powers();
    NumberShift(NumberFrom(0, 256, a + b + c + d), 256, e);
    NumberShift(NumberFrom(0, 32, v + w + x + y), 32, z);
  }

  // ----- bitcoincash:qrwlh2l2ghsqefzre5xc5caw2nq52sr64v6kt98ymv

  const MAIN_HASH: seq<bv8> :=
    [221, 251, 171, 234, 69, 224, 12, 164, 67, 205,
     13, 138, 99, 174, 84, 193, 69, 64, 122, 171]

  const MAIN_DATA: seq<bv8> :=
    [0, 3, 14, 31, 23, 10, 31, 10] + [8, 23, 16, 0, 25, 9, 2, 3] + [25, 20, 6, 24, 20, 24, 29, 14]
    + [10, 19, 0, 20, 10, 16, 3, 26] + [21, 12]

  const MAIN_CHECKSUM: seq<bv8> := [26, 22, 11, 5, 7, 4, 27, 12]

  lemma MainNetText0()
    ensures Symbols([0, 3, 14, 31, 23, 10, 31, 10]) && EncodeSymbols([0, 3, 14, 31, 23, 10, 31, 10]) == "qrwlh2l2"
  {
  }

  lemma MainNetRun0()
    ensures Run(0xf669cd6d15, [0, 3, 14, 31, 23, 10, 31, 10]) == 0xede789a509
  {
    hide Run, Step;
    StepIs(0xf669cd6d15, 0); StepIs(0xf7d1778e5e, 3); StepIs(0xc0c62be73d, 14); StepIs(0xa8a494e176, 31);
    StepIs(0x61113cf70a, 23); StepIs(0x7f376ab03b, 10); StepIs(0x5ab8734185, 31); StepIs(0x186512c594, 10);
    RunThrough([0, 3, 14, 31, 23, 10, 31, 10],
               [0xf669cd6d15, 0xf7d1778e5e, 0xc0c62be73d, 0xa8a494e176, 0x61113cf70a,
                0x7f376ab03b, 0x5ab8734185, 0x186512c594, 0xede789a509]);
  }

  lemma MainNetText1()
    ensures Symbols([8, 23, 16, 0, 25, 9, 2, 3]) && EncodeSymbols([8, 23, 16, 0, 25, 9, 2, 3]) == "ghsqefzr"
  {
  }

  lemma MainNetRun1()
    ensures Run(0xede789a509, [8, 23, 16, 0, 25, 9, 2, 3]) == 0x5cc3bfc6f3
  {
    hide Run, Step;
    StepIs(0xede789a509, 8); StepIs(0x675c3f9a55, 23); StepIs(0xb697071bdb, 16); StepIs(0x462692b526, 0);
    StepIs(0x6afcfd4668, 25); StepIs(0x9a7de01214, 9); StepIs(0xb0b690b17a, 2); StepIs(0x821467e114, 3);
    RunThrough([8, 23, 16, 0, 25, 9, 2, 3],
               [0xede789a509, 0x675c3f9a55, 0xb697071bdb, 0x462692b526, 0x6afcfd4668,
                0x9a7de01214, 0xb0b690b17a, 0x821467e114, 0x5cc3bfc6f3]);
  }

  lemma MainNetText2()
    ensures Symbols([25, 20, 6, 24, 20, 24, 29, 14]) && EncodeSymbols([25, 20, 6, 24, 20, 24, 29, 14]) == "e5xc5caw"
  {
  }

  lemma MainNetRun2()
    ensures Run(0x5cc3bfc6f3, [25, 20, 6, 24, 20, 24, 29, 14]) == 0x7c50db0c9c
  {
    hide Run, Step;
    StepIs(0x5cc3bfc6f3, 25); StepIs(0xd71c822b52, 20); StepIs(0x2a46c0f56e, 6); StepIs(0x2314fd9063, 24);
    StepIs(0x91a1edbfbc, 20); StepIs(0x53c5998a06, 24); StepIs(0xaf2af73b92, 29); StepIs(0x90dd47ab88, 14);
    RunThrough([25, 20, 6, 24, 20, 24, 29, 14],
               [0x5cc3bfc6f3, 0xd71c822b52, 0x2a46c0f56e, 0x2314fd9063, 0x91a1edbfbc,
                0x53c5998a06, 0xaf2af73b92, 0x90dd47ab88, 0x7c50db0c9c]);
  }

  lemma MainNetText3()
    ensures Symbols([10, 19, 0, 20, 10, 16, 3, 26]) && EncodeSymbols([10, 19, 0, 20, 10, 16, 3, 26]) == "2nq52sr6"
  {
  }

  lemma MainNetRun3()
    ensures Run(0x7c50db0c9c, [10, 19, 0, 20, 10, 16, 3, 26]) == 0x9a07292f52
  {
    hide Run, Step;
    StepIs(0x7c50db0c9c, 10); StepIs(0x364e44d565, 19); StepIs(0x4341a88695, 0); StepIs(0xc61bbb3008, 20);
    StepIs(0x73168e07cc, 10); StepIs(0x4676593104, 16); StepIs(0x60e58dc238, 3); StepIs(0x41a14c166f, 26);
    RunThrough([10, 19, 0, 20, 10, 16, 3, 26],
               [0x7c50db0c9c, 0x364e44d565, 0x4341a88695, 0xc61bbb3008, 0x73168e07cc,
                0x4676593104, 0x60e58dc238, 0x41a14c166f, 0x9a07292f52]);
  }

  lemma MainNetText4()
    ensures Symbols([21, 12]) && EncodeSymbols([21, 12]) == "4v"
  {
  }

  lemma MainNetRun4()
    ensures Run(0x9a07292f52, [21, 12]) == 0xf1c22e74fb
  {
    hide Run, Step;
    StepIs(0x9a07292f52, 21); StepIs(0xbfefb719a6, 12);
    RunThrough([21, 12],
               [0x9a07292f52, 0xbfefb719a6, 0xf1c22e74fb]);
  }

  lemma MainNetText5()
    ensures Symbols([26, 22, 11, 5, 7, 4, 27, 12]) && EncodeSymbols([26, 22, 11, 5, 7, 4, 27, 12]) == "6kt98ymv"
  {
  }

  lemma MainNetRun5()
    ensures Run(0xf1c22e74fb, [26, 22, 11, 5, 7, 4, 27, 12]) == 0x1
  {
    hide Run, Step;
    StepIs(0xf1c22e74fb, 26); StepIs(0x2ad14b384, 22); StepIs(0x55a2967096, 11); StepIs(0x63cb086981, 5);
    StepIs(0x2471f96149, 7); StepIs(0x7d01739ae3, 4); StepIs(0x1c7b561a8b, 27); StepIs(0x6e2f1246f8, 12);
    RunThrough([26, 22, 11, 5, 7, 4, 27, 12],
               [0xf1c22e74fb, 0x2ad14b384, 0x55a2967096, 0x63cb086981, 0x2471f96149,
                0x7d01739ae3, 0x1c7b561a8b, 0x6e2f1246f8, 0x1]);
  }

  lemma MainNetNumber0()
    ensures NumberFrom(0, 256, [0, 221, 251, 171, 234]) == NumberFrom(0, 32, [0, 3, 14, 31, 23, 10, 31, 10])
  {
    hide NumberFrom;
    NumberThrough(256, [0, 221, 251, 171, 234],
                  [0, 0, 0xdd, 0xddfb, 0xddfbab, 0xddfbabea]);
    NumberThrough(32, [0, 3, 14, 31, 23, 10, 31, 10],
                  [0, 0, 0x3, 0x6e, 0xddf, 0x1bbf7, 0x377eea, 0x6efdd5f, 0xddfbabea]);
  }

  lemma MainNetNumber1()
    ensures NumberFrom(0, 256, [69, 224, 12, 164, 67]) == NumberFrom(0, 32, [8, 23, 16, 0, 25, 9, 2, 3])
  {
    hide NumberFrom;
    NumberThrough(256, [69, 224, 12, 164, 67],
                  [0, 0x45, 0x45e0, 0x45e00c, 0x45e00ca4, 0x45e00ca443]);
    NumberThrough(32, [8, 23, 16, 0, 25, 9, 2, 3],
                  [0, 0x8, 0x117, 0x22f0, 0x45e00, 0x8bc019, 0x11780329, 0x22f006522, 0x45e00ca443]);
  }

  lemma MainNetNumber2()
    ensures NumberFrom(0, 256, [205, 13, 138, 99, 174]) == NumberFrom(0, 32, [25, 20, 6, 24, 20, 24, 29, 14])
  {
    hide NumberFrom;
    NumberThrough(256, [205, 13, 138, 99, 174],
                  [0, 0xcd, 0xcd0d, 0xcd0d8a, 0xcd0d8a63, 0xcd0d8a63ae]);
    NumberThrough(32, [25, 20, 6, 24, 20, 24, 29, 14],
                  [0, 0x19, 0x334, 0x6686, 0xcd0d8, 0x19a1b14, 0x33436298, 0x6686c531d, 0xcd0d8a63ae]);
  }

  lemma MainNetNumber3()
    ensures NumberFrom(0, 256, [84, 193, 69, 64, 122]) == NumberFrom(0, 32, [10, 19, 0, 20, 10, 16, 3, 26])
  {
    hide NumberFrom;
    NumberThrough(256, [84, 193, 69, 64, 122],
                  [0, 0x54, 0x54c1, 0x54c145, 0x54c14540, 0x54c145407a]);
    NumberThrough(32, [10, 19, 0, 20, 10, 16, 3, 26],
                  [0, 0xa, 0x153, 0x2a60, 0x54c14, 0xa9828a, 0x15305150, 0x2a60a2a03, 0x54c145407a]);
  }

  lemma MainNetNumber4()
    ensures 4 * NumberFrom(0, 256, [171]) == NumberFrom(0, 32, [21, 12])
  {
    hide NumberFrom;
    NumberThrough(256, [171],
                  [0, 0xab]);
    NumberThrough(32, [21, 12],
                  [0, 0x15, 0x2ac]);
  }

  lemma MainNetBytes()
    ensures [0] + MAIN_HASH ==
            [0, 221, 251, 171, 234] + [69, 224, 12, 164, 67] + [205, 13, 138, 99, 174] + [84, 193, 69, 64, 122] + [171]
  {
  }

  lemma MainNetNumber()
    ensures NumberFrom(0, 32, MAIN_DATA) == 4 * NumberFrom(0, 256, [0] + MAIN_HASH)
  {
    var a: seq<bv8>, b: seq<bv8>, c: seq<bv8>, d: seq<bv8>, e: seq<bv8> :=
      [0, 221, 251, 171, 234], [69, 224, 12, 164, 67], [205, 13, 138, 99, 174], [84, 193, 69, 64, 122], [171];
    var v: seq<bv8>, w: seq<bv8>, x: seq<bv8>, y: seq<bv8>, z: seq<bv8> :=
      [0, 3, 14, 31, 23, 10, 31, 10], [8, 23, 16, 0, 25, 9, 2, 3], [25, 20, 6, 24, 20, 24, 29, 14],
      [10, 19, 0, 20, 10, 16, 3, 26], [21, 12];
    hide NumberFrom;
    MainNetBytes();
    MainNetNumber0();
    MainNetNumber1();
    MainNetNumber2();
    MainNetNumber3();
    MainNetNumber4();
    Regrouped(a, b, c, d, e, v, w, x, y, z);
  }

  lemma MainNetText()
    ensures Symbols(MAIN_DATA + MAIN_CHECKSUM)
    ensures EncodeSymbols(MAIN_DATA + MAIN_CHECKSUM) ==
            "qrwlh2l2" + "ghsqefzr" + "e5xc5caw" + "2nq52sr6" + "4v" + "6kt98ymv"
  {
    var v: seq<bv8>, w: seq<bv8>, x: seq<bv8>, y: seq<bv8>, z: seq<bv8> :=
      [0, 3, 14, 31, 23, 10, 31, 10], [8, 23, 16, 0, 25, 9, 2, 3], [25, 20, 6, 24, 20, 24, 29, 14],
      [10, 19, 0, 20, 10, 16, 3, 26], [21, 12];
    hide Symbols, EncodeSymbols;
    MainNetText0();
    MainNetText1();
    MainNetText2();
    MainNetText3();
    MainNetText4();
    MainNetText5();
    TextConcat(v, w);
    TextConcat(v + w, x);
    TextConcat(v + w + x, y);
    TextConcat(v + w + x + y, z);
    TextConcat(v + w + x + y + z, MAIN_CHECKSUM);
  }

  lemma MainNetWhole()
    ensures "qrwlh2l2" + "ghsqefzr" + "e5xc5caw" + "2nq52sr6" + "4v" + "6kt98ymv" ==
            "qrwlh2l2ghsqefzre5xc5caw2nq52sr64v6kt98ymv"
  {
  }

  lemma MainNetRun()
    ensures Run(0xf669cd6d15, MAIN_DATA + MAIN_CHECKSUM) == 1
  {
    var v: seq<bv8>, w: seq<bv8>, x: seq<bv8>, y: seq<bv8>, z: seq<bv8> :=
      [0, 3, 14, 31, 23, 10, 31, 10], [8, 23, 16, 0, 25, 9, 2, 3], [25, 20, 6, 24, 20, 24, 29, 14],
      [10, 19, 0, 20, 10, 16, 3, 26], [21, 12];
    hide Run;
    MainNetRun0();
    MainNetRun1();
    MainNetRun2();
    MainNetRun3();
    MainNetRun4();
    MainNetRun5();
    RunConcat(0xf669cd6d15, v + w + x + y + z, MAIN_CHECKSUM);
    RunConcat(0xf669cd6d15, v + w + x + y, z);
    RunConcat(0xf669cd6d15, v + w + x, y);
    RunConcat(0xf669cd6d15, v + w, x);
    RunConcat(0xf669cd6d15, v, w);
  }

  lemma MainNetAddress()
    ensures var text := "qrwlh2l2ghsqefzre5xc5caw2nq52sr64v6kt98ymv";
            && EncodeBchAddress(0, MAIN_HASH, MainNet) == Ok(text)
            && DecodeBchAddress(text, MainNet) == DecodeBchAddress("bitcoincash" + ":" + text, MainNet) == Ok([0] + MAIN_HASH)
  {
    assert AddressPrefix(MainNet) == Ok("bitcoincash") && PrefixState(MainNet) == 0xf669cd6d15;
    assert |MAIN_HASH| == 20 && |MAIN_DATA| == 34 && |MAIN_CHECKSUM| == 8;
    MainNetWhole();
    hide *;
    MainNetText();
    MainNetNumber();
    MainNetRun();
    Publishes(0, MAIN_HASH, MainNet, MAIN_DATA, MAIN_CHECKSUM, "qrwlh2l2ghsqefzre5xc5caw2nq52sr64v6kt98ymv");
  }

  // ----- bchtest:qzl7ex0q35q2d6aljhlhzwramp09n06fry8ssqu0qp

  const TEST_HASH: seq<bv8> :=
    [191, 236, 153, 224, 141, 0, 166, 235, 191, 149,
     255, 113, 56, 125, 216, 94, 89, 191, 73, 25]

  const TEST_DATA: seq<bv8> :=
    [0, 2, 31, 30, 25, 6, 15, 0] + [17, 20, 0, 10, 13, 26, 29, 31] + [18, 23, 31, 23, 2, 14, 3, 29]
    + [27, 1, 15, 5, 19, 15, 26, 9] + [3, 4]

  const TEST_CHECKSUM: seq<bv8> := [7, 16, 16, 0, 28, 15, 0, 1]

  lemma TestNetText0()
    ensures Symbols([0, 2, 31, 30, 25, 6, 15, 0]) && EncodeSymbols([0, 2, 31, 30, 25, 6, 15, 0]) == "qzl7ex0q"
  {
  }

  lemma TestNetRun0()
    ensures Run(0x8823fe40e1, [0, 2, 31, 30, 25, 6, 15, 0]) == 0xe7de82b7b7
  {
    hide Run, Step;
    StepIs(0x8823fe40e1, 0); StepIs(0x82c2377631, 2); StepIs(0x4609ad2252, 31); StepIs(0x6f1b0fa8f7, 30);
    StepIs(0x2683bdc1f3, 25); StepIs(0x2349e78dbd, 6); StepIs(0x9a02ae0462, 15); StepIs(0xbf5f527fbc, 0);
    RunThrough([0, 2, 31, 30, 25, 6, 15, 0],
               [0x8823fe40e1, 0x82c2377631, 0x4609ad2252, 0x6f1b0fa8f7, 0x2683bdc1f3,
                0x2349e78dbd, 0x9a02ae0462, 0xbf5f527fbc, 0xe7de82b7b7]);
  }

  lemma TestNetText1()
    ensures Symbols([17, 20, 0, 10, 13, 26, 29, 31]) && EncodeSymbols([17, 20, 0, 10, 13, 26, 29, 31]) == "35q2d6al"
  {
  }

  lemma TestNetRun1()
    ensures Run(0xe7de82b7b7, [17, 20, 0, 10, 13, 26, 29, 31]) == 0x89ca1d21a0
  {
    hide Run, Step;
    StepIs(0xe7de82b7b7, 17); StepIs(0xb88fe143ed, 20); StepIs(0x1dc8e53d83, 0); StepIs(0x585976a7e3, 10);
    StepIs(0x4445ae0941, 13); StepIs(0x269b6aca85, 26); StepIs(0x205306e37e, 29); StepIs(0xf95e83dc19, 31);
    RunThrough([17, 20, 0, 10, 13, 26, 29, 31],
               [0xe7de82b7b7, 0xb88fe143ed, 0x1dc8e53d83, 0x585976a7e3, 0x4445ae0941,
                0x269b6aca85, 0x205306e37e, 0xf95e83dc19, 0x89ca1d21a0]);
  }

  lemma TestNetText2()
    ensures Symbols([18, 23, 31, 23, 2, 14, 3, 29]) && EncodeSymbols([18, 23, 31, 23, 2, 14, 3, 29]) == "jhlhzwra"
  {
  }

  lemma TestNetRun2()
    ensures Run(0x89ca1d21a0, [18, 23, 31, 23, 2, 14, 3, 29]) == 0x4daaeee450
  {
    hide Run, Step;
    StepIs(0x89ca1d21a0, 18); StepIs(0xbffe5b5e03, 23); StepIs(0xf3ffa68040, 31); StepIs(0x451c0a24e1, 23);
    StepIs(0xdafef7e9f, 2); StepIs(0x2d0f535d83, 14); StepIs(0xca26888dcb, 3); StepIs(0x6c424531da, 29);
    RunThrough([18, 23, 31, 23, 2, 14, 3, 29],
               [0x89ca1d21a0, 0xbffe5b5e03, 0xf3ffa68040, 0x451c0a24e1, 0xdafef7e9f,
                0x2d0f535d83, 0xca26888dcb, 0x6c424531da, 0x4daaeee450]);
  }

  lemma TestNetText3()
    ensures Symbols([27, 1, 15, 5, 19, 15, 26, 9]) && EncodeSymbols([27, 1, 15, 5, 19, 15, 26, 9]) == "mp09n06f"
  {
  }

  lemma TestNetRun3()
    ensures Run(0x4daaeee450, [27, 1, 15, 5, 19, 15, 26, 9]) == 0x21d087c5af
  {
    hide Run, Step;
    StepIs(0x4daaeee450, 27); StepIs(0x8381cbe6d2, 1); StepIs(0x6e763f3e31, 15); StepIs(0xb25af1922, 5);
    StepIs(0xfc475faa24, 19); StepIs(0x2af193e60c, 15); StepIs(0x35fe9ffc2a, 26); StepIs(0x355acdaf7c, 9);
    RunThrough([27, 1, 15, 5, 19, 15, 26, 9],
               [0x4daaeee450, 0x8381cbe6d2, 0x6e763f3e31, 0xb25af1922, 0xfc475faa24,
                0x2af193e60c, 0x35fe9ffc2a, 0x355acdaf7c, 0x21d087c5af]);
  }

  lemma TestNetText4()
    ensures Symbols([3, 4]) && EncodeSymbols([3, 4]) == "ry"
  {
  }

  lemma TestNetRun4()
    ensures Run(0x21d087c5af, [3, 4]) == 0xd47b44c5d
  {
    hide Run, Step;
    StepIs(0x21d087c5af, 3); StepIs(0xc92ea70627, 4);
    RunThrough([3, 4],
               [0x21d087c5af, 0xc92ea70627, 0xd47b44c5d]);
  }

  lemma TestNetText5()
    ensures Symbols([7, 16, 16, 0, 28, 15, 0, 1]) && EncodeSymbols([7, 16, 16, 0, 28, 15, 0, 1]) == "8ssqu0qp"
  {
  }

  lemma TestNetRun5()
    ensures Run(0xd47b44c5d, [7, 16, 16, 0, 28, 15, 0, 1]) == 0x1
  {
    hide Run, Step;
    StepIs(0xd47b44c5d, 7); StepIs(0x30043505c6, 16); StepIs(0x8a0f9292f6, 16); StepIs(0xc74fad34c1, 0);
    StepIs(0x59944e9ef8, 28); StepIs(0x7de2a92a37, 15); StepIs(0, 0); StepIs(0, 1);
    RunThrough([7, 16, 16, 0, 28, 15, 0, 1],
               [0xd47b44c5d, 0x30043505c6, 0x8a0f9292f6, 0xc74fad34c1, 0x59944e9ef8,
                0x7de2a92a37, 0, 0, 0x1]);
  }

  lemma TestNetNumber0()
    ensures NumberFrom(0, 256, [0, 191, 236, 153, 224]) == NumberFrom(0, 32, [0, 2, 31, 30, 25, 6, 15, 0])
  {
    hide NumberFrom;
    NumberThrough(256, [0, 191, 236, 153, 224],
                  [0, 0, 0xbf, 0xbfec, 0xbfec99, 0xbfec99e0]);
    NumberThrough(32, [0, 2, 31, 30, 25, 6, 15, 0],
                  [0, 0, 0x2, 0x5f, 0xbfe, 0x17fd9, 0x2ffb26, 0x5ff64cf, 0xbfec99e0]);
  }

  lemma TestNetNumber1()
    ensures NumberFrom(0, 256, [141, 0, 166, 235, 191]) == NumberFrom(0, 32, [17, 20, 0, 10, 13, 26, 29, 31])
  {
    hide NumberFrom;
    NumberThrough(256, [141, 0, 166, 235, 191],
                  [0, 0x8d, 0x8d00, 0x8d00a6, 0x8d00a6eb, 0x8d00a6ebbf]);
    NumberThrough(32, [17, 20, 0, 10, 13, 26, 29, 31],
                  [0, 0x11, 0x234, 0x4680, 0x8d00a, 0x11a014d, 0x234029ba, 0x46805375d, 0x8d00a6ebbf]);
  }

  lemma TestNetNumber2()
    ensures NumberFrom(0, 256, [149, 255, 113, 56, 125]) == NumberFrom(0, 32, [18, 23, 31, 23, 2, 14, 3, 29])
  {
    hide NumberFrom;
    NumberThrough(256, [149, 255, 113, 56, 125],
                  [0, 0x95, 0x95ff, 0x95ff71, 0x95ff7138, 0x95ff71387d]);
    NumberThrough(32, [18, 23, 31, 23, 2, 14, 3, 29],
                  [0, 0x12, 0x257, 0x4aff, 0x95ff7, 0x12bfee2, 0x257fdc4e, 0x4affb89c3, 0x95ff71387d]);
  }

  lemma TestNetNumber3()
    ensures NumberFrom(0, 256, [216, 94, 89, 191, 73]) == NumberFrom(0, 32, [27, 1, 15, 5, 19, 15, 26, 9])
  {
    hide NumberFrom;
    NumberThrough(256, [216, 94, 89, 191, 73],
                  [0, 0xd8, 0xd85e, 0xd85e59, 0xd85e59bf, 0xd85e59bf49]);
    NumberThrough(32, [27, 1, 15, 5, 19, 15, 26, 9],
                  [0, 0x1b, 0x361, 0x6c2f, 0xd85e5, 0x1b0bcb3, 0x3617966f, 0x6c2f2cdfa, 0xd85e59bf49]);
  }

  lemma TestNetNumber4()
    ensures 4 * NumberFrom(0, 256, [25]) == NumberFrom(0, 32, [3, 4])
  {
    hide NumberFrom;
    NumberThrough(256, [25],
                  [0, 0x19]);
    NumberThrough(32, [3, 4],
                  [0, 0x3, 0x64]);
  }

  lemma TestNetBytes()
    ensures [0] + TEST_HASH ==
            [0, 191, 236, 153, 224] + [141, 0, 166, 235, 191] + [149, 255, 113, 56, 125] + [216, 94, 89, 191, 73] + [25]
  {
  }

  lemma TestNetNumber()
    ensures NumberFrom(0, 32, TEST_DATA) == 4 * NumberFrom(0, 256, [0] + TEST_HASH)
  {
    var a: seq<bv8>, b: seq<bv8>, c: seq<bv8>, d: seq<bv8>, e: seq<bv8> :=
      [0, 191, 236, 153, 224], [141, 0, 166, 235, 191], [149, 255, 113, 56, 125], [216, 94, 89, 191, 73], [25];
    var v: seq<bv8>, w: seq<bv8>, x: seq<bv8>, y: seq<bv8>, z: seq<bv8> :=
      [0, 2, 31, 30, 25, 6, 15, 0], [17, 20, 0, 10, 13, 26, 29, 31], [18, 23, 31, 23, 2, 14, 3, 29],
      [27, 1, 15, 5, 19, 15, 26, 9], [3, 4];
    hide NumberFrom;
    TestNetBytes();
    TestNetNumber0();
    TestNetNumber1();
    TestNetNumber2();
    TestNetNumber3();
    TestNetNumber4();
    Regrouped(a, b, c, d, e, v, w, x, y, z);
  }

  lemma TestNetText()
    ensures Symbols(TEST_DATA + TEST_CHECKSUM)
    ensures EncodeSymbols(TEST_DATA + TEST_CHECKSUM) ==
            "qzl7ex0q" + "35q2d6al" + "jhlhzwra" + "mp09n06f" + "ry" + "8ssqu0qp"
  {
    var v: seq<bv8>, w: seq<bv8>, x: seq<bv8>, y: seq<bv8>, z: seq<bv8> :=
      [0, 2, 31, 30, 25, 6, 15, 0], [17, 20, 0, 10, 13, 26, 29, 31], [18, 23, 31, 23, 2, 14, 3, 29],
      [27, 1, 15, 5, 19, 15, 26, 9], [3, 4];
    hide Symbols, EncodeSymbols;
    TestNetText0();
    TestNetText1();
    TestNetText2();
    TestNetText3();
    TestNetText4();
    TestNetText5();
    TextConcat(v, w);
    TextConcat(v + w, x);
    TextConcat(v + w + x, y);
    TextConcat(v + w + x + y, z);
    TextConcat(v + w + x + y + z, TEST_CHECKSUM);
  }

  lemma TestNetWhole()
    ensures "qzl7ex0q" + "35q2d6al" + "jhlhzwra" + "mp09n06f" + "ry" + "8ssqu0qp" ==
            "qzl7ex0q35q2d6aljhlhzwramp09n06fry8ssqu0qp"
  {
  }

  lemma TestNetRun()
    ensures Run(0x8823fe40e1, TEST_DATA + TEST_CHECKSUM) == 1
  {
    var v: seq<bv8>, w: seq<bv8>, x: seq<bv8>, y: seq<bv8>, z: seq<bv8> :=
      [0, 2, 31, 30, 25, 6, 15, 0], [17, 20, 0, 10, 13, 26, 29, 31], [18, 23, 31, 23, 2, 14, 3, 29],
      [27, 1, 15, 5, 19, 15, 26, 9], [3, 4];
    hide Run;
    TestNetRun0();
    TestNetRun1();
    TestNetRun2();
    TestNetRun3();
    TestNetRun4();
    TestNetRun5();
    RunConcat(0x8823fe40e1, v + w + x + y + z, TEST_CHECKSUM);
    RunConcat(0x8823fe40e1, v + w + x + y, z);
    RunConcat(0x8823fe40e1, v + w + x, y);
    RunConcat(0x8823fe40e1, v + w, x);
    RunConcat(0x8823fe40e1, v, w);
  }

  lemma TestNetAddress()
    ensures var text := "qzl7ex0q35q2d6aljhlhzwramp09n06fry8ssqu0qp";
            && EncodeBchAddress(0, TEST_HASH, TestNet) == Ok(text)
            && DecodeBchAddress(text, TestNet) == DecodeBchAddress("bchtest" + ":" + text, TestNet) == Ok([0] + TEST_HASH)
  {
    assert AddressPrefix(TestNet) == Ok("bchtest") && PrefixState(TestNet) == 0x8823fe40e1;
    assert |TEST_HASH| == 20 && |TEST_DATA| == 34 && |TEST_CHECKSUM| == 8;
    TestNetWhole();
    hide *;
    TestNetText();
    TestNetNumber();
    TestNetRun();
    Publishes(0, TEST_HASH, TestNet, TEST_DATA, TEST_CHECKSUM, "qzl7ex0q35q2d6aljhlhzwramp09n06fry8ssqu0qp");
  }
}
