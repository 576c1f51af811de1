/**
 * The order of the CashAddr step. Its powers are computed by products of states, each one eight steps of
 * Horner's scheme with every intermediate state written out.
 */
module CashAddrOrder {
  import opened CashAddrChecksum
  import opened CashAddrField

  lemma SevenZeros()
    ensures Advance(0x1, 7) == 0x800000000
  {
    assert Shift(0x1) == 0x20 && Shift(0x20) == 0x400 && Shift(0x400) == 0x8000;
    assert Shift(0x8000) == 0x100000 && Shift(0x100000) == 0x2000000 && Shift(0x2000000) == 0x40000000;
    assert Shift(0x40000000) == 0x800000000;
    hide Shift, Advance;
    AdvanceThrough([0x1, 0x20, 0x400, 0x8000, 0x100000, 0x2000000, 0x40000000, 0x800000000]);
  }

  lemma FourteenZeros()
    ensures Advance(0x800000000, 7) == 0x94ea3e7407
  {
    assert Shift(0x800000000) == 0x98f2bc8e61 && Shift(0x98f2bc8e61) == 0xe15d033fd3;
    assert Shift(0xe15d033fd3) == 0x68ffd04f7c;
    assert Shift(0x68ffd04f7c) == 0xda1841308d && Shift(0xda1841308d) == 0x122c1f00fb;
    assert Shift(0x122c1f00fb) == 0x3c348d8682;
    assert Shift(0x3c348d8682) == 0x94ea3e7407;
    hide Shift, Advance;
    AdvanceThrough([0x800000000, 0x98f2bc8e61, 0xe15d033fd3, 0x68ffd04f7c,
                    0xda1841308d, 0x122c1f00fb, 0x3c348d8682, 0x94ea3e7407]);
  }

  lemma TwentyOneZeros()
    ensures Advance(0x94ea3e7407, 7) == 0xc9382ad91c
  {
    assert Shift(0x94ea3e7407) == 0xfabfe0fd72 && Shift(0xfabfe0fd72) == 0xf5e6790cdf;
    assert Shift(0xf5e6790cdf) == 0x8627fbb71e;
    assert Shift(0x8627fbb71e) == 0xdab03507b0 && Shift(0xdab03507b0) == 0x72299e75b;
    assert Shift(0x72299e75b) == 0xe4533ceb60;
    assert Shift(0xe4533ceb60) == 0xc9382ad91c;
    hide Shift, Advance;
    AdvanceThrough([0x94ea3e7407, 0xfabfe0fd72, 0xf5e6790cdf, 0x8627fbb71e,
                    0xdab03507b0, 0x72299e75b, 0xe4533ceb60, 0xc9382ad91c]);
  }

  lemma TwentyFiveZeros()
    ensures Advance(0xc9382ad91c, 4) == 0x6f21fd01d0
  {
    assert Shift(0xc9382ad91c) == 0xf960fab39 && Shift(0xf960fab39) == 0x6a3349e941;
    assert Shift(0x6a3349e941) == 0x838b75f72d;
    assert Shift(0x838b75f72d) == 0x6f21fd01d0;
    hide Shift, Advance;
    AdvanceThrough([0xc9382ad91c, 0xf960fab39, 0x6a3349e941, 0x838b75f72d, 0x6f21fd01d0]);
  }

  lemma Doubles25()
    ensures Twice(0x6f21fd01d0) == 0xd4537e8389 && Twice(0xd4537e8389) == 0xeae4798232
    ensures Twice(0xeae4798232) == 0x9d9ae7816d && Twice(0x9d9ae7816d) == 0x7975cf02da
  {
  }

  lemma Power50First()
    ensures HornerStep(0x6f21fd01d0, 0, 13) == 0x185f63028f
    ensures HornerStep(0x6f21fd01d0, 0x185f63028f, 28) == 0xe4a2e047e6
    ensures HornerStep(0x6f21fd01d0, 0xe4a2e047e6, 16) == 0xae76704b06
    ensures HornerStep(0x6f21fd01d0, 0xae76704b06, 31) == 0xe347b3ac9
  {
    hide Twice;
    Doubles25();
  }

  lemma Power50Last()
    ensures HornerStep(0x6f21fd01d0, 0xe347b3ac9, 26) == 0x6ec18dd77f
    ensures HornerStep(0x6f21fd01d0, 0x6ec18dd77f, 0) == 0x1dd3f230ed
    ensures HornerStep(0x6f21fd01d0, 0x1dd3f230ed, 14) == 0xf816778af5
    ensures HornerStep(0x6f21fd01d0, 0xf816778af5, 16) == 0xd9a158fee5
  {
    hide Twice;
    Doubles25();
  }

  lemma Spells25()
    ensures Run(0, [13, 28, 16, 31, 26, 0, 14, 16]) == 0x6f21fd01d0
  {
  }

  lemma Power50()
    requires Advance(1, 25) == 0x6f21fd01d0
    ensures Advance(1, 50) == 0xd9a158fee5
  {
    hide Run, Horner, HornerStep, Advance;
    Spells25();
    Power50First();
    Power50Last();
    var v: seq<bv8> := [13, 28, 16, 31, 26, 0, 14, 16];
    HornerThrough(0x6f21fd01d0, [0, 0x185f63028f, 0xe4a2e047e6, 0xae76704b06, 0xe347b3ac9,
                                 0x6ec18dd77f, 0x1dd3f230ed, 0xf816778af5, 0xd9a158fee5], v);
    Product(25, 25, v);
  }

  lemma Doubles50()
    ensures Twice(0xd9a158fee5) == 0xfb1235dcea && Twice(0xfb1235dcea) == 0xbe246b1dd4
    ensures Twice(0xbe246b1dd4) == 0x3e5ac2bb81 && Twice(0x3e5ac2bb81) == 0x76f5857222
  {
  }

  lemma Power100First()
    ensures HornerStep(0xd9a158fee5, 0, 27) == 0x6a1c2aebac
    ensures HornerStep(0xd9a158fee5, 0x6a1c2aebac, 6) == 0xc3514b6bb3
    ensures HornerStep(0xd9a158fee5, 0xc3514b6bb3, 16) == 0xacbd00029a
    ensures HornerStep(0xd9a158fee5, 0xacbd00029a, 21) == 0xf353161b86
  {
    hide Twice;
    Doubles50();
  }

  lemma Power100Last()
    ensures HornerStep(0xd9a158fee5, 0xf353161b86, 17) == 0xffdec4d0f9
    ensures HornerStep(0xd9a158fee5, 0xffdec4d0f9, 31) == 0x8dfabd4bc7
    ensures HornerStep(0xd9a158fee5, 0x8dfabd4bc7, 23) == 0xd388d55f08
    ensures HornerStep(0xd9a158fee5, 0xd388d55f08, 5) == 0xdf491d9d0b
  {
    hide Twice;
    Doubles50();
  }

  lemma Spells50()
    ensures Run(0, [27, 6, 16, 21, 17, 31, 23, 5]) == 0xd9a158fee5
  {
  }

  lemma Power100()
    requires Advance(1, 50) == 0xd9a158fee5
    ensures Advance(1, 100) == 0xdf491d9d0b
  {
    hide Run, Horner, HornerStep, Advance;
    Spells50();
    Power100First();
    Power100Last();
    var v: seq<bv8> := [27, 6, 16, 21, 17, 31, 23, 5];
    HornerThrough(0xd9a158fee5, [0, 0x6a1c2aebac, 0xc3514b6bb3, 0xacbd00029a, 0xf353161b86,
                                 0xffdec4d0f9, 0x8dfabd4bc7, 0xd388d55f08, 0xdf491d9d0b], v);
    Product(50, 50, v);
  }

  lemma Doubles100()
    ensures Twice(0xdf491d9d0b) == 0xfcd0bfba16 && Twice(0xfcd0bfba16) == 0xbbe16bf125
    ensures Twice(0xbbe16bf125) == 0x3f9253c64a && Twice(0x3f9253c64a) == 0x7564a72db4
  {
  }

  lemma Power200First()
    ensures HornerStep(0xdf491d9d0b, 0, 27) == 0x696f56cce3
    ensures HornerStep(0xdf491d9d0b, 0x696f56cce3, 29) == 0xc65613c4bd
    ensures HornerStep(0xdf491d9d0b, 0xc65613c4bd, 4) == 0xc142fb605d
    ensures HornerStep(0xdf491d9d0b, 0xc142fb605d, 17) == 0x32133ebdc7
  {
    hide Twice;
    Doubles100();
  }

  lemma Power200Last()
    ensures HornerStep(0xdf491d9d0b, 0x32133ebdc7, 27) == 0xa181b35e25
    ensures HornerStep(0xdf491d9d0b, 0xa181b35e25, 7) == 0x453fbe452c
    ensures HornerStep(0xdf491d9d0b, 0x453fbe452c, 8) == 0x364b308162
    ensures HornerStep(0xdf491d9d0b, 0x364b308162, 11) == 0x5fe4d3e731
  {
    hide Twice;
    Doubles100();
  }

  lemma Spells100()
    ensures Run(0, [27, 29, 4, 17, 27, 7, 8, 11]) == 0xdf491d9d0b
  {
  }

  lemma Power200()
    requires Advance(1, 100) == 0xdf491d9d0b
    ensures Advance(1, 200) == 0x5fe4d3e731
  {
    hide Run, Horner, HornerStep, Advance;
    Spells100();
    Power200First();
    Power200Last();
    var v: seq<bv8> := [27, 29, 4, 17, 27, 7, 8, 11];
    HornerThrough(0xdf491d9d0b, [0, 0x696f56cce3, 0xc65613c4bd, 0xc142fb605d, 0x32133ebdc7,
                                 0xa181b35e25, 0x453fbe452c, 0x364b308162, 0x5fe4d3e731], v);
    Product(100, 100, v);
  }

  lemma FiveMore()
    ensures Advance(0x5fe4d3e731, 5) == 0x1efbd056fe
  {
    assert Shift(0x5fe4d3e731) == 0xb3f106130b && Shift(0xb3f106130b) == 0xeae6b3af36;
    assert Shift(0xeae6b3af36) == 0x877b7eddbd;
    assert Shift(0x877b7eddbd) == 0xf1209853d0 && Shift(0xf1209853d0) == 0x1efbd056fe;
    hide Shift, Advance;
    AdvanceThrough([0x5fe4d3e731, 0xb3f106130b, 0xeae6b3af36, 0x877b7eddbd, 0xf1209853d0, 0x1efbd056fe]);
  }

  lemma Doubles205()
    ensures Twice(0x1efbd056fe) == 0x37e7300cf5 && Twice(0x37e7300cf5) == 0x65def019c3
    ensures Twice(0x65def019c3) == 0xc1fde03386 && Twice(0xc1fde03386) == 0xcbab50622c
  {
  }

  lemma Power410First()
    ensures HornerStep(0x1efbd056fe, 0, 3) == 0x291ce05a0b
    ensures HornerStep(0x1efbd056fe, 0x291ce05a0b, 27) == 0x6b1ab87764
    ensures HornerStep(0x1efbd056fe, 0x6b1ab87764, 29) == 0xd7c6d62d1a
    ensures HornerStep(0x1efbd056fe, 0xd7c6d62d1a, 29) == 0x407fd022ed
  {
    hide Twice;
    Doubles205();
  }

  lemma Power410Last()
    ensures HornerStep(0x1efbd056fe, 0x407fd022ed, 0) == 0xa1d4afbf08
    ensures HornerStep(0x1efbd056fe, 0xa1d4afbf08, 21) == 0x676a9b9ba5
    ensures HornerStep(0x1efbd056fe, 0x676a9b9ba5, 23) == 0x372ac70428
    ensures HornerStep(0x1efbd056fe, 0x372ac70428, 30) == 0x37bea2ebba
  {
    hide Twice;
    Doubles205();
  }

  lemma Spells205()
    ensures Run(0, [3, 27, 29, 29, 0, 21, 23, 30]) == 0x1efbd056fe
  {
  }

  lemma Power410()
    requires Advance(1, 205) == 0x1efbd056fe
    ensures Advance(1, 410) == 0x37bea2ebba
  {
    hide Run, Horner, HornerStep, Advance;
    Spells205();
    Power410First();
    Power410Last();
    var v: seq<bv8> := [3, 27, 29, 29, 0, 21, 23, 30];
    HornerThrough(0x1efbd056fe, [0, 0x291ce05a0b, 0x6b1ab87764, 0xd7c6d62d1a, 0x407fd022ed,
                                 0xa1d4afbf08, 0x676a9b9ba5, 0x372ac70428, 0x37bea2ebba], v);
    Product(205, 205, v);
  }

  lemma Doubles410()
    ensures Twice(0x37bea2ebba) == 0x656f45767d && Twice(0x656f45767d) == 0xc0ce1a4df3
    ensures Twice(0xc0ce1a4df3) == 0xc99c20bfcf && Twice(0xc99c20bfcf) == 0xdb38417abe
  {
  }

  lemma Power820First()
    ensures HornerStep(0x37bea2ebba, 0, 6) == 0xa5a15f3b8e
    ensures HornerStep(0x37bea2ebba, 0xa5a15f3b8e, 30) == 0xee5fc5d88b
    ensures HornerStep(0x37bea2ebba, 0xee5fc5d88b, 31) == 0x90ee2c3f58
    ensures HornerStep(0x37bea2ebba, 0x90ee2c3f58, 10) == 0xd6cecc5f20
  {
    hide Twice;
    Doubles410();
  }

  lemma Power820Last()
    ensures HornerStep(0x37bea2ebba, 0xd6cecc5f20, 5) == 0xe77fb6dd73
    ensures HornerStep(0x37bea2ebba, 0xe77fb6dd73, 26) == 0xdb6248a870
    ensures HornerStep(0x37bea2ebba, 0xdb6248a870, 29) == 0xd8b9f57c63
    ensures HornerStep(0x37bea2ebba, 0xd8b9f57c63, 26) == 0x31d1b22e37
  {
    hide Twice;
    Doubles410();
  }

  lemma Spells410()
    ensures Run(0, [6, 30, 31, 10, 5, 26, 29, 26]) == 0x37bea2ebba
  {
  }

  lemma Power820()
    requires Advance(1, 410) == 0x37bea2ebba
    ensures Advance(1, 820) == 0x31d1b22e37
  {
    hide Run, Horner, HornerStep, Advance;
    Spells410();
    Power820First();
    Power820Last();
    var v: seq<bv8> := [6, 30, 31, 10, 5, 26, 29, 26];
    HornerThrough(0x37bea2ebba, [0, 0xa5a15f3b8e, 0xee5fc5d88b, 0x90ee2c3f58, 0xd6cecc5f20,
                                 0xe77fb6dd73, 0xdb6248a870, 0xd8b9f57c63, 0x31d1b22e37], v);
    Product(410, 410, v);
  }

  lemma Doubles820()
    ensures Twice(0x31d1b22e37) == 0x63a1f45967 && Twice(0x63a1f45967) == 0xc7137816ce
    ensures Twice(0xc7137816ce) == 0xcc6474a8bc && Twice(0xcc6474a8bc) == 0xdadae95151
  {
  }

  lemma Power1025First()
    ensures HornerStep(0x31d1b22e37, 0, 3) == 0x5270467750
    ensures HornerStep(0x31d1b22e37, 0x5270467750, 27) == 0xdd5fd31ff7
    ensures HornerStep(0x31d1b22e37, 0xdd5fd31ff7, 29) == 0x1aa20d2eaf
    ensures HornerStep(0x31d1b22e37, 0x1aa20d2eaf, 29) == 0x5578230377
  {
    hide Twice;
    Doubles820();
  }

  lemma Power1025Last()
    ensures HornerStep(0x31d1b22e37, 0x5578230377, 0) == 0x789da615aa
    ensures HornerStep(0x31d1b22e37, 0x789da615aa, 21) == 0x83f9c49a07
    ensures HornerStep(0x31d1b22e37, 0x83f9c49a07, 23) == 0x2ece07945f
    ensures HornerStep(0x31d1b22e37, 0x2ece07945f, 30) == 0x1
  {
    hide Twice;
    Doubles820();
  }

  lemma Power1025()
    requires Advance(1, 205) == 0x1efbd056fe && Advance(1, 820) == 0x31d1b22e37
    ensures Advance(1, 1025) == 0x1
  {
    hide Run, Horner, HornerStep, Advance;
    Spells205();
    Power1025First();
    Power1025Last();
    var v: seq<bv8> := [3, 27, 29, 29, 0, 21, 23, 30];
    HornerThrough(0x31d1b22e37, [0, 0x5270467750, 0xdd5fd31ff7, 0x1aa20d2eaf, 0x5578230377,
                                 0x789da615aa, 0x83f9c49a07, 0x2ece07945f, 0x1], v);
    Product(205, 820, v);
  }

  lemma Power25()
    ensures Advance(1, 25) == 0x6f21fd01d0
  {
    hide Advance;
    SevenZeros();
    FourteenZeros();
    TwentyOneZeros();
    TwentyFiveZeros();
    AdvanceSum(1, 7, 7);
    AdvanceSum(1, 14, 7);
    AdvanceSum(1, 21, 4);
  }

  lemma Power205()
    ensures Advance(1, 205) == 0x1efbd056fe
  {
    hide Advance;
    Power25();
    Power50();
    Power100();
    Power200();
    FiveMore();
    AdvanceSum(1, 200, 5);
  }

  /** The step has order 1025, and no power of it below that fixes the field of the symbols. */
  lemma Order()
    ensures !Single(Advance(1, 25)) && !Single(Advance(1, 205)) && Advance(1, 1025) == 1
  {
    hide Advance;
    Power25();
    Power205();
    Power410();
    Power820();
    Power1025();
  }
}
