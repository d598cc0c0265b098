/** The hash of Bloom filters on known keys, and a filter that keeps a stranger out. */
module KnownFilters {
  import opened ByteNumbers
  import opened Crc32c
  import opened Bloom

  lemma Product1()
    ensures Times(1) == 0xc6a4_a793
  {
  }

  lemma Product2()
    ensures Times(0x7a3b_bb09) == 0xef13_452b
  {
  }

  lemma Product3()
    ensures Times(2) == 0x8d49_4f26
  {
  }

  lemma Product4()
    ensures Times(0x31d6_e9d5) == 0x5b66_384f
  {
  }

  lemma Product5()
    ensures Times(3) == 0x53ed_f6b9
  {
  }

  lemma Product6()
    ensures Times(0xf018_856f) == 0x323c_07bd
  {
  }

  lemma Product7()
    ensures Times(4) == 0x1a92_9e4c
  {
  }

  lemma Product8()
    ensures Times(0xd8c7_0459) == 0xed21_8e1b
  {
  }

  lemma Product9()
    ensures Times(5) == 0xe137_45df
  {
  }

  lemma Product10()
    ensures Times(0xca14_be53) == 0xb13d_6ea9
  {
  }

  lemma Product11()
    ensures Times(0xb13d_e003) == 0xf795_96b9
  {
  }

  lemma Product12()
    ensures Times(0xca1a_c862) == 0xb0e0_fe46
  {
  }

  lemma Product13()
    ensures Times(0xb0e0_4f0a) == 0x42c4_e8be
  {
  }

  lemma Product14()
    ensures Times(0xefe2_5af3) == 0x9dfa_be89
  {
  }

  lemma TailHashOfOne(rest: Bytes)
    requires rest == [0x62]
    ensures HashFrom(0x7a3b_baa7, rest) == 0xef13_45c4
  {
    hide Times;
    Product2();
    assert MixTail(0x7a3b_baa7, 0x62) == 0xef13_45c4;
  }

  lemma HashOfOne(key: Bytes)
    requires key == [0x62]
    ensures BloomHash(key) == 0xef13_45c4
  {
    hide Times, MixWord, MixTail, Beside, HashFrom;
    assert Length(key) == 1;
    Product1();
    assert key == [0x62];
    TailHashOfOne(key);
  }

  lemma TailHashOfTwo(rest: Bytes)
    requires rest == [0xc3, 0x97]
    ensures HashFrom(0x31d6_5212, rest) == 0x5b66_3814
  {
    hide Times;
    Product4();
    assert MixTail(0x31d6_e912, 0xc3) == 0x5b66_3814;
    assert Beside(0x31d6_5212, 0x97, 8) == 0x31d6_e912;
  }

  lemma HashOfTwo(key: Bytes)
    requires key == [0xc3, 0x97]
    ensures BloomHash(key) == 0x5b66_3814
  {
    hide Times, MixWord, MixTail, Beside, HashFrom;
    assert Length(key) == 2;
    Product3();
    assert key == [0xc3, 0x97];
    TailHashOfTwo(key);
  }

  lemma TailHashOfThree(rest: Bytes)
    requires rest == [0xe2, 0x99, 0xa5]
    ensures HashFrom(0xef72_eb8d, rest) == 0x323c_078f
  {
    hide Times;
    Product6();
    assert MixTail(0xf018_848d, 0xe2) == 0x323c_078f;
    assert Beside(0xef72_eb8d, 0xa5, 16) == 0xf017_eb8d && Beside(0xf017_eb8d, 0x99, 8) == 0xf018_848d;
  }

  lemma HashOfThree(key: Bytes)
    requires key == [0xe2, 0x99, 0xa5]
    ensures BloomHash(key) == 0x323c_078f
  {
    hide Times, MixWord, MixTail, Beside, HashFrom;
    assert Length(key) == 3;
    Product5();
    assert key == [0xe2, 0x99, 0xa5];
    TailHashOfThree(key);
  }

  lemma WordStepHashOfFour(key: Bytes)
    requires |key| >= 4 && key[..4] == [0xe1, 0x80, 0xb9, 0x32]
    ensures HashFrom(0xa60d_8378, key) == HashFrom(0xed21_633a, key[4..])
  {
    hide Times;
    assert DecodeFixed32(key[..4]).bits == 0x32b9_80e1;
    Product8();
    assert MixWord(0xa60d_8378, 0x32b9_80e1) == 0xed21_633a;
  }

  lemma HashOfFour(key: Bytes)
    requires key == [0xe1, 0x80, 0xb9, 0x32]
    ensures BloomHash(key) == 0xed21_633a
  {
    hide Times, MixWord, MixTail, Beside, HashFrom;
    assert Length(key) == 4;
    Product7();
    WordStepHashOfFour(key);
    assert key[4..] == [];
    NothingLeft(0xed21_633a);
  }

  lemma WordStepHashOfHello(key: Bytes)
    requires |key| >= 4 && key[..4] == [0x68, 0x65, 0x6c, 0x6c]
    ensures HashFrom(0x5da8_58eb, key) == HashFrom(0xb13d_df94, key[4..])
  {
    hide Times;
    assert DecodeFixed32(key[..4]).bits == 0x6c6c_6568;
    Product10();
    assert MixWord(0x5da8_58eb, 0x6c6c_6568) == 0xb13d_df94;
  }

  lemma TailHashOfHello(rest: Bytes)
    requires rest == [0x6f]
    ensures HashFrom(0xb13d_df94, rest) == 0xf795_964e
  {
    hide Times;
    Product11();
    assert MixTail(0xb13d_df94, 0x6f) == 0xf795_964e;
  }

  lemma HashOfHello(key: Bytes)
    requires key == [0x68, 0x65, 0x6c, 0x6c, 0x6f]
    ensures BloomHash(key) == 0xf795_964e
  {
    hide Times, MixWord, MixTail, Beside, HashFrom;
    assert Length(key) == 5;
    Product9();
    WordStepHashOfHello(key);
    assert key[4..] == [0x6f];
    TailHashOfHello(key[4..]);
  }

  lemma WordStepHashOfWorld(key: Bytes)
    requires |key| >= 4 && key[..4] == [0x77, 0x6f, 0x72, 0x6c]
    ensures HashFrom(0x5da8_58eb, key) == HashFrom(0xb0e0_4ea6, key[4..])
  {
    hide Times;
    assert DecodeFixed32(key[..4]).bits == 0x6c72_6f77;
    Product12();
    assert MixWord(0x5da8_58eb, 0x6c72_6f77) == 0xb0e0_4ea6;
  }

  lemma TailHashOfWorld(rest: Bytes)
    requires rest == [0x64]
    ensures HashFrom(0xb0e0_4ea6, rest) == 0x42c4_e8fc
  {
    hide Times;
    Product13();
    assert MixTail(0xb0e0_4ea6, 0x64) == 0x42c4_e8fc;
  }

  lemma HashOfWorld(key: Bytes)
    requires key == [0x77, 0x6f, 0x72, 0x6c, 0x64]
    ensures BloomHash(key) == 0x42c4_e8fc
  {
    hide Times, MixWord, MixTail, Beside, HashFrom;
    assert Length(key) == 5;
    Product9();
    WordStepHashOfWorld(key);
    assert key[4..] == [0x64];
    TailHashOfWorld(key[4..]);
  }

  lemma TailHashOfFoo(rest: Bytes)
    requires rest == [0x66, 0x6f, 0x6f]
    ensures HashFrom(0xef72_eb8d, rest) == 0x9dfa_be14
  {
    hide Times;
    Product14();
    assert MixTail(0xefe2_5a8d, 0x66) == 0x9dfa_be14;
    assert Beside(0xef72_eb8d, 0x6f, 16) == 0xefe1_eb8d && Beside(0xefe1_eb8d, 0x6f, 8) == 0xefe2_5a8d;
  }

  lemma HashOfFoo(key: Bytes)
    requires key == [0x66, 0x6f, 0x6f]
    ensures BloomHash(key) == 0x9dfa_be14
  {
    hide Times, MixWord, MixTail, Beside, HashFrom;
    assert Length(key) == 3;
    Product5();
    assert key == [0x66, 0x6f, 0x6f];
    TailHashOfFoo(key);
  }

  lemma NothingLeft(h: bv32)
    ensures HashFrom(h, []) == h
  {
  }

  lemma PlacedAt(key: Bytes, j: nat, h: bv32, at: nat)
    requires Probe(BloomHash(key), j) == h && h as nat % 64 == at
    ensures Position(key, j, 64) == at
  {
    hide BloomHash, Probe;
  }

  const HELLO: Bytes := [0x68, 0x65, 0x6c, 0x6c, 0x6f]
  const WORLD: Bytes := [0x77, 0x6f, 0x72, 0x6c, 0x64]
  const FOO: Bytes := [0x66, 0x6f, 0x6f]

  lemma StepsOfHello()
    ensures Probe(0xf795_964e, 0) == 0xf795_964e && Probe(0xf795_964e, 1) == 0xc2bd_1218 && Probe(0xf795_964e, 2) == 0x8de4_8de2 && Probe(0xf795_964e, 3) == 0x590c_09ac && Probe(0xf795_964e, 4) == 0x2433_8576 && Probe(0xf795_964e, 5) == 0xef5b_0140
  {
    assert Delta(0xf795_964e) == 0xcb27_7bca;
    assert Advance(0xf795_964e, 0xcb27_7bca) == 0xc2bd_1218;
    assert Advance(0xc2bd_1218, 0xcb27_7bca) == 0x8de4_8de2;
    assert Advance(0x8de4_8de2, 0xcb27_7bca) == 0x590c_09ac;
    assert Advance(0x590c_09ac, 0xcb27_7bca) == 0x2433_8576;
    assert Advance(0x2433_8576, 0xcb27_7bca) == 0xef5b_0140;
    hide Delta, Advance;
    assert Probe(0xf795_964e, 0) == 0xf795_964e;
    assert Probe(0xf795_964e, 1) == 0xc2bd_1218;
    assert Probe(0xf795_964e, 2) == 0x8de4_8de2;
    assert Probe(0xf795_964e, 3) == 0x590c_09ac;
    assert Probe(0xf795_964e, 4) == 0x2433_8576;
    assert Probe(0xf795_964e, 5) == 0xef5b_0140;
  }

  lemma ProbesOfHello()
    ensures forall j :: 0 <= j < 6 ==> Position(HELLO, j, 64) in {14, 24, 34, 44, 54, 0}
  {
    hide BloomHash, Probe, Position;
    HashOfHello(HELLO);
    StepsOfHello();
    PlacedAt(HELLO, 0, 0xf795_964e, 14);
    PlacedAt(HELLO, 1, 0xc2bd_1218, 24);
    PlacedAt(HELLO, 2, 0x8de4_8de2, 34);
    PlacedAt(HELLO, 3, 0x590c_09ac, 44);
    PlacedAt(HELLO, 4, 0x2433_8576, 54);
    PlacedAt(HELLO, 5, 0xef5b_0140, 0);
  }

  lemma StepsOfWorld()
    ensures Probe(0x42c4_e8fc, 0) == 0x42c4_e8fc && Probe(0x42c4_e8fc, 1) == 0xb743_0a5e && Probe(0x42c4_e8fc, 2) == 0x2bc1_2bc0 && Probe(0x42c4_e8fc, 3) == 0xa03f_4d22 && Probe(0x42c4_e8fc, 4) == 0x14bd_6e84 && Probe(0x42c4_e8fc, 5) == 0x893b_8fe6
  {
    assert Delta(0x42c4_e8fc) == 0x747e_2162;
    assert Advance(0x42c4_e8fc, 0x747e_2162) == 0xb743_0a5e;
    assert Advance(0xb743_0a5e, 0x747e_2162) == 0x2bc1_2bc0;
    assert Advance(0x2bc1_2bc0, 0x747e_2162) == 0xa03f_4d22;
    assert Advance(0xa03f_4d22, 0x747e_2162) == 0x14bd_6e84;
    assert Advance(0x14bd_6e84, 0x747e_2162) == 0x893b_8fe6;
    hide Delta, Advance;
    assert Probe(0x42c4_e8fc, 0) == 0x42c4_e8fc;
    assert Probe(0x42c4_e8fc, 1) == 0xb743_0a5e;
    assert Probe(0x42c4_e8fc, 2) == 0x2bc1_2bc0;
    assert Probe(0x42c4_e8fc, 3) == 0xa03f_4d22;
    assert Probe(0x42c4_e8fc, 4) == 0x14bd_6e84;
    assert Probe(0x42c4_e8fc, 5) == 0x893b_8fe6;
  }

  lemma ProbesOfWorld()
    ensures forall j :: 0 <= j < 6 ==> Position(WORLD, j, 64) in {60, 30, 0, 34, 4, 38}
  {
    hide BloomHash, Probe, Position;
    HashOfWorld(WORLD);
    StepsOfWorld();
    PlacedAt(WORLD, 0, 0x42c4_e8fc, 60);
    PlacedAt(WORLD, 1, 0xb743_0a5e, 30);
    PlacedAt(WORLD, 2, 0x2bc1_2bc0, 0);
    PlacedAt(WORLD, 3, 0xa03f_4d22, 34);
    PlacedAt(WORLD, 4, 0x14bd_6e84, 4);
    PlacedAt(WORLD, 5, 0x893b_8fe6, 38);
  }

  lemma ProbeOfFoo()
    ensures Position(FOO, 0, 64) == 20
  {
    hide BloomHash, Position;
    HashOfFoo(FOO);
    PlacedAt(FOO, 0, 0x9dfa_be14, 20);
  }

  /** In the filter of two keys, at ten bits a key and six probes, a third key is not found. */
  lemma FooIsKeptOut(filter: Bytes)
    requires FilterOf(filter, [HELLO, WORLD], 10, 6)
    ensures |filter| == 9 && !Matches(filter, FOO)
  {
    hide Position;
    ProbesOfHello();
    ProbesOfWorld();
    ProbeOfFoo();
    FilterOfExcludes(filter, [HELLO, WORLD], 10, 6, FOO, 0);
  }

  /** Ten bits a key make six probes. */
  method TenBitsAKey() returns (policy: BloomFilterPolicy)
    ensures fresh(policy) && policy.Ok() && policy.k == 6
  {
    policy := new BloomFilterPolicy(10);
  }
}
