/** The digest that FIPS 180-4 publishes for "abc", computed through every word of the schedule and
    every round, so that no rotation, constant or byte order is free. */
module Sha256Vectors {
  import opened Sha256

  // ==== one step ====

  /** Eight words of the schedule from word `t` on. */
  predicate WordsAre(block: Octets, t: nat, v: Vars)
    requires |block| == BLOCK
  {
    && W(block, t) == v.a && W(block, t + 1) == v.b && W(block, t + 2) == v.c && W(block, t + 3) == v.d
    && W(block, t + 4) == v.e && W(block, t + 5) == v.f && W(block, t + 6) == v.g && W(block, t + 7) == v.h
  }

  /** A word of the schedule from the four that it is made of. */
  function NextWord(back16: Word, back15: Word, back7: Word, back2: Word): Word {
    Plus(Plus(Plus(back16, SmallSigma0(back15)), back7), SmallSigma1(back2))
  }

  /** The next eight words, from the sixteen before them. */
  lemma NextWords(block: Octets, t: nat, x: Vars, y: Vars, z: Vars)
    requires |block| == BLOCK && t >= 16 && WordsAre(block, t - 16, x) && WordsAre(block, t - 8, y)
    requires z.a == NextWord(x.a, x.b, y.b, y.g) && z.b == NextWord(x.b, x.c, y.c, y.h)
    requires z.c == NextWord(x.c, x.d, y.d, z.a) && z.d == NextWord(x.d, x.e, y.e, z.b)
    requires z.e == NextWord(x.e, x.f, y.f, z.c) && z.f == NextWord(x.f, x.g, y.g, z.d)
    requires z.g == NextWord(x.g, x.h, y.h, z.e) && z.h == NextWord(x.h, y.a, z.a, z.f)
    ensures WordsAre(block, t, z)
  {
    hide W, NextWord;
    WordIs(block, t);
    WordIs(block, t + 1);
    WordIs(block, t + 2);
    WordIs(block, t + 3);
    WordIs(block, t + 4);
    WordIs(block, t + 5);
    WordIs(block, t + 6);
    WordIs(block, t + 7);
  }

  lemma WordIs(block: Octets, t: nat)
    requires |block| == BLOCK && t >= 16
    ensures W(block, t) == NextWord(W(block, t - 16), W(block, t - 15), W(block, t - 7), W(block, t - 2))
  {
    hide Plus, SmallSigma0, SmallSigma1;
    LateWord(block, t);
  }

  predicate ConstantsAre(t: nat, v: Vars)
    requires t + 7 < 64
  {
    && K(t) == v.a && K(t + 1) == v.b && K(t + 2) == v.c && K(t + 3) == v.d
    && K(t + 4) == v.e && K(t + 5) == v.f && K(t + 6) == v.g && K(t + 7) == v.h
  }

  /** A round moves six variables on and computes two. */
  lemma Turn(block: Octets, t: nat, v: Vars, k: Word, w: Word, a: Word, e: Word) returns (next: Vars)
    requires |block| == BLOCK && t < 64 && Rounds(INIT, block, t) == v && K(t) == k && W(block, t) == w
    requires Round(v, k, w) == Vars(a, v.a, v.b, v.c, e, v.e, v.f, v.g)
    ensures next == Vars(a, v.a, v.b, v.c, e, v.e, v.f, v.g) && Rounds(INIT, block, t + 1) == next
  {
    hide W, K, Round;
    next := Vars(a, v.a, v.b, v.c, e, v.e, v.f, v.g);
  }

  // ==== the message "abc" ====

  const WORDS0 := Vars(0x61626380, 0x00000000, 0x00000000, 0x00000000, 0x00000000, 0x00000000, 0x00000000, 0x00000000)
  const WORDS1 := Vars(0x00000000, 0x00000000, 0x00000000, 0x00000000, 0x00000000, 0x00000000, 0x00000000, 0x00000018)
  const WORDS2 := Vars(0x61626380, 0x000f0000, 0x7da86405, 0x600003c6, 0x3e9d7b78, 0x0183fc00, 0x12dcbfdb, 0xe2e2c38e)
  const WORDS3 := Vars(0xc8215c1a, 0xb73679a2, 0xe5bc3909, 0x32663c5b, 0x9d209d67, 0xec8726cb, 0x702138a4, 0xd3b7973b)
  const WORDS4 := Vars(0x93f5997f, 0x3b68ba73, 0xaff4ffc1, 0xf10a5c62, 0x0a8b3996, 0x72af830a, 0x9409e33e, 0x24641522)
  const WORDS5 := Vars(0x9f47bf94, 0xf0a64f5a, 0x3e246a79, 0x27333ba3, 0x0c4763f2, 0x840abf27, 0x7a290d5d, 0x065c43da)
  const WORDS6 := Vars(0xfb3e89cb, 0xcc7617db, 0xb9e66c34, 0xa9993667, 0x84badedd, 0xc21462bc, 0x1487472c, 0xb20f7a99)
  const WORDS7 := Vars(0xef57b9cd, 0xebe6b238, 0x9fe3095e, 0x78bc8d4b, 0xa43fcf15, 0x668b2ff8, 0xeeaba2cc, 0x12b1edeb)

  const STATE0 := Vars(0x6a09e667, 0xbb67ae85, 0x3c6ef372, 0xa54ff53a, 0x510e527f, 0x9b05688c, 0x1f83d9ab, 0x5be0cd19)
  const STATE1 := Vars(0x85a07b5f, 0xe5030380, 0x2b4209f5, 0x04409a6a, 0x0c657a79, 0x9b27a401, 0x714260ad, 0x43ada245)
  const STATE2 := Vars(0xb0fa238e, 0xc0645fde, 0xd932eb16, 0x87912990, 0x07590dcd, 0x0b92f20c, 0x745a48de, 0x1e578218)
  const STATE3 := Vars(0xc5d53d8d, 0xa7a3623f, 0xc2606d6d, 0x9dc68b63, 0xaa47c347, 0x49f5114a, 0xe1257970, 0x8ada8930)
  const STATE4 := Vars(0x73b33bf5, 0xea992a22, 0xa0060b30, 0x363482c9, 0xba591112, 0x0109ab3a, 0xade79437, 0x6112a3b7)
  const STATE5 := Vars(0x79ea687a, 0x6dc57a8a, 0x34df1604, 0x41a65cb1, 0x1efbc0a0, 0xf0781bc8, 0xa507a53d, 0x0772a26b)
  const STATE6 := Vars(0x4172328d, 0xa14c14b0, 0x72ab4b91, 0x26628815, 0xfecf0bc6, 0xd57b94a9, 0xb7755da1, 0xa80f11f0)
  const STATE7 := Vars(0x38cc9913, 0x3ec45cdb, 0xf5702fdb, 0x101fd28f, 0x54cb266b, 0xe50e1b4f, 0x9f4787c3, 0x529e7d00)
  const STATE8 := Vars(0x506e3058, 0xd39a2165, 0x04d24d6c, 0xb85e2ce9, 0x5ef50f24, 0xfb121210, 0x948d25b6, 0x961f4894)

  /** The padded message as the standard lays it out in words. */
  predicate IsAbc(block: Octets) {
    |block| == BLOCK && WordsAre(block, 0, WORDS0) && WordsAre(block, 8, WORDS1)
  }

  lemma Words2(block: Octets)
    requires IsAbc(block)
    ensures WordsAre(block, 16, WORDS2)
  {
    hide W;
    NextWords(block, 16, WORDS0, WORDS1, WORDS2);
  }

  lemma Words3(block: Octets)
    requires IsAbc(block) && WordsAre(block, 16, WORDS2)
    ensures WordsAre(block, 24, WORDS3)
  {
    hide W;
    NextWords(block, 24, WORDS1, WORDS2, WORDS3);
  }

  lemma Words4(block: Octets)
    requires IsAbc(block) && WordsAre(block, 16, WORDS2) && WordsAre(block, 24, WORDS3)
    ensures WordsAre(block, 32, WORDS4)
  {
    hide W;
    NextWords(block, 32, WORDS2, WORDS3, WORDS4);
  }

  lemma Words5(block: Octets)
    requires IsAbc(block) && WordsAre(block, 24, WORDS3) && WordsAre(block, 32, WORDS4)
    ensures WordsAre(block, 40, WORDS5)
  {
    hide W;
    NextWords(block, 40, WORDS3, WORDS4, WORDS5);
  }

  lemma Words6(block: Octets)
    requires IsAbc(block) && WordsAre(block, 32, WORDS4) && WordsAre(block, 40, WORDS5)
    ensures WordsAre(block, 48, WORDS6)
  {
    hide W;
    NextWords(block, 48, WORDS4, WORDS5, WORDS6);
  }

  lemma Words7(block: Octets)
    requires IsAbc(block) && WordsAre(block, 40, WORDS5) && WordsAre(block, 48, WORDS6)
    ensures WordsAre(block, 56, WORDS7)
  {
    hide W;
    NextWords(block, 56, WORDS5, WORDS6, WORDS7);
  }

  lemma Constants0()
    ensures ConstantsAre(0,
      Vars(0x428a2f98, 0x71374491, 0xb5c0fbcf, 0xe9b5dba5, 0x3956c25b, 0x59f111f1, 0x923f82a4, 0xab1c5ed5))
  {
  }

  lemma Constants8()
    ensures ConstantsAre(8,
      Vars(0xd807aa98, 0x12835b01, 0x243185be, 0x550c7dc3, 0x72be5d74, 0x80deb1fe, 0x9bdc06a7, 0xc19bf174))
  {
  }

  lemma Constants16()
    ensures ConstantsAre(16,
      Vars(0xe49b69c1, 0xefbe4786, 0x0fc19dc6, 0x240ca1cc, 0x2de92c6f, 0x4a7484aa, 0x5cb0a9dc, 0x76f988da))
  {
  }

  lemma Constants24()
    ensures ConstantsAre(24,
      Vars(0x983e5152, 0xa831c66d, 0xb00327c8, 0xbf597fc7, 0xc6e00bf3, 0xd5a79147, 0x06ca6351, 0x14292967))
  {
  }

  lemma Constants32()
    ensures ConstantsAre(32,
      Vars(0x27b70a85, 0x2e1b2138, 0x4d2c6dfc, 0x53380d13, 0x650a7354, 0x766a0abb, 0x81c2c92e, 0x92722c85))
  {
  }

  lemma Constants40()
    ensures ConstantsAre(40,
      Vars(0xa2bfe8a1, 0xa81a664b, 0xc24b8b70, 0xc76c51a3, 0xd192e819, 0xd6990624, 0xf40e3585, 0x106aa070))
  {
  }

  lemma Constants48()
    ensures ConstantsAre(48,
      Vars(0x19a4c116, 0x1e376c08, 0x2748774c, 0x34b0bcb5, 0x391c0cb3, 0x4ed8aa4a, 0x5b9cca4f, 0x682e6ff3))
  {
  }

  lemma Constants56()
    ensures ConstantsAre(56,
      Vars(0x748f82ee, 0x78a5636f, 0x84c87814, 0x8cc70208, 0x90befffa, 0xa4506ceb, 0xbef9a3f7, 0xc67178f2))
  {
  }

  lemma Rounds0(block: Octets)
    requires |block| == BLOCK && WordsAre(block, 0, WORDS0) && Rounds(INIT, block, 0) == STATE0
    ensures Rounds(INIT, block, 8) == STATE1
  {
    hide W, Rounds, K;
    Constants0();
    var v := STATE0;
    v := Turn(block, 0, v, 0x428a2f98, 0x61626380, 0x5d6aebcd, 0xfa2a4622);
    v := Turn(block, 1, v, 0x71374491, 0x00000000, 0x5a6ad9ad, 0x78ce7989);
    v := Turn(block, 2, v, 0xb5c0fbcf, 0x00000000, 0xc8c347a7, 0xf92939eb);
    v := Turn(block, 3, v, 0xe9b5dba5, 0x00000000, 0xd550f666, 0x24e00850);
    v := Turn(block, 4, v, 0x3956c25b, 0x00000000, 0x04409a6a, 0x43ada245);
    v := Turn(block, 5, v, 0x59f111f1, 0x00000000, 0x2b4209f5, 0x714260ad);
    v := Turn(block, 6, v, 0x923f82a4, 0x00000000, 0xe5030380, 0x9b27a401);
    v := Turn(block, 7, v, 0xab1c5ed5, 0x00000000, 0x85a07b5f, 0x0c657a79);
  }

  lemma Rounds8(block: Octets)
    requires |block| == BLOCK && WordsAre(block, 8, WORDS1) && Rounds(INIT, block, 8) == STATE1
    ensures Rounds(INIT, block, 16) == STATE2
  {
    hide W, Rounds, K;
    Constants8();
    var v := STATE1;
    v := Turn(block, 8, v, 0xd807aa98, 0x00000000, 0x8e04ecb9, 0x32ca2d8c);
    v := Turn(block, 9, v, 0x12835b01, 0x00000000, 0x8c87346b, 0x1cc92596);
    v := Turn(block, 10, v, 0x243185be, 0x00000000, 0x4798a3f4, 0x436b23e8);
    v := Turn(block, 11, v, 0x550c7dc3, 0x00000000, 0xf71fc5a9, 0x816fd6e9);
    v := Turn(block, 12, v, 0x72be5d74, 0x00000000, 0x87912990, 0x1e578218);
    v := Turn(block, 13, v, 0x80deb1fe, 0x00000000, 0xd932eb16, 0x745a48de);
    v := Turn(block, 14, v, 0x9bdc06a7, 0x00000000, 0xc0645fde, 0x0b92f20c);
    v := Turn(block, 15, v, 0xc19bf174, 0x00000018, 0xb0fa238e, 0x07590dcd);
  }

  lemma Rounds16(block: Octets)
    requires |block| == BLOCK && WordsAre(block, 16, WORDS2) && Rounds(INIT, block, 16) == STATE2
    ensures Rounds(INIT, block, 24) == STATE3
  {
    hide W, Rounds, K;
    Constants16();
    var v := STATE2;
    v := Turn(block, 16, v, 0xe49b69c1, 0x61626380, 0x21da9a9b, 0x8034229c);
    v := Turn(block, 17, v, 0xefbe4786, 0x000f0000, 0xc2fbd9d1, 0x846ee454);
    v := Turn(block, 18, v, 0x0fc19dc6, 0x7da86405, 0xfe777bbf, 0xcc899961);
    v := Turn(block, 19, v, 0x240ca1cc, 0x600003c6, 0xe1f20c33, 0xb0638179);
    v := Turn(block, 20, v, 0x2de92c6f, 0x3e9d7b78, 0x9dc68b63, 0x8ada8930);
    v := Turn(block, 21, v, 0x4a7484aa, 0x0183fc00, 0xc2606d6d, 0xe1257970);
    v := Turn(block, 22, v, 0x5cb0a9dc, 0x12dcbfdb, 0xa7a3623f, 0x49f5114a);
    v := Turn(block, 23, v, 0x76f988da, 0xe2e2c38e, 0xc5d53d8d, 0xaa47c347);
  }

  lemma Rounds24(block: Octets)
    requires |block| == BLOCK && WordsAre(block, 24, WORDS3) && Rounds(INIT, block, 24) == STATE3
    ensures Rounds(INIT, block, 32) == STATE4
  {
    hide W, Rounds, K;
    Constants24();
    var v := STATE3;
    v := Turn(block, 24, v, 0x983e5152, 0xc8215c1a, 0x1c2c2838, 0x2823ef91);
    v := Turn(block, 25, v, 0xa831c66d, 0xb73679a2, 0xcde8037d, 0x14383d8e);
    v := Turn(block, 26, v, 0xb00327c8, 0xe5bc3909, 0xb62ec4bc, 0xc74c6516);
    v := Turn(block, 27, v, 0xbf597fc7, 0x32663c5b, 0x77d37528, 0xedffbff8);
    v := Turn(block, 28, v, 0xc6e00bf3, 0x9d209d67, 0x363482c9, 0x6112a3b7);
    v := Turn(block, 29, v, 0xd5a79147, 0xec8726cb, 0xa0060b30, 0xade79437);
    v := Turn(block, 30, v, 0x06ca6351, 0x702138a4, 0xea992a22, 0x0109ab3a);
    v := Turn(block, 31, v, 0x14292967, 0xd3b7973b, 0x73b33bf5, 0xba591112);
  }

  lemma Rounds32(block: Octets)
    requires |block| == BLOCK && WordsAre(block, 32, WORDS4) && Rounds(INIT, block, 32) == STATE4
    ensures Rounds(INIT, block, 40) == STATE5
  {
    hide W, Rounds, K;
    Constants32();
    var v := STATE4;
    v := Turn(block, 32, v, 0x27b70a85, 0x93f5997f, 0x98e12507, 0x9cd9f5f6);
    v := Turn(block, 33, v, 0x2e1b2138, 0x3b68ba73, 0xfe604df5, 0x59249dd3);
    v := Turn(block, 34, v, 0x4d2c6dfc, 0xaff4ffc1, 0xa9a7738c, 0x085f3833);
    v := Turn(block, 35, v, 0x53380d13, 0xf10a5c62, 0x65a0cfe4, 0xf4b002d6);
    v := Turn(block, 36, v, 0x650a7354, 0x0a8b3996, 0x41a65cb1, 0x0772a26b);
    v := Turn(block, 37, v, 0x766a0abb, 0x72af830a, 0x34df1604, 0xa507a53d);
    v := Turn(block, 38, v, 0x81c2c92e, 0x9409e33e, 0x6dc57a8a, 0xf0781bc8);
    v := Turn(block, 39, v, 0x92722c85, 0x24641522, 0x79ea687a, 0x1efbc0a0);
  }

  lemma Rounds40(block: Octets)
    requires |block| == BLOCK && WordsAre(block, 40, WORDS5) && Rounds(INIT, block, 40) == STATE5
    ensures Rounds(INIT, block, 48) == STATE6
  {
    hide W, Rounds, K;
    Constants40();
    var v := STATE5;
    v := Turn(block, 40, v, 0xa2bfe8a1, 0x9f47bf94, 0xd6670766, 0x26352d63);
    v := Turn(block, 41, v, 0xa81a664b, 0xf0a64f5a, 0xdf46652f, 0x838b2711);
    v := Turn(block, 42, v, 0xc24b8b70, 0x3e246a79, 0x17aa0dfe, 0xdecd4715);
    v := Turn(block, 43, v, 0xc76c51a3, 0x27333ba3, 0x9d4baf93, 0xfda24c2e);
    v := Turn(block, 44, v, 0xd192e819, 0x0c4763f2, 0x26628815, 0xa80f11f0);
    v := Turn(block, 45, v, 0xd6990624, 0x840abf27, 0x72ab4b91, 0xb7755da1);
    v := Turn(block, 46, v, 0xf40e3585, 0x7a290d5d, 0xa14c14b0, 0xd57b94a9);
    v := Turn(block, 47, v, 0x106aa070, 0x065c43da, 0x4172328d, 0xfecf0bc6);
  }

  lemma Rounds48(block: Octets)
    requires |block| == BLOCK && WordsAre(block, 48, WORDS6) && Rounds(INIT, block, 48) == STATE6
    ensures Rounds(INIT, block, 56) == STATE7
  {
    hide W, Rounds, K;
    Constants48();
    var v := STATE6;
    v := Turn(block, 48, v, 0x19a4c116, 0xfb3e89cb, 0x05757ceb, 0xbd714038);
    v := Turn(block, 49, v, 0x1e376c08, 0xcc7617db, 0xf11bfaa8, 0x6e5c390c);
    v := Turn(block, 50, v, 0x2748774c, 0xb9e66c34, 0x7a0508a1, 0x52f1ccf7);
    v := Turn(block, 51, v, 0x34b0bcb5, 0xa9993667, 0x886e7a22, 0x49231c1e);
    v := Turn(block, 52, v, 0x391c0cb3, 0x84badedd, 0x101fd28f, 0x529e7d00);
    v := Turn(block, 53, v, 0x4ed8aa4a, 0xc21462bc, 0xf5702fdb, 0x9f4787c3);
    v := Turn(block, 54, v, 0x5b9cca4f, 0x1487472c, 0x3ec45cdb, 0xe50e1b4f);
    v := Turn(block, 55, v, 0x682e6ff3, 0xb20f7a99, 0x38cc9913, 0x54cb266b);
  }

  lemma Rounds56(block: Octets)
    requires |block| == BLOCK && WordsAre(block, 56, WORDS7) && Rounds(INIT, block, 56) == STATE7
    ensures Rounds(INIT, block, 64) == STATE8
  {
    hide W, Rounds, K;
    Constants56();
    var v := STATE7;
    v := Turn(block, 56, v, 0x748f82ee, 0xef57b9cd, 0xfcd1887b, 0x9b5e906c);
    v := Turn(block, 57, v, 0x78a5636f, 0xebe6b238, 0xc062d46f, 0x7e44008e);
    v := Turn(block, 58, v, 0x84c87814, 0x9fe3095e, 0xffb70472, 0x6d83bfc6);
    v := Turn(block, 59, v, 0x8cc70208, 0x78bc8d4b, 0xb6ae8fff, 0xb21bad3d);
    v := Turn(block, 60, v, 0x90befffa, 0xa43fcf15, 0xb85e2ce9, 0x961f4894);
    v := Turn(block, 61, v, 0xa4506ceb, 0x668b2ff8, 0x04d24d6c, 0x948d25b6);
    v := Turn(block, 62, v, 0xbef9a3f7, 0xeeaba2cc, 0xd39a2165, 0xfb121210);
    v := Turn(block, 63, v, 0xc67178f2, 0x12b1edeb, 0x506e3058, 0x5ef50f24);
  }

  lemma AbcRounds(block: Octets)
    requires IsAbc(block)
    ensures Rounds(INIT, block, 64) == STATE8
  {
    hide W, Rounds, WordsAre;
    AbcWords(block);
    assert Rounds(INIT, block, 0) == STATE0 by { Start(block); }
    Rounds0(block);
    Rounds8(block);
    Rounds16(block);
    Rounds24(block);
    Rounds32(block);
    Rounds40(block);
    Rounds48(block);
    Rounds56(block);
  }

  lemma Start(block: Octets)
    requires |block| == BLOCK
    ensures Rounds(INIT, block, 0) == STATE0
  {
  }

  lemma AbcWords(block: Octets)
    requires IsAbc(block)
    ensures WordsAre(block, 0, WORDS0) && WordsAre(block, 8, WORDS1) && WordsAre(block, 16, WORDS2)
    ensures WordsAre(block, 24, WORDS3) && WordsAre(block, 32, WORDS4) && WordsAre(block, 40, WORDS5)
    ensures WordsAre(block, 48, WORDS6) && WordsAre(block, 56, WORDS7)
  {
    hide WordsAre;
    Words2(block);
    Words3(block);
    Words4(block);
    Words5(block);
    Words6(block);
    Words7(block);
  }

  // ==== the padded message ====

  const ABC: Octets := [0x61, 0x62, 0x63]

  lemma AbcPadded() returns (block: Octets)
    ensures block == ABC + Padding(|ABC|) && IsAbc(block)
  {
    hide W, LengthOctets, BigEndian;
    block := ABC + Padding(|ABC|);
    AbcLength();
    assert |block| == BLOCK;
    AbcOctets(block);
    AbcEarly(block);
    AbcLate(block);
  }

  /** The message is 24 bits long. */
  lemma AbcLength()
    ensures LengthOctets(8 * |ABC| % U64_LIMIT) == [0, 0, 0, 0, 0, 0, 0, 24]
  {
    hide Power256;
    assert 8 * |ABC| % U64_LIMIT == 24;
    Small(0);
    Small(1);
    Small(2);
    Small(3);
    Small(4);
    Small(5);
    Small(6);
    assert Power256(0) == 1 by { One(); }
    var r := LengthOctets(24);
    assert r[0] == 0 && r[1] == 0 && r[2] == 0 && r[3] == 0 && r[4] == 0 && r[5] == 0 && r[6] == 0;
    assert r[7] == 24;
  }

  lemma One()
    ensures Power256(0) == 1
  {
  }

  lemma Small(i: nat)
    requires i < 7
    ensures LengthOctet(24, i) == 0
  {
    hide Power256;
    Above(7 - i);
    None(24, Power256(7 - i));
  }

  lemma Above(i: nat)
    requires i > 0
    ensures Power256(i) > 24
  {
    assert Power256(i - 1) >= 1;
  }

  lemma None(n: nat, p: nat)
    requires n < p
    ensures n / p == 0
  {
  }

  predicate AbcBytes(block: Octets) {
    && |block| == BLOCK && block[0] == 0x61 && block[1] == 0x62 && block[2] == 0x63 && block[3] == 0x80
    && (forall i :: 4 <= i < 63 ==> block[i] == 0) && block[63] == 24
  }

  lemma AbcOctets(block: Octets)
    requires block == ABC + Padding(|ABC|) && LengthOctets(8 * |ABC| % U64_LIMIT) == [0, 0, 0, 0, 0, 0, 0, 24]
    ensures AbcBytes(block)
  {
    hide LengthOctets;
    assert PadZeros(3) == 52;
    assert Padding(3) == [0x80] + Zeros(52) + [0, 0, 0, 0, 0, 0, 0, 24];
  }

  lemma AbcEarly(block: Octets)
    requires AbcBytes(block)
    ensures WordsAre(block, 0, WORDS0)
  {
    EarlyWord(block, 0);
    EarlyWord(block, 1);
    EarlyWord(block, 2);
    EarlyWord(block, 3);
    EarlyWord(block, 4);
    EarlyWord(block, 5);
    EarlyWord(block, 6);
    EarlyWord(block, 7);
  }

  lemma AbcLate(block: Octets)
    requires AbcBytes(block)
    ensures WordsAre(block, 8, WORDS1)
  {
    EarlyWord(block, 8);
    EarlyWord(block, 9);
    EarlyWord(block, 10);
    EarlyWord(block, 11);
    EarlyWord(block, 12);
    EarlyWord(block, 13);
    EarlyWord(block, 14);
    EarlyWord(block, 15);
  }

  // ==== the published digest ====

  const FINAL := Vars(0xba7816bf, 0x8f01cfea, 0x414140de, 0x5dae2223, 0xb00361a3, 0x96177a9c, 0xb410ff61, 0xf20015ad)

  /** FIPS 180-4, the one-block example: SHA-256("abc"). */
  lemma AbcDigest()
    ensures Digest(ABC) == [0xba, 0x78, 0x16, 0xbf, 0x8f, 0x01, 0xcf, 0xea]
                         + [0x41, 0x41, 0x40, 0xde, 0x5d, 0xae, 0x22, 0x23]
                         + [0xb0, 0x03, 0x61, 0xa3, 0x96, 0x17, 0x7a, 0x9c]
                         + [0xb4, 0x10, 0xff, 0x61, 0xf2, 0x00, 0x15, 0xad]
  {
    hide Compressed, Fold, AllOctets, Padding;
    var block := AbcPadded();
    FoldBlock(INIT, block);
    AbcCompressed(block);
    AbcSpelled();
  }

  lemma AbcCompressed(block: Octets)
    requires IsAbc(block)
    ensures Compressed(INIT, block) == FINAL
  {
    hide Rounds, IsAbc;
    AbcRounds(block);
  }

  lemma AbcSpelled()
    ensures AllOctets(VarsWords(FINAL)) == [0xba, 0x78, 0x16, 0xbf, 0x8f, 0x01, 0xcf, 0xea]
                                         + [0x41, 0x41, 0x40, 0xde, 0x5d, 0xae, 0x22, 0x23]
                                         + [0xb0, 0x03, 0x61, 0xa3, 0x96, 0x17, 0x7a, 0x9c]
                                         + [0xb4, 0x10, 0xff, 0x61, 0xf2, 0x00, 0x15, 0xad]
  {
    hide WordOctets, AllOctets;
    var words := VarsWords(FINAL);
    WordSpelled(words, 0, 0xba7816bf, 0xba, 0x78, 0x16, 0xbf);
    WordSpelled(words, 1, 0x8f01cfea, 0x8f, 0x01, 0xcf, 0xea);
    WordSpelled(words, 2, 0x414140de, 0x41, 0x41, 0x40, 0xde);
    WordSpelled(words, 3, 0x5dae2223, 0x5d, 0xae, 0x22, 0x23);
    WordSpelled(words, 4, 0xb00361a3, 0xb0, 0x03, 0x61, 0xa3);
    WordSpelled(words, 5, 0x96177a9c, 0x96, 0x17, 0x7a, 0x9c);
    WordSpelled(words, 6, 0xb410ff61, 0xb4, 0x10, 0xff, 0x61);
    WordSpelled(words, 7, 0xf20015ad, 0xf2, 0x00, 0x15, 0xad);
  }

  lemma WordSpelled(words: seq<Word>, i: nat, w: Word, a: Octet, b: Octet, c: Octet, d: Octet)
    requires i < |words| && words[i] == w && w == BigEndian(a, b, c, d)
    ensures AllOctets(words)[4 * i] == a && AllOctets(words)[4 * i + 1] == b
    ensures AllOctets(words)[4 * i + 2] == c && AllOctets(words)[4 * i + 3] == d
  {
    hide AllOctets, BigEndian, WordOctets;
    BigEndianBack(a, b, c, d);
    AllOctetsAt(words, i);
    var s := AllOctets(words)[4 * i..4 * i + 4];
    assert s == [a, b, c, d];
    assert s[0] == AllOctets(words)[4 * i] && s[1] == AllOctets(words)[4 * i + 1];
    assert s[2] == AllOctets(words)[4 * i + 2] && s[3] == AllOctets(words)[4 * i + 3];
  }

  /** Writing a word undoes reading it. */
  lemma BigEndianBack(a: Octet, b: Octet, c: Octet, d: Octet)
    ensures WordOctets(BigEndian(a, b, c, d)) == [a, b, c, d]
  {
  }

  lemma {:induction false} AllOctetsAt(words: seq<Word>, i: nat)
    requires i < |words|
    ensures AllOctets(words)[4 * i..4 * i + 4] == WordOctets(words[i])
  {
    hide WordOctets;
    var last := |words| - 1;
    if i < last {
      AllOctetsAt(words[..last], i);
      assert AllOctets(words)[4 * i..4 * i + 4] == AllOctets(words[..last])[4 * i..4 * i + 4];
    }
  }

}
