/** The Salsa20/8 vector that section 8 of RFC 7914 publishes, computed through every quarter round, and
    the small cases of the functions of sections 4 to 6. */
module ScryptVectors {
  import opened Sha256
  import opened Hmac
  import opened ScryptSpec

  // ==== one quarter round ====

  /** From four words to four. */
  predicate IsTurn(x: Word, y: Word, z: Word, w: Word, x1: Word, y1: Word, z1: Word, w1: Word) {
    y1 == Mix(y, x, w, 7) && z1 == Mix(z, y1, x, 9) && w1 == Mix(w, z1, y1, 13) && x1 == Mix(x, w1, z1, 18)
  }

  /** Position by position, what a quarter round leaves. */
  predicate Turns(s: Words, t: Words, a: nat, b: nat, c: nat, d: nat)
    requires |s| == 16 && |t| == 16 && a < 16 && b < 16 && c < 16 && d < 16
  {
    IsTurn(s[a], s[b], s[c], s[d], t[a], t[b], t[c], t[d])
  }

  lemma QuarterIs(s: Words, a: nat, b: nat, c: nat, d: nat, x: Word, y: Word, z: Word, w: Word)
    requires |s| == 16 && a < 16 && b < 16 && c < 16 && d < 16
    requires a != b && a != c && a != d && b != c && b != d && c != d
    requires IsTurn(s[a], s[b], s[c], s[d], x, y, z, w)
    ensures Quarter(s, a, b, c, d) == s[b := y][c := z][d := w][a := x]
  {
    hide Mix;
  }

  /** The column or the row of a position. */
  function Line(i: nat, rows: bool): nat {
    if rows then i / 4 else i % 4
  }

  /** Of the words of `s`, those in the first `k` lines have become those of `t`. */
  predicate Between(u: Words, s: Words, t: Words, k: nat, rows: bool) {
    |u| == 16 && |s| == 16 && |t| == 16 && forall i: nat :: i < 16 ==> u[i] == if Line(i, rows) < k then t[i] else s[i]
  }

  lemma NextQuarter(u: Words, s: Words, t: Words, k: nat, rows: bool, a: nat, b: nat, c: nat, d: nat)
    requires Between(u, s, t, k, rows) && a < 16 && b < 16 && c < 16 && d < 16 && Turns(s, t, a, b, c, d)
    requires a != b && a != c && a != d && b != c && b != d && c != d
    requires Line(a, rows) == k && Line(b, rows) == k && Line(c, rows) == k && Line(d, rows) == k
    requires forall i: nat :: i < 16 && Line(i, rows) == k ==> i == a || i == b || i == c || i == d
    ensures Between(Quarter(u, a, b, c, d), s, t, k + 1, rows)
  {
    hide IsTurn, Quarter, Line;
    QuarterIs(u, a, b, c, d, t[a], t[b], t[c], t[d]);
  }

  lemma NoneDone(s: Words, t: Words, rows: bool)
    requires |s| == 16 && |t| == 16
    ensures Between(s, s, t, 0, rows)
  {
  }

  lemma ColumnsAre(s: Words, t: Words)
    requires |s| == 16 && |t| == 16 && Turns(s, t, 0, 4, 8, 12) && Turns(s, t, 5, 9, 13, 1)
    requires Turns(s, t, 10, 14, 2, 6) && Turns(s, t, 15, 3, 7, 11)
    ensures Columns(s) == t
  {
    hide Turns, Quarter, Between;
    NoneDone(s, t, false);
    var s1, rows := Quarter(s, 0, 4, 8, 12), false;
    NextQuarter(s, s, t, 0, rows, 0, 4, 8, 12);
    var s2 := Quarter(s1, 5, 9, 13, 1);
    NextQuarter(s1, s, t, 1, rows, 5, 9, 13, 1);
    var s3 := Quarter(s2, 10, 14, 2, 6);
    NextQuarter(s2, s, t, 2, rows, 10, 14, 2, 6);
    NextQuarter(s3, s, t, 3, rows, 15, 3, 7, 11);
    AllDone(Columns(s), s, t, rows);
  }

  lemma RowsAre(s: Words, t: Words)
    requires |s| == 16 && |t| == 16 && Turns(s, t, 0, 1, 2, 3) && Turns(s, t, 5, 6, 7, 4)
    requires Turns(s, t, 10, 11, 8, 9) && Turns(s, t, 15, 12, 13, 14)
    ensures Rows(s) == t
  {
    hide Turns, Quarter, Between;
    NoneDone(s, t, true);
    var s1, rows := Quarter(s, 0, 1, 2, 3), true;
    NextQuarter(s, s, t, 0, rows, 0, 1, 2, 3);
    var s2 := Quarter(s1, 5, 6, 7, 4);
    NextQuarter(s1, s, t, 1, rows, 5, 6, 7, 4);
    var s3 := Quarter(s2, 10, 11, 8, 9);
    NextQuarter(s2, s, t, 2, rows, 10, 11, 8, 9);
    NextQuarter(s3, s, t, 3, rows, 15, 12, 13, 14);
    AllDone(Rows(s), s, t, rows);
  }

  lemma AllDone(u: Words, s: Words, t: Words, rows: bool)
    requires Between(u, s, t, 4, rows)
    ensures u == t
  {
  }

  // ==== section 8 ====

  const STATE0: Words := [
    0x219a877e, 0x86c93e4f, 0xe640a97c, 0x268f7141, 0x5b55eeba, 0xb5c1618c, 0x1146f80d, 0x1d3bcd6d,
    0x19f324ee, 0x853d9bdf, 0x4b1e1214, 0x32aac55a, 0x291d0276, 0x2948c709, 0x8dc6ebed, 0x5ec2b8b8]
  const STATE1: Words := [
    0x08857f83, 0xbc4dffa4, 0x225a0768, 0x90307809, 0x0091149f, 0xc3e54d59, 0xd113843e, 0xfb5a4eb0,
    0x4ecb1eaa, 0xc0727641, 0x6585dfa2, 0x6a7df42b, 0xaf742b9d, 0x4ee75de5, 0xbf43fb43, 0x55af2fd9]
  const STATE2: Words := [
    0x482665b1, 0xe6b639e8, 0x5528d0b6, 0x7163bf72, 0x93580e01, 0x0c50b5fd, 0xea23785c, 0xead125ec,
    0xf701a95d, 0xd590a7ea, 0x209aedeb, 0x965705b9, 0xd6e1a597, 0x6f4dbdbc, 0x53299386, 0x10a42604]
  const STATE3: Words := [
    0xb4cf7248, 0xb8e79720, 0x3e130cef, 0x0cf661a1, 0x175daa0e, 0xde3bd4f1, 0x5dbd3119, 0xdfde6fd7,
    0xff1ed7e2, 0x56e75513, 0xd8b882ab, 0x0c781823, 0x46dfa758, 0x1f5b9d7a, 0x0c1ab003, 0x0f4f975e]
  const STATE4: Words := [
    0xe9e67835, 0x5a0e63c0, 0x85bf1cf2, 0xbce03a58, 0x95e02c9d, 0x10a33116, 0x91024ee3, 0xa399c709,
    0x678d68da, 0x70e69077, 0x3dffe364, 0xc393c734, 0xf3fc17d5, 0x8805fb7c, 0x4e709f83, 0x64b0ce84]
  const STATE5: Words := [
    0xfbef1227, 0x12c789d1, 0x56808ce8, 0x9eaae64c, 0x64a829f3, 0x43dbdd85, 0xd82bca5e, 0x14f0670f,
    0x7ac93847, 0x282cfb42, 0x60e759d5, 0xaa38b147, 0xdfbb4c3b, 0x285d4b0d, 0xcf69bc64, 0x05ea3220]
  const STATE6: Words := [
    0x28f2a180, 0x5e3bb01c, 0x03040a5c, 0x69e5ea6b, 0x997f9f3c, 0x1c650ad9, 0x9a28760a, 0x1c5778b3,
    0x89e18946, 0x5055ce7c, 0x3fec3108, 0x20123a83, 0x764c0e51, 0x44dda9f5, 0xf8616b01, 0x5632c6dc]
  const STATE7: Words := [
    0xb0e98b83, 0x346a63e9, 0x3d22e238, 0x4b6545d0, 0x062877f3, 0x1abe5aed, 0x22bcf3e0, 0x2c4e21f0,
    0xbfd36f18, 0x0008b4c1, 0x678d4e77, 0x4cea3475, 0x0aad76ee, 0x9fa29dcd, 0xf232e26c, 0x0fa7223d]
  const STATE8: Words := [
    0x7aea9826, 0x1302ca17, 0xe589d7bf, 0xdf5f9ac1, 0x25cb5c4a, 0xc7729c16, 0x51d583f0, 0x0bf39b29,
    0x4e3e14c6, 0x37a92e04, 0x6ca759ea, 0x87eba846, 0xe7af226e, 0x332bca23, 0xafa0c137, 0x22cca90f]

  const OUTPUT: Words := [
    0x9c851fa4, 0x99cc0866, 0xcbca813b, 0x05ef0c02, 0x81214b04, 0x7d33fda2, 0x631c7bfd, 0x292f6896,
    0x683139b4, 0xbce6c9e3, 0xb7c56bfe, 0xba966da0, 0x10cc24e4, 0x5c74912c, 0x3d67ad24, 0x818f61c7]

  lemma Half0()
    ensures Columns(STATE0) == STATE1
  {
    assert IsTurn(0x219a877e, 0x5b55eeba, 0x19f324ee, 0x291d0276,
      0x08857f83, 0x0091149f, 0x4ecb1eaa, 0xaf742b9d);
    assert IsTurn(0xb5c1618c, 0x853d9bdf, 0x2948c709, 0x86c93e4f,
      0xc3e54d59, 0xc0727641, 0x4ee75de5, 0xbc4dffa4);
    assert IsTurn(0x4b1e1214, 0x8dc6ebed, 0xe640a97c, 0x1146f80d,
      0x6585dfa2, 0xbf43fb43, 0x225a0768, 0xd113843e);
    assert IsTurn(0x5ec2b8b8, 0x268f7141, 0x1d3bcd6d, 0x32aac55a,
      0x55af2fd9, 0x90307809, 0xfb5a4eb0, 0x6a7df42b);
    hide IsTurn, Columns;
    ColumnsAre(STATE0, STATE1);
  }

  lemma Half1()
    ensures Rows(STATE1) == STATE2
  {
    assert IsTurn(0x08857f83, 0xbc4dffa4, 0x225a0768, 0x90307809,
      0x482665b1, 0xe6b639e8, 0x5528d0b6, 0x7163bf72);
    assert IsTurn(0xc3e54d59, 0xd113843e, 0xfb5a4eb0, 0x0091149f,
      0x0c50b5fd, 0xea23785c, 0xead125ec, 0x93580e01);
    assert IsTurn(0x6585dfa2, 0x6a7df42b, 0x4ecb1eaa, 0xc0727641,
      0x209aedeb, 0x965705b9, 0xf701a95d, 0xd590a7ea);
    assert IsTurn(0x55af2fd9, 0xaf742b9d, 0x4ee75de5, 0xbf43fb43,
      0x10a42604, 0xd6e1a597, 0x6f4dbdbc, 0x53299386);
    hide IsTurn, Rows;
    RowsAre(STATE1, STATE2);
  }

  lemma Half2()
    ensures Columns(STATE2) == STATE3
  {
    assert IsTurn(0x482665b1, 0x93580e01, 0xf701a95d, 0xd6e1a597,
      0xb4cf7248, 0x175daa0e, 0xff1ed7e2, 0x46dfa758);
    assert IsTurn(0x0c50b5fd, 0xd590a7ea, 0x6f4dbdbc, 0xe6b639e8,
      0xde3bd4f1, 0x56e75513, 0x1f5b9d7a, 0xb8e79720);
    assert IsTurn(0x209aedeb, 0x53299386, 0x5528d0b6, 0xea23785c,
      0xd8b882ab, 0x0c1ab003, 0x3e130cef, 0x5dbd3119);
    assert IsTurn(0x10a42604, 0x7163bf72, 0xead125ec, 0x965705b9,
      0x0f4f975e, 0x0cf661a1, 0xdfde6fd7, 0x0c781823);
    hide IsTurn, Columns;
    ColumnsAre(STATE2, STATE3);
  }

  lemma Half3()
    ensures Rows(STATE3) == STATE4
  {
    assert IsTurn(0xb4cf7248, 0xb8e79720, 0x3e130cef, 0x0cf661a1,
      0xe9e67835, 0x5a0e63c0, 0x85bf1cf2, 0xbce03a58);
    assert IsTurn(0xde3bd4f1, 0x5dbd3119, 0xdfde6fd7, 0x175daa0e,
      0x10a33116, 0x91024ee3, 0xa399c709, 0x95e02c9d);
    assert IsTurn(0xd8b882ab, 0x0c781823, 0xff1ed7e2, 0x56e75513,
      0x3dffe364, 0xc393c734, 0x678d68da, 0x70e69077);
    assert IsTurn(0x0f4f975e, 0x46dfa758, 0x1f5b9d7a, 0x0c1ab003,
      0x64b0ce84, 0xf3fc17d5, 0x8805fb7c, 0x4e709f83);
    hide IsTurn, Rows;
    RowsAre(STATE3, STATE4);
  }

  lemma Half4()
    ensures Columns(STATE4) == STATE5
  {
    assert IsTurn(0xe9e67835, 0x95e02c9d, 0x678d68da, 0xf3fc17d5,
      0xfbef1227, 0x64a829f3, 0x7ac93847, 0xdfbb4c3b);
    assert IsTurn(0x10a33116, 0x70e69077, 0x8805fb7c, 0x5a0e63c0,
      0x43dbdd85, 0x282cfb42, 0x285d4b0d, 0x12c789d1);
    assert IsTurn(0x3dffe364, 0x4e709f83, 0x85bf1cf2, 0x91024ee3,
      0x60e759d5, 0xcf69bc64, 0x56808ce8, 0xd82bca5e);
    assert IsTurn(0x64b0ce84, 0xbce03a58, 0xa399c709, 0xc393c734,
      0x05ea3220, 0x9eaae64c, 0x14f0670f, 0xaa38b147);
    hide IsTurn, Columns;
    ColumnsAre(STATE4, STATE5);
  }

  lemma Half5()
    ensures Rows(STATE5) == STATE6
  {
    assert IsTurn(0xfbef1227, 0x12c789d1, 0x56808ce8, 0x9eaae64c,
      0x28f2a180, 0x5e3bb01c, 0x03040a5c, 0x69e5ea6b);
    assert IsTurn(0x43dbdd85, 0xd82bca5e, 0x14f0670f, 0x64a829f3,
      0x1c650ad9, 0x9a28760a, 0x1c5778b3, 0x997f9f3c);
    assert IsTurn(0x60e759d5, 0xaa38b147, 0x7ac93847, 0x282cfb42,
      0x3fec3108, 0x20123a83, 0x89e18946, 0x5055ce7c);
    assert IsTurn(0x05ea3220, 0xdfbb4c3b, 0x285d4b0d, 0xcf69bc64,
      0x5632c6dc, 0x764c0e51, 0x44dda9f5, 0xf8616b01);
    hide IsTurn, Rows;
    RowsAre(STATE5, STATE6);
  }

  lemma Half6()
    ensures Columns(STATE6) == STATE7
  {
    assert IsTurn(0x28f2a180, 0x997f9f3c, 0x89e18946, 0x764c0e51,
      0xb0e98b83, 0x062877f3, 0xbfd36f18, 0x0aad76ee);
    assert IsTurn(0x1c650ad9, 0x5055ce7c, 0x44dda9f5, 0x5e3bb01c,
      0x1abe5aed, 0x0008b4c1, 0x9fa29dcd, 0x346a63e9);
    assert IsTurn(0x3fec3108, 0xf8616b01, 0x03040a5c, 0x9a28760a,
      0x678d4e77, 0xf232e26c, 0x3d22e238, 0x22bcf3e0);
    assert IsTurn(0x5632c6dc, 0x69e5ea6b, 0x1c5778b3, 0x20123a83,
      0x0fa7223d, 0x4b6545d0, 0x2c4e21f0, 0x4cea3475);
    hide IsTurn, Columns;
    ColumnsAre(STATE6, STATE7);
  }

  lemma Half7()
    ensures Rows(STATE7) == STATE8
  {
    assert IsTurn(0xb0e98b83, 0x346a63e9, 0x3d22e238, 0x4b6545d0,
      0x7aea9826, 0x1302ca17, 0xe589d7bf, 0xdf5f9ac1);
    assert IsTurn(0x1abe5aed, 0x22bcf3e0, 0x2c4e21f0, 0x062877f3,
      0xc7729c16, 0x51d583f0, 0x0bf39b29, 0x25cb5c4a);
    assert IsTurn(0x678d4e77, 0x4cea3475, 0xbfd36f18, 0x0008b4c1,
      0x6ca759ea, 0x87eba846, 0x4e3e14c6, 0x37a92e04);
    assert IsTurn(0x0fa7223d, 0x0aad76ee, 0x9fa29dcd, 0xf232e26c,
      0x22cca90f, 0xe7af226e, 0x332bca23, 0xafa0c137);
    hide IsTurn, Rows;
    RowsAre(STATE7, STATE8);
  }

  lemma FourDoubleRounds()
    ensures DoubleRounds(STATE0, 4) == STATE8
  {
    hide Rows, Columns;
    Half0();
    Half1();
    Half2();
    Half3();
    Half4();
    Half5();
    Half6();
    Half7();
    assert DoubleRounds(STATE0, 0) == STATE0;
    assert DoubleRounds(STATE0, 1) == STATE2;
    assert DoubleRounds(STATE0, 2) == STATE4;
    assert DoubleRounds(STATE0, 3) == STATE6;
  }

  /** The published output for the published input, as words. */
  lemma SalsaVector()
    ensures Salsa(STATE0) == OUTPUT
  {
    hide DoubleRounds, Plus;
    FourDoubleRounds();
    LowSums();
    HighSums();
    SumsAre(STATE0, STATE8, OUTPUT);
  }

  lemma SumsAre(x: Words, y: Words, t: Words)
    requires |x| == 16 && |y| == 16 && |t| == 16 && DoubleRounds(x, 4) == y
    requires AreSums(x, y, t, 0) && AreSums(x, y, t, 8)
    ensures Salsa(x) == t
  {
    hide DoubleRounds, Plus, AreSums;
    forall j: nat | j < 16
      ensures Salsa(x)[j] == t[j]
    {
      SumAt(x, y, t, if j < 8 then 0 else 8, j);
    }
  }

  lemma SumAt(x: Words, y: Words, t: Words, i: nat, j: nat)
    requires i + 8 <= |x| && i + 8 <= |y| && i + 8 <= |t| && AreSums(x, y, t, i) && i <= j < i + 8
    ensures t[j] == Plus(x[j], y[j])
  {
    hide Plus;
  }

  /** Eight sums from place `i` on. */
  predicate AreSums(x: Words, y: Words, t: Words, i: nat)
    requires i + 8 <= |x| && i + 8 <= |y| && i + 8 <= |t|
  {
    && t[i] == Plus(x[i], y[i]) && t[i + 1] == Plus(x[i + 1], y[i + 1]) && t[i + 2] == Plus(x[i + 2], y[i + 2])
    && t[i + 3] == Plus(x[i + 3], y[i + 3]) && t[i + 4] == Plus(x[i + 4], y[i + 4])
    && t[i + 5] == Plus(x[i + 5], y[i + 5]) && t[i + 6] == Plus(x[i + 6], y[i + 6])
    && t[i + 7] == Plus(x[i + 7], y[i + 7])
  }

  lemma LowSums()
    ensures AreSums(STATE0, STATE8, OUTPUT, 0)
  {
    assert Plus(0x219a877e, 0x7aea9826) == 0x9c851fa4;
    assert Plus(0x86c93e4f, 0x1302ca17) == 0x99cc0866;
    assert Plus(0xe640a97c, 0xe589d7bf) == 0xcbca813b;
    assert Plus(0x268f7141, 0xdf5f9ac1) == 0x05ef0c02;
    assert Plus(0x5b55eeba, 0x25cb5c4a) == 0x81214b04;
    assert Plus(0xb5c1618c, 0xc7729c16) == 0x7d33fda2;
    assert Plus(0x1146f80d, 0x51d583f0) == 0x631c7bfd;
    assert Plus(0x1d3bcd6d, 0x0bf39b29) == 0x292f6896;
  }

  lemma HighSums()
    ensures AreSums(STATE0, STATE8, OUTPUT, 8)
  {
    assert Plus(0x19f324ee, 0x4e3e14c6) == 0x683139b4;
    assert Plus(0x853d9bdf, 0x37a92e04) == 0xbce6c9e3;
    assert Plus(0x4b1e1214, 0x6ca759ea) == 0xb7c56bfe;
    assert Plus(0x32aac55a, 0x87eba846) == 0xba966da0;
    assert Plus(0x291d0276, 0xe7af226e) == 0x10cc24e4;
    assert Plus(0x2948c709, 0x332bca23) == 0x5c74912c;
    assert Plus(0x8dc6ebed, 0xafa0c137) == 0x3d67ad24;
    assert Plus(0x5ec2b8b8, 0x22cca90f) == 0x818f61c7;
  }

  /** A word spells four octets, the least significant first. */
  predicate IsLittle(w: Word, a: Octet, b: Octet, c: Octet, d: Octet) {
    w & 0xff == a as Word && (w >> 8) & 0xff == b as Word && (w >> 16) & 0xff == c as Word && w >> 24 == d as Word
  }

  /** Every word is made of its own four octets. */
  lemma {:induction false} WordsAreLittle(s: Octets, i: nat)
    requires |s| % 4 == 0 && 4 * i + 3 < |s|
    ensures IsLittle(LittleWords(s)[i], s[4 * i], s[4 * i + 1], s[4 * i + 2], s[4 * i + 3])
  {
    hide LittleWord, IsLittle;
    if i == 0 {
      WordIsLittle(s[0], s[1], s[2], s[3]);
    } else {
      WordsAreLittle(s[4..], i - 1);
    }
  }

  lemma WordIsLittle(a: Octet, b: Octet, c: Octet, d: Octet)
    ensures IsLittle(LittleWord(a, b, c, d), a, b, c, d)
  {
  }

  /** Writing words undoes reading them. */
  lemma {:induction false} OctetsAreLittle(s: Octets)
    requires |s| % 4 == 0
    ensures AllLittleOctets(LittleWords(s)) == s
  {
    hide LittleWord, LittleOctets;
    if s != [] {
      var words, front := LittleWords(s), s[..|s| - 4];
      LastWord(s);
      OctetsAreLittle(front);
      WordBack(s[|s| - 4], s[|s| - 3], s[|s| - 2], s[|s| - 1]);
      assert words[..|words| - 1] == LittleWords(front);
    }
  }

  lemma WordBack(a: Octet, b: Octet, c: Octet, d: Octet)
    ensures LittleOctets(LittleWord(a, b, c, d)) == [a, b, c, d]
  {
  }

  lemma {:induction false} LastWord(s: Octets)
    requires |s| % 4 == 0 && s != []
    ensures LittleWords(s) == LittleWords(s[..|s| - 4])
      + [LittleWord(s[|s| - 4], s[|s| - 3], s[|s| - 2], s[|s| - 1])]
  {
    hide LittleWord;
    if |s| > 4 {
      LastWord(s[4..]);
      assert s[..|s| - 4][4..] == s[4..][..|s[4..]| - 4];
    }
  }

  // ==== small cases of sections 4 to 6 ====

  /** Four blocks of 64 octets: each goes through Salsa20/8 after the one before it, the first after the
      last, and the even results come before the odd ones. */
  lemma MixedFour(a: Words, b: Words, c: Words, d: Words)
    requires |a| == 16 && |b| == 16 && |c| == 16 && |d| == 16
    ensures var y0 := Salsa(XorWords(d, a));
      var y1 := Salsa(XorWords(y0, b));
      var y2 := Salsa(XorWords(y1, c));
      Mixed(a + b + c + d, 2) == y0 + y2 + y1 + Salsa(XorWords(y2, d))
  {
    hide Salsa, XorWords;
    var all := a + b + c + d;
    assert Block(all, 0) == a && Block(all, 1) == b && Block(all, 2) == c && Block(all, 3) == d;
    assert Y(all, 2, 0) == Salsa(XorWords(d, a));
    assert Y(all, 2, 1) == Salsa(XorWords(Y(all, 2, 0), b));
    assert Y(all, 2, 2) == Salsa(XorWords(Y(all, 2, 1), c));
    assert Y(all, 2, 3) == Salsa(XorWords(Y(all, 2, 2), d));
  }

  /** Word by word, exclusive or. */
  lemma XorEach(a: Words, b: Words, i: nat)
    requires |a| == |b| && i < |a|
    ensures XorWords(a, b)[i] == a[i] ^ b[i]
  {
  }

  /** With N = 2 the first word of the last block picks one of two vectors. */
  lemma RoMixedTwo(b: Words, r: nat)
    requires IsBlocks(b, r)
    ensures var v1 := Mixed(b, r);
      var x0 := Mixed(v1, r);
      var x1 := Mixed(XorWords(x0, if x0[32 * r - 16] as nat % 2 == 0 then b else v1), r);
      RoMixed(b, 2, r) == Mixed(XorWords(x1, if x1[32 * r - 16] as nat % 2 == 0 then b else v1), r)
  {
    hide Mixed, XorWords, Integerify;
    assert V(b, r, 0) == b && V(b, r, 1) == Mixed(b, r) && V(b, r, 2) == Mixed(Mixed(b, r), r);
    assert X(b, 2, r, 0) == V(b, r, 2);
    ParityOf(X(b, 2, r, 0), r);
    ParityOf(X(b, 2, r, 1), r);
    assert X(b, 2, r, 2) == RoMixed(b, 2, r);
  }

  lemma ParityOf(x: Words, r: nat)
    requires IsBlocks(x, r)
    ensures Integerify(x, r) % 2 == x[32 * r - 16] as nat % 2
  {
    var block := Block(x, 2 * r - 1);
    assert block[0] == x[32 * r - 16];
    EvenRest(block[0] as nat, LittleEndian(block[1..]));
  }

  lemma EvenRest(a: nat, rest: nat)
    ensures (a + 0x1_0000_0000 * rest) % 2 == a % 2
  {
  }

  /** Two lanes are mixed apart, between two derivations of one iteration. */
  lemma ScryptedTwo(password: Octets, salt: Octets, n: nat, r: nat, len: nat)
    requires n > 0 && r > 0
    ensures var b := LittleWords(Derived(password, salt, 1, 256 * r));
      Scrypted(password, salt, n, r, 2, len) ==
      Derived(password, AllLittleOctets(RoMixed(b[..32 * r], n, r) + RoMixed(b[32 * r..], n, r)), 1, len)
  {
    hide Derived, RoMixed, AllLittleOctets, LittleWords;
    var b := LittleWords(Derived(password, salt, 1, 256 * r));
    assert Lanes(b, n, r, 0) == [];
    assert Lanes(b, n, r, 1) == RoMixed(b[..32 * r], n, r);
    assert b[32 * r * 1..32 * r * 2] == b[32 * r..];
    assert Lanes(b, n, r, 2) == Lanes(b, n, r, 1) + RoMixed(b[32 * r..], n, r);
  }
}
