/** The self-describing password hashes of backend/src/kdf.rs:37-135 and 420-506. */
module PasswordHash {
  import opened Bytes
  import opened Numerals
  import opened Splitting
  import opened Base64
  import Sha256
  import opened ScryptSpec
  import opened Scrypt

  const KEY_LEN: nat := 64
  const MAX_STORED_MEMORY: nat := 256 * 1024 * 1024
  const MAX_STORED_P: nat := 16

  datatype Params = Params(n: nat, r: nat, p: nat)

  const CURRENT := Params(16384, 8, 1)

  /** `within_limits` */
  predicate WithinLimits(q: Params) {
    && 0 < q.p <= MAX_STORED_P
    && q.r > 0 && q.n >= 2 && IsPowerOfTwo(q.n)
    && 128 * q.n * q.r <= MAX_STORED_MEMORY
  }

  datatype Parsed = Parsed(params: Params, salt: Text, key: Text)

  function ParamsOf(n: Text, r: Text, p: Text): Option<Params> {
    match (ParseUnsigned(n, 10, U32_LIMIT), ParseUnsigned(r, 10, U32_LIMIT),
      ParseUnsigned(p, 10, U32_LIMIT))
    case (Some(n), Some(r), Some(p)) => Some(Params(n, r, p))
    case _ => None
  }

  function ParseFields(params: Option<Params>, salt: Text, key: Text): Option<Parsed> {
    if params.None? || !WithinLimits(params.value) then None
    else match (Decoded64(salt), Decoded64(key))
      case (Some(s), Some(k)) => Some(Parsed(params.value, s, k))
      case _ => None
  }

  function Prefix(): Text {
    "scrypt$"
  }

  /** `parse_scrypt_hash`: the older form has the parameters of CURRENT, as constants of its own. */
  function ParseScryptHash(stored: Text): Option<Parsed> {
    if !(Prefix() <= stored) then None
    else
      var fields := Split(stored[|Prefix()|..], '$');
      if |fields| == 2 then ParseFields(Some(Params(16384, 8, 1)), fields[0], fields[1])
      else if |fields| == 5 then ParseFields(ParamsOf(fields[0], fields[1], fields[2]), fields[3], fields[4])
      else None
  }

  // ==== hashing and verifying ====

  function ToOctets(s: Text): (o: Sha256.Octets)
    ensures |o| == |s|
  {
    seq(|s|, i requires 0 <= i < |s| => s[i] as int as bv8)
  }

  function ToText(o: Sha256.Octets): (s: Text)
    ensures |s| == |o|
  {
    seq(|o|, i requires 0 <= i < |o| => o[i] as char)
  }

  /** `scrypt` as the password code calls it, where `usize` holds the numbers below `limit`. */
  function Derive(password: Text, salt: Text, q: Params, limit: nat): Run<Option<Text>> {
    match ScryptRun(ToOctets(password), ToOctets(salt), q.n, q.r, q.p, KEY_LEN, limit)
    case Returns(Ok(key)) => Returns(Some(ToText(key)))
    case Returns(Err(_)) => Returns(None)
    case Panics => Panics
  }

  function HashText(q: Params, salt: Text, key: Text): Text {
    Prefix() + (Decimal(q.n) + (['$'] + (Decimal(q.r) + (['$'] + (Decimal(q.p) + (['$'] + (
      Encoded64(salt, true, false) + (['$'] + Encoded64(key, true, false)))))))))
  }

  /** `hash_password` with the salt it draws. */
  function HashPassword(password: Text, salt: Text, limit: nat): Run<Option<Text>> {
    match Derive(password, salt, CURRENT, limit)
    case Returns(Some(key)) => Returns(Some(HashText(CURRENT, salt, key)))
    case Returns(None) => Returns(None)
    case Panics => Panics
  }

  /** `verify_password`; `bcrypt` answers for the hashes that begin with "$2". */
  function VerifyPassword(password: Text, stored: Text, limit: nat, bcrypt: (Text, Text) -> bool): Run<bool> {
    if Prefix() <= stored then
      match ParseScryptHash(stored)
      case None => Returns(false)
      case Some(parsed) =>
        match Derive(password, parsed.salt, parsed.params, limit)
        case Returns(key) => Returns(key == Some(parsed.key))
        case Panics => Panics
    else Returns("$2" <= stored && bcrypt(password, stored))
  }

  /** `needs_rehash` */
  predicate NeedsRehash(stored: Text) {
    match ParseScryptHash(stored)
    case None => true
    case Some(parsed) => parsed.params != CURRENT
  }

  // ==== the format ====

  lemma NumeralField(n: nat)
    requires n < U32_LIMIT
    ensures Lacks(Decimal(n), '$') && ParseUnsigned(Decimal(n), 10, U32_LIMIT) == Some(n)
  {
    hide DigitsValue, Numeral;
    ParseNumeral(n, 10, U32_LIMIT);
    DecimalShape(n);
  }

  lemma Base64Field(s: Text)
    ensures Lacks(Encoded64(s, true, false), '$') && Decoded64(Encoded64(s, true, false)) == Some(s)
  {
    hide Encoded64, Decoded64, Lacks, Val64;
    EqualsHasNoValue();
    EncodedLacks(s, true, '$');
    DecodeEncoded64(s, true, false);
  }

  lemma FiveFields(a: Text, b: Text, c: Text, d: Text, e: Text)
    requires Lacks(a, '$') && Lacks(b, '$') && Lacks(c, '$') && Lacks(d, '$') && Lacks(e, '$')
    ensures Split(a + (['$'] + (b + (['$'] + (c + (['$'] + (d + (['$'] + e))))))), '$') == [a, b, c, d, e]
  {
    hide Split, Lacks;
    SplitNone(e, '$');
    SplitIn(d, '$', e);
    SplitIn(c, '$', d + (['$'] + e));
    SplitIn(b, '$', c + (['$'] + (d + (['$'] + e))));
    SplitIn(a, '$', b + (['$'] + (c + (['$'] + (d + (['$'] + e))))));
  }

  /** The string of acceptable parameters parses back. */
  lemma HashTextParses(q: Params, salt: Text, key: Text)
    requires WithinLimits(q) && q.n < U32_LIMIT && q.r < U32_LIMIT && q.p < U32_LIMIT
    ensures Prefix() <= HashText(q, salt, key) && ParseScryptHash(HashText(q, salt, key)) == Some(Parsed(q, salt, key))
  {
    hide Split, Lacks, Decoded64, Encoded64, Decimal, ParseUnsigned, WithinLimits, Prefix;
    NumeralField(q.n);
    NumeralField(q.r);
    NumeralField(q.p);
    Base64Field(salt);
    Base64Field(key);
    var a, b, c := Decimal(q.n), Decimal(q.r), Decimal(q.p);
    var d, e := Encoded64(salt, true, false), Encoded64(key, true, false);
    FiveFields(a, b, c, d, e);
    Parts(Prefix(), a + (['$'] + (b + (['$'] + (c + (['$'] + (d + (['$'] + e))))))));
  }

  lemma CurrentIsWithin()
    ensures WithinLimits(CURRENT)
  {
    PowerTimes(2, 2);
    PowerTimes(4, 4);
    PowerTimes(16, 16);
    PowerTimes(256, 64);
    PowerTimes(4, 16);
  }

  /** A new hash verifies exactly the passwords that derive the same key, its own among them, and
      is not due for a rehash. */
  lemma HashRoundTrip(password: Text, salt: Text, other: Text, limit: nat, bcrypt: (Text, Text) -> bool)
    requires Succeeds(HashPassword(password, salt, limit))
    ensures var stored := HashPassword(password, salt, limit).value.value;
      && VerifyPassword(password, stored, limit, bcrypt) == Returns(true) && !NeedsRehash(stored)
      && (VerifyPassword(other, stored, limit, bcrypt) == Returns(true) <==>
          Derive(other, salt, CURRENT, limit) == Derive(password, salt, CURRENT, limit))
  {
    hide Derive, HashText, ParseScryptHash, WithinLimits, Prefix;
    CurrentIsWithin();
    HashTextParses(CURRENT, salt, Derive(password, salt, CURRENT, limit).value.value);
  }

  // ==== cost ====

  const LIMIT_32: nat := 0x1_0000_0000
  const LIMIT_64: nat := 0x1_0000_0000_0000_0000

  /** Bytes of one lane buffer, and of the table. */
  function LaneBytes(q: Params): nat {
    4 * (32 * q.r * q.p)
  }

  function TableBytes(q: Params): nat {
    4 * (32 * q.r * q.n)
  }

  /** The accepted triple with the largest lanes. */
  const LARGEST := Params(2, 0x10_0000, 16)

  lemma Bounded(a: nat, b: nat, c: nat)
    requires b <= c
    ensures a * b <= a * c
  {
  }

  lemma Regroup(n: nat, r: nat)
    ensures 128 * n * r == 4 * (32 * r * n)
  {
    assert n * r == r * n;
    assert 128 * n * r == 128 * (n * r);
    assert 32 * r * n == 32 * (r * n);
  }

  /** The cap bounds the table by 256 MiB and every checked product by 2^31, so that none overflows
      even 32 bits; but a lane buffer only by 2 GiB, which one accepted triple reaches. */
  lemma WithinLimitsFits(q: Params)
    requires WithinLimits(q)
    ensures TableBytes(q) <= MAX_STORED_MEMORY && 32 * q.r <= 0x200_0000 && Fits(q.n, q.r, q.p, LIMIT_32)
    ensures LaneBytes(q) <= 0x8000_0000 && (LaneBytes(q) == 0x8000_0000 <==> q == LARGEST)
  {
    hide IsPowerOfTwo;
    var words := 32 * q.r;
    Regroup(q.n, q.r);
    Bounded(words, 2, q.n);
    Bounded(words, q.p, MAX_STORED_P);
    if words * q.p == 0x2000_0000 {
      LargestOnly(words, q.n, q.p);
    }
  }

  lemma LargestOnly(words: nat, n: nat, p: nat)
    requires 2 <= n && p <= 16 && words * n <= 0x400_0000 && words * p == 0x2000_0000
    ensures words == 0x200_0000 && n == 2 && p == 16
  {
    Bounded(words, 2, n);
    Bounded(words, p, 16);
    assert words == 0x200_0000;
  }

  /** Every byte that is in use at once at the end of `scrypt`: the lanes as derived, as words, as
      bytes and as the salt of the last derivation, the table, the scratch block and the key. */
  function WorkingSet(q: Params): nat {
    4 * LaneBytes(q) + 4 + TableBytes(q) + 4 * (32 * q.r) + KEY_LEN
  }

  /** The comment beside the cap promises 256 MiB whatever a row claims. The exact maximum is that
      of one accepted triple, 33 times as much. */
  lemma WorkingSetBound(q: Params)
    requires WithinLimits(q)
    ensures WithinLimits(LARGEST) && WorkingSet(q) <= WorkingSet(LARGEST)
    ensures WorkingSet(LARGEST) == 33 * MAX_STORED_MEMORY + 0x800_0000 + 68
  {
    hide IsPowerOfTwo;
    LargestIsWithin();
    WithinLimitsFits(q);
  }

  lemma LargestIsPower()
    ensures IsPowerOfTwo(LARGEST.n)
  {
  }

  lemma LargestIsWithin()
    ensures WithinLimits(LARGEST)
  {
    LargestIsPower();
  }

  /** An accepted triple runs on 64 bits, and on 32 bits unless it is the one whose lanes take 2^31
      bytes. There the first derivation panics, although `scrypt` promises not to. */
  lemma AcceptedTripleRuns(password: Text, salt: Text, q: Params)
    requires WithinLimits(q)
    ensures CanHold(|salt| + 4, LIMIT_64) ==> Succeeds(Derive(password, salt, q, LIMIT_64))
    ensures CanHold(|salt| + 4, LIMIT_32) && q != LARGEST ==> Succeeds(Derive(password, salt, q, LIMIT_32))
    ensures Derive(password, salt, LARGEST, LIMIT_32) == Panics
    ensures q != LARGEST <==> LaneBytes(q) < 0x8000_0000
  {
    hide IsPowerOfTwo, Scrypted;
    WithinLimitsFits(q);
    LargestIsPower();
  }

  predicate Succeeds(run: Run<Option<Text>>) {
    run.Returns? && run.value.Some?
  }

  // ==== stored hashes ====

  /** A Rust string is no longer than isize::MAX. */
  predicate IsStr(s: Text, limit: nat) {
    CanHold(|s|, limit)
  }

  lemma {:induction false} PiecesAreShorter(s: Text, c: Byte, i: nat)
    requires i < |Split(s, c)|
    ensures |Split(s, c)[i]| <= |s|
    decreases |s|
  {
    hide Find;
    if i > 0 {
      PiecesAreShorter(s[Find(s, c).value + 1..], c, i - 1);
    }
  }

  /** The salt of a stored hash fits wherever the hash does. */
  lemma SaltFits(stored: Text)
    requires ParseScryptHash(stored).Some?
    ensures |ParseScryptHash(stored).value.salt| + 4 <= |stored|
  {
    hide Split, Decoded64, ParamsOf, WithinLimits;
    var fields := Split(stored[|Prefix()|..], '$');
    var field := if |fields| == 2 then 0 else 3;
    PiecesAreShorter(stored[|Prefix()|..], '$', field);
    DecodedIsShorter(fields[field]);
  }

  /** Whatever a stored hash claims, if it parses then its key can be derived on 64 bits, and on 32
      bits if and only if it does not name the largest accepted triple. */
  lemma AcceptedHashesRun(stored: Text, password: Text)
    requires ParseScryptHash(stored).Some?
    ensures var parsed := ParseScryptHash(stored).value;
      && (IsStr(stored, LIMIT_64) ==> Succeeds(Derive(password, parsed.salt, parsed.params, LIMIT_64)))
      && (IsStr(stored, LIMIT_32) ==>
          (Succeeds(Derive(password, parsed.salt, parsed.params, LIMIT_32)) <==> parsed.params != LARGEST))
      && (parsed.params == LARGEST ==> Derive(password, parsed.salt, parsed.params, LIMIT_32) == Panics)
  {
    hide Derive, WithinLimits, LaneBytes, ParseScryptHash;
    var parsed := ParseScryptHash(stored).value;
    ParsedIsWithin(stored);
    SaltFits(stored);
    AcceptedTripleRuns(password, parsed.salt, parsed.params);
  }

  /** `verify_password` never panics on 64 bits. On 32 bits it panics if and only if the stored hash
      names the largest accepted triple, although its comment says that no stored row makes it. */
  lemma VerifyPanics(password: Text, stored: Text, bcrypt: (Text, Text) -> bool)
    ensures IsStr(stored, LIMIT_64) ==> VerifyPassword(password, stored, LIMIT_64, bcrypt).Returns?
    ensures IsStr(stored, LIMIT_32) ==>
      (VerifyPassword(password, stored, LIMIT_32, bcrypt).Panics? <==>
        ParseScryptHash(stored).Some? && ParseScryptHash(stored).value.params == LARGEST)
  {
    hide Derive, ParseScryptHash;
    NoPrefixNoHash(stored);
    if ParseScryptHash(stored).Some? {
      AcceptedHashesRun(stored, password);
    }
  }

  lemma ParsedIsWithin(stored: Text)
    requires ParseScryptHash(stored).Some?
    ensures WithinLimits(ParseScryptHash(stored).value.params)
  {
    hide Split, Decoded64, ParamsOf, WithinLimits;
    CurrentIsWithin();
  }

  lemma NoPrefixNoHash(stored: Text)
    ensures ParseScryptHash(stored).Some? ==> Prefix() <= stored
  {
    hide Split, ParseFields;
  }

  /** Such a row exists: that triple with any salt and key. */
  lemma LargestRowPanics(password: Text, salt: Text, key: Text, bcrypt: (Text, Text) -> bool)
    requires IsStr(HashText(LARGEST, salt, key), LIMIT_32)
    ensures VerifyPassword(password, HashText(LARGEST, salt, key), LIMIT_32, bcrypt) == Panics
  {
    hide HashText, ParseScryptHash, VerifyPassword;
    LargestIsWithin();
    HashTextParses(LARGEST, salt, key);
    VerifyPanics(password, HashText(LARGEST, salt, key), bcrypt);
  }

  /** Hashing never fails or panics for want of size, so every new hash has the properties above. */
  lemma HashingSucceeds(password: Text, salt: Text)
    requires |salt| == 16
    ensures Succeeds(HashPassword(password, salt, LIMIT_32))
  {
    CurrentIsWithin();
    hide IsPowerOfTwo, Scrypted, HashText;
  }

  /** The key of a password is scrypt of its bytes and those of the salt, 64 bytes long. */
  lemma DeriveExactly(password: Text, salt: Text, q: Params, limit: nat, p: Sha256.Octets, s: Sha256.Octets)
    requires Succeeds(Derive(password, salt, q, limit)) && |p| == |password| && |s| == |salt|
    requires forall i :: 0 <= i < |p| ==> p[i] as int == password[i] as int
    requires forall i :: 0 <= i < |s| ==> s[i] as int == salt[i] as int
    ensures q.n > 0 && q.r > 0
    ensures var key := Derive(password, salt, q, limit).value.value;
      |key| == 64 && forall i :: 0 <= i < 64 ==> key[i] as int == Scrypted(p, s, q.n, q.r, q.p, 64)[i] as int
  {
    hide Scrypted, IsPowerOfTwo, Fits, BuffersFit;
    SameOctets(password, p);
    SameOctets(salt, s);
  }

  lemma SameOctets(s: Text, o: Sha256.Octets)
    requires |s| == |o| && forall i :: 0 <= i < |o| ==> o[i] as int == s[i] as int
    ensures ToOctets(s) == o
  {
    forall i | 0 <= i < |o|
      ensures ToOctets(s)[i] == o[i]
    {
      assert ToOctets(s)[i] as int == o[i] as int;
    }
  }

  /** What a new hash looks like. */
  lemma NewHash(password: Text, salt: Text, key: Text, limit: nat)
    requires Derive(password, salt, Params(16384, 8, 1), limit) == Returns(Some(key))
    ensures HashPassword(password, salt, limit) ==
      Returns(Some("scrypt$16384$8$1$" + (Encoded64(salt, true, false) + ("$" + Encoded64(key, true, false)))))
  {
    hide Derive, Encoded64, Decimal;
    SmallNumerals();
    var last := Encoded64(salt, true, false) + ("$" + Encoded64(key, true, false));
    assert "scrypt$16384$8$1$" + last == "scrypt$" + ("16384" + ("$" + ("8" + ("$" + ("1" + ("$" + last))))));
  }

  lemma SmallNumerals()
    ensures Decimal(8) == "8" && Decimal(1) == "1" && Decimal(16384) == "16384"
  {
    assert Decimal(16) == "16";
    assert Decimal(1638) == Decimal(16) + "3" + "8";
  }

  // ==== the older form ====

  function LegacyText(salt: Text, key: Text): Text {
    Prefix() + (Encoded64(salt, true, false) + (['$'] + Encoded64(key, true, false)))
  }

  /** The form without parameters still verifies at the original cost. It is not due for a rehash
      while that cost is the current one. */
  lemma LegacyRoundTrip(password: Text, salt: Text, key: Text, limit: nat, bcrypt: (Text, Text) -> bool)
    ensures var stored := LegacyText(salt, key);
      && ParseScryptHash(stored) == Some(Parsed(Params(16384, 8, 1), salt, key))
      && (VerifyPassword(password, stored, limit, bcrypt) == Returns(true) <==>
          Derive(password, salt, Params(16384, 8, 1), limit) == Returns(Some(key)))
      && !NeedsRehash(stored)
  {
    hide Split, Lacks, Decoded64, Encoded64, WithinLimits, Prefix, Derive;
    CurrentIsWithin();
    Base64Field(salt);
    Base64Field(key);
    var d, e := Encoded64(salt, true, false), Encoded64(key, true, false);
    SplitIn(d, '$', e);
    SplitNone(e, '$');
    Parts(Prefix(), d + (['$'] + e));
  }

  // ==== who is accepted ====

  /** One of the two forms of a stored key: with five fields for the parameters, the salt and the
      key, or with two for the original cost. Numbers are as Rust parses them. */
  ghost predicate Spells(stored: Text, q: Params, salt: Text, key: Text) {
    || (exists n, r, p, d, e :: IsLongForm(stored, q, salt, key, n, r, p, d, e))
    || (q == Params(16384, 8, 1) && exists d, e :: IsShortForm(stored, salt, key, d, e))
  }

  predicate IsLongForm(
    stored: Text, q: Params, salt: Text, key: Text, n: Text, r: Text, p: Text, d: Text, e: Text) {
    && Lacks(n, '$') && Lacks(r, '$') && Lacks(p, '$') && Lacks(d, '$') && Lacks(e, '$')
    && stored == "scrypt$" + (n + (['$'] + (r + (['$'] + (p + (['$'] + (d + (['$'] + e))))))))
    && ParseUnsigned(n, 10, U32_LIMIT) == Some(q.n) && ParseUnsigned(r, 10, U32_LIMIT) == Some(q.r)
    && ParseUnsigned(p, 10, U32_LIMIT) == Some(q.p)
    && Decoded64(d) == Some(salt) && Decoded64(e) == Some(key)
  }

  predicate IsShortForm(stored: Text, salt: Text, key: Text, d: Text, e: Text) {
    && Lacks(d, '$') && Lacks(e, '$') && stored == "scrypt$" + (d + (['$'] + e))
    && Decoded64(d) == Some(salt) && Decoded64(e) == Some(key)
  }

  /** Parameters whose cost is accepted: 128 n r is at most 256 MiB. */
  ghost predicate IsAcceptable(q: Params) {
    && 1 <= q.p <= 16 && 1 <= q.r && 2 <= q.n && IsTwoTo(q.n)
    && 128 * q.n * q.r <= 268_435_456
  }

  ghost predicate IsTwoTo(n: nat) {
    exists k: nat :: n == TwoToThe(k)
  }

  function TwoToThe(k: nat): nat {
    if k == 0 then 1 else 2 * TwoToThe(k - 1)
  }

  lemma {:induction false} PowerIsTwoTo(n: nat)
    ensures IsPowerOfTwo(n) <==> IsTwoTo(n)
  {
    if IsPowerOfTwo(n) && n > 1 {
      PowerIsTwoTo(n / 2);
      var k: nat :| n / 2 == TwoToThe(k);
      assert n == TwoToThe(k + 1);
    } else if IsPowerOfTwo(n) {
      assert n == TwoToThe(0);
    }
    if IsTwoTo(n) {
      var k: nat :| n == TwoToThe(k);
      TwoToIsPower(k);
    }
  }

  lemma {:induction false} TwoToIsPower(k: nat)
    ensures TwoToThe(k) >= 1 && IsPowerOfTwo(TwoToThe(k))
  {
    if k > 0 {
      TwoToIsPower(k - 1);
      assert TwoToThe(k) / 2 == TwoToThe(k - 1);
    }
  }

  lemma AcceptableIsWithin(q: Params)
    ensures IsAcceptable(q) <==> WithinLimits(q)
  {
    hide IsPowerOfTwo, IsTwoTo;
    PowerIsTwoTo(q.n);
    var cost := 128 * q.n * q.r;
    assert (cost <= MAX_STORED_MEMORY) == (cost <= 268_435_456);
  }

  lemma LongFormFields(
    stored: Text, q: Params, salt: Text, key: Text, n: Text, r: Text, p: Text, d: Text, e: Text)
    requires IsLongForm(stored, q, salt, key, n, r, p, d, e)
    ensures Prefix() <= stored && Split(stored[7..], '$') == [n, r, p, d, e]
  {
    hide Split, Lacks, ParseUnsigned, Decoded64;
    FiveFields(n, r, p, d, e);
    Parts("scrypt$", n + (['$'] + (r + (['$'] + (p + (['$'] + (d + (['$'] + e))))))));
  }

  lemma ShortFormFields(stored: Text, salt: Text, key: Text, d: Text, e: Text)
    requires IsShortForm(stored, salt, key, d, e)
    ensures Prefix() <= stored && Split(stored[7..], '$') == [d, e]
  {
    hide Split, Lacks, Decoded64;
    SplitNone(e, '$');
    SplitIn(d, '$', e);
    Parts("scrypt$", d + (['$'] + e));
  }

  lemma AfterPrefix(stored: Text)
    requires Prefix() <= stored
    ensures stored == "scrypt$" + stored[7..]
  {
  }

  lemma TwoFieldsAre(stored: Text)
    requires Prefix() <= stored && |Split(stored[7..], '$')| == 2
    ensures var f := Split(stored[7..], '$');
      Lacks(f[0], '$') && Lacks(f[1], '$') && stored == "scrypt$" + (f[0] + (['$'] + f[1]))
  {
    hide Split, Lacks, Prefix;
    AfterPrefix(stored);
    var t := SplitHead(stored[7..], '$');
    SplitAlone(t, '$');
  }

  lemma FiveFieldsAre(stored: Text)
    requires Prefix() <= stored && |Split(stored[7..], '$')| == 5
    ensures var f := Split(stored[7..], '$');
      && Lacks(f[0], '$') && Lacks(f[1], '$') && Lacks(f[2], '$') && Lacks(f[3], '$') && Lacks(f[4], '$')
      && stored == "scrypt$" + (f[0] + (['$'] + (f[1] + (['$'] + (f[2] + (['$'] + (f[3] + (['$'] + f[4]))))))))
  {
    hide Split, Lacks, Prefix;
    AfterPrefix(stored);
    var t1 := SplitHead(stored[7..], '$');
    var t2 := SplitHead(t1, '$');
    var t3 := SplitHead(t2, '$');
    var t4 := SplitHead(t3, '$');
    SplitAlone(t4, '$');
  }

  /** Parsing reads exactly what is spelled, within the cost limits. */
  lemma ParsedExactly(stored: Text, q: Params, salt: Text, key: Text)
    ensures ParseScryptHash(stored) == Some(Parsed(q, salt, key)) <==> Spells(stored, q, salt, key) && IsAcceptable(q)
  {
    hide Split, Lacks, ParseUnsigned, Decoded64, WithinLimits, IsAcceptable;
    AcceptableIsWithin(q);
    if ParseScryptHash(stored) == Some(Parsed(q, salt, key)) {
      var f := Split(stored[7..], '$');
      if |f| == 2 {
        TwoFieldsAre(stored);
        assert IsShortForm(stored, salt, key, f[0], f[1]);
      } else {
        FiveFieldsAre(stored);
        assert IsLongForm(stored, q, salt, key, f[0], f[1], f[2], f[3], f[4]);
      }
    }
    if Spells(stored, q, salt, key) {
      if n, r, p, d, e :| IsLongForm(stored, q, salt, key, n, r, p, d, e) {
        LongFormFields(stored, q, salt, key, n, r, p, d, e);
      } else {
        var d, e :| IsShortForm(stored, salt, key, d, e);
        ShortFormFields(stored, salt, key, d, e);
      }
    }
  }

  /** A key is stored, in one of the two forms, and the password derives it. */
  ghost predicate IsKeyOf(
    stored: Text, password: Text, limit: nat, q: Params, salt: Text, key: Text) {
    && Spells(stored, q, salt, key) && IsAcceptable(q)
    && Derive(password, salt, q, limit) == Returns(Some(key))
  }

  /** A password is accepted exactly for a stored key that it derives, and for a hash that begins
      with "$2" and that bcrypt accepts it for. Everything else is refused, malformed or not. */
  lemma AcceptedPasswords(password: Text, stored: Text, limit: nat, bcrypt: (Text, Text) -> bool)
    ensures VerifyPassword(password, stored, limit, bcrypt) == Returns(true) <==>
      || (exists q, salt, key :: IsKeyOf(stored, password, limit, q, salt, key))
      || ("$2" <= stored && bcrypt(password, stored))
  {
    hide Derive, ParseScryptHash, Spells, IsAcceptable;
    NoPrefixNoHash(stored);
    PrefixesDiffer(stored);
    if parsed :| ParseScryptHash(stored) == Some(parsed) {
      ParsedExactly(stored, parsed.params, parsed.salt, parsed.key);
      if Derive(password, parsed.salt, parsed.params, limit) == Returns(Some(parsed.key)) {
        assert IsKeyOf(stored, password, limit, parsed.params, parsed.salt, parsed.key);
      }
    }
    if exists q, salt, key :: IsKeyOf(stored, password, limit, q, salt, key) {
      var q, salt, key :| IsKeyOf(stored, password, limit, q, salt, key);
      ParsedExactly(stored, q, salt, key);
    }
  }

  lemma PrefixesDiffer(stored: Text)
    ensures !(Prefix() <= stored && "$2" <= stored)
  {
    assert Prefix()[0] != "$2"[0];
  }

  /** A hash is due for a rehash unless it is a stored key of the current cost, in either form. */
  lemma RehashExactly(stored: Text)
    ensures NeedsRehash(stored) <==> !exists salt, key :: Spells(stored, Params(16384, 8, 1), salt, key)
  {
    hide ParseScryptHash, Spells, IsAcceptable;
    CurrentIsAcceptable();
    if parsed :| ParseScryptHash(stored) == Some(parsed) {
      ParsedExactly(stored, parsed.params, parsed.salt, parsed.key);
    }
    if exists salt, key :: Spells(stored, Params(16384, 8, 1), salt, key) {
      var salt, key :| Spells(stored, Params(16384, 8, 1), salt, key);
      ParsedExactly(stored, Params(16384, 8, 1), salt, key);
    }
  }

  lemma CurrentIsAcceptable()
    ensures IsAcceptable(Params(16384, 8, 1))
  {
    hide IsAcceptable, WithinLimits;
    CurrentIsWithin();
    AcceptableIsWithin(CURRENT);
  }
}
