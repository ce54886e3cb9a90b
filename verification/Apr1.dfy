/** Apache `apr1` password hashes: the 6-bit text encoding, the folding, bit and stretching loops
    around an abstract MD5, and verification through the `$`-separated stored form. */
module Apr1 {
  import opened Text

  type Byte = b: int | 0 <= b < 256
  type Digest = d: seq<Byte> | |d| == 16 witness seq(16, _ => 0)

  // ----- six bits per character -----

  /** The apr1 alphabet in digit order. */
  const Alphabet := "./0123456789" + "ABCDEFGHIJKLMNOPQRSTUVWXYZ" + "abcdefghijklmnopqrstuvwxyz"

  predicate InAlphabet(c: char) { '.' <= c <= '9' || 'A' <= c <= 'Z' || 'a' <= c <= 'z' }

  function Digit(v: nat): (c: char)
    requires v < 64
    ensures InAlphabet(c) && DigitValue(c) == v
  {
    if v < 12 then '.' + v as char else if v < 38 then 'A' + (v - 12) as char else 'a' + (v - 38) as char
  }

  function DigitValue(c: char): (v: nat)
    requires InAlphabet(c)
    ensures v < 64
  {
    if c <= '9' then c as int - '.' as int
    else if c <= 'Z' then c as int - 'A' as int + 12
    else c as int - 'a' as int + 38
  }

  lemma DigitIsAlphabet(v: nat)
    requires v < 64
    ensures |Alphabet| == 64 && Digit(v) == Alphabet[v]
  {
    if v < 12 {
      assert v == 0 || v == 1 || v == 2 || v == 3 || v == 4 || v == 5 || v == 6 || v == 7 || v == 8 || v == 9 || v == 10
        || v == 11;
    } else if v < 38 {
      assert v == 12 || v == 13 || v == 14 || v == 15 || v == 16 || v == 17 || v == 18 || v == 19 || v == 20 || v == 21
        || v == 22 || v == 23 || v == 24 || v == 25 || v == 26 || v == 27 || v == 28 || v == 29 || v == 30 || v == 31
        || v == 32 || v == 33 || v == 34 || v == 35 || v == 36 || v == 37;
    } else {
      assert v == 38 || v == 39 || v == 40 || v == 41 || v == 42 || v == 43 || v == 44 || v == 45 || v == 46 || v == 47
        || v == 48 || v == 49 || v == 50 || v == 51 || v == 52 || v == 53 || v == 54 || v == 55 || v == 56 || v == 57
        || v == 58 || v == 59 || v == 60 || v == 61 || v == 62 || v == 63;
    }
  }

  function Pow64(n: nat): (p: nat)
    ensures p > 0
  {
    if n == 0 then 1 else 64 * Pow64(n - 1)
  }

  /** `count` digits of `value`, least significant first. */
  function To64(value: nat, count: nat): (s: string)
    ensures |s| == count && forall c <- s :: InAlphabet(c)
  {
    if count == 0 then "" else [Digit(value % 64)] + To64(value / 64, count - 1)
  }

  function From64(s: string): (v: nat)
    requires forall c <- s :: InAlphabet(c)
  {
    if s == "" then 0 else DigitValue(s[0]) + 64 * From64(s[1..])
  }

  method EncodeTo64(value: nat, count: nat) returns (out: string)
    ensures out == To64(value, count)
  {
    out := "";
    var rest, n := value, 0;
    while n < count
      invariant 0 <= n <= count && To64(value, count) == out + To64(rest, count - n)
    {
      DigitIsAlphabet(rest % 64);
      assert To64(rest, count - n) == [Digit(rest % 64)] + To64(rest / 64, count - n - 1);
      out := out + [Alphabet[rest % 64]];
      rest := rest / 64;
      n := n + 1;
    }
  }

  /** What is left of `value` once `count` digits are taken off. */
  function High(value: nat, count: nat): nat {
    if count == 0 then value else High(value / 64, count - 1)
  }

  /** Decoding inverts encoding up to the digits there is room for: below 64^count, exactly. */
  lemma {:induction false} From64To64(value: nat, count: nat)
    ensures From64(To64(value, count)) < Pow64(count)
    ensures value == From64(To64(value, count)) + Pow64(count) * High(value, count)
    ensures value < Pow64(count) <==> From64(To64(value, count)) == value
  {
    if count > 0 {
      var low', p', high := From64(To64(value / 64, count - 1)), Pow64(count - 1), High(value / 64, count - 1);
      From64To64(value / 64, count - 1);
      assert To64(value, count)[1..] == To64(value / 64, count - 1);
      assert value / 64 == low' + p' * high;
      OneMoreDigit(value, low', p', high);
    }
    AtLeast(Pow64(count), High(value, count));
  }

  lemma OneMoreDigit(value: nat, low: nat, p: nat, high: nat)
    requires value / 64 == low + p * high
    ensures value == value % 64 + 64 * low + 64 * p * high
  {
    var product := p * high;
    assert 64 * p * high == 64 * product;
  }

  lemma AtLeast(p: nat, high: nat)
    ensures high > 0 ==> p * high >= p
  {
  }

  /** Every alphabet string is the encoding of its value: with `From64To64`, a bijection. */
  lemma {:induction false} To64From64(s: string)
    requires forall c <- s :: InAlphabet(c)
    ensures To64(From64(s), |s|) == s && From64(s) < Pow64(|s|)
  {
    hide Digit, DigitValue;
    if s != "" {
      To64From64(s[1..]);
      var v := From64(s);
      SplitDigit(v, DigitValue(s[0]), From64(s[1..]));
      DigitOfValue(s[0]);
      assert s == [s[0]] + s[1..];
    }
  }

  lemma SplitDigit(v: nat, low: nat, rest: nat)
    requires v == low + 64 * rest && low < 64
    ensures v % 64 == low && v / 64 == rest
  {
  }

  lemma DigitOfValue(c: char)
    requires InAlphabet(c)
    ensures Digit(DigitValue(c)) == c
  {
  }

  // ----- the digest's text form -----

  /** The digest bytes in the order Apache writes them. */
  const ByteOrder: seq<nat> := [0, 6, 12, 1, 7, 13, 2, 8, 14, 3, 9, 15, 4, 10, 5, 11]

  function Triple(a: Byte, b: Byte, c: Byte): nat { a * 65536 + b * 256 + c }

  function EncodeDigest(d: Digest): (s: string)
    ensures |s| == 22 && forall c <- s :: InAlphabet(c)
  {
    To64(Triple(d[0], d[6], d[12]), 4) + To64(Triple(d[1], d[7], d[13]), 4) + To64(Triple(d[2], d[8], d[14]), 4)
    + To64(Triple(d[3], d[9], d[15]), 4) + To64(Triple(d[4], d[10], d[5]), 4) + To64(d[11], 2)
  }

  /** Byte `k` of the encoded text, counting three to each group of four characters from the high
      end, as the decoder of the Apache format reads it. */
  function DecodedByte(s: string, k: nat): (b: Byte)
    requires |s| == 22 && k < 16 && forall c <- s :: InAlphabet(c)
  {
    if k == 15 then From64(s[20..]) % 256
    else
      var group := From64(s[k / 3 * 4..k / 3 * 4 + 4]);
      if k % 3 == 0 then group / 65536 % 256 else if k % 3 == 1 then group / 256 % 256 else group % 256
  }

  lemma TripleParts(a: Byte, b: Byte, c: Byte)
    ensures var t := Triple(a, b, c);
            t / 65536 % 256 == a && t / 256 % 256 == b && t % 256 == c && t < Pow64(4)
  {
    var t := Triple(a, b, c);
    assert t / 256 == a * 256 + b;
    assert t / 65536 == a;
    assert Pow64(4) == 64 * 64 * 64 * 64;
  }

  /** The text holds each digest byte exactly once, at its place in Apache's order. */
  lemma {:induction false} EncodedBytes(d: Digest, k: nat)
    requires k < 16
    ensures DecodedByte(EncodeDigest(d), k) == d[ByteOrder[k]]
  {
    hide To64, From64, Triple, Pow64, High;
    var s := EncodeDigest(d);
    if k == 15 {
      assert s[20..] == To64(d[11], 2);
      From64To64(d[11], 2);
      assert d[11] < Pow64(2) by { Pow64Two(); }
    } else {
      var g := k / 3;
      EncodedGroup(d, g);
      var a, b, c := d[ByteOrder[3 * g]], d[ByteOrder[3 * g + 1]], d[ByteOrder[3 * g + 2]];
      hide EncodeDigest;
      TripleParts(a, b, c);
      From64To64(Triple(a, b, c), 4);
    }
  }

  lemma EncodedGroup(d: Digest, g: nat)
    requires g < 5
    ensures EncodeDigest(d)[g * 4..g * 4 + 4]
         == To64(Triple(d[ByteOrder[3 * g]], d[ByteOrder[3 * g + 1]], d[ByteOrder[3 * g + 2]]), 4)
  {
    hide To64, Triple;
    assert g == 0 || g == 1 || g == 2 || g == 3 || g == 4;
  }

  lemma Pow64Two()
    ensures Pow64(2) == 4096
  {
  }

  lemma ByteOrderCoversAll(j: nat)
    requires j < 16
    ensures |ByteOrder| == 16 && exists k: nat :: k < 16 && ByteOrder[k] == j
  {
    var at: seq<nat> := [0, 3, 6, 9, 12, 14, 1, 4, 7, 10, 13, 15, 2, 5, 8, 11];
    assert ByteOrder[at[j]] == j;
  }

  /** The 22 characters determine the digest. */
  lemma EncodingDetermines(d: Digest, e: Digest)
    ensures EncodeDigest(d) == EncodeDigest(e) <==> d == e
  {
    hide EncodeDigest, DecodedByte;
    if EncodeDigest(d) == EncodeDigest(e) {
      forall j: nat | j < 16 ensures d[j] == e[j] {
        ByteOrderCoversAll(j);
        var k: nat :| k < 16 && ByteOrder[k] == j;
        EncodedBytes(d, k);
        EncodedBytes(e, k);
      }
    }
  }

  // ----- the digest itself -----

  /** `alt[: min(16, length)]` for every 16 bytes of `length`: `alt` repeated and cut at `n`. */
  function Folded(alt: Digest, n: nat): seq<Byte> { seq(n, i requires 0 <= i => alt[i % 16]) }

  method Fold(alt: Digest, n: nat) returns (out: seq<Byte>)
    ensures out == Folded(alt, n)
  {
    out := [];
    var length: int := n;
    while length > 0
      invariant |out| + length == n || (length <= 0 && |out| == n)
      invariant length > 0 ==> |out| % 16 == 0
      invariant |out| <= n && out == Folded(alt, |out|)
    {
      var take := if length < 16 then length else 16;
      var was := out;
      out := out + alt[..take];
      assert forall i :: |was| <= i < |out| ==> out[i] == alt[i - |was|] && i % 16 == i - |was|;
      length := length - 16;
    }
  }

  /** Bit `k` of `n` is the parity of `n` shifted right `k` times. */
  function Shifted(n: nat, k: nat): nat { if k == 0 then n else Shifted(n, k - 1) / 2 }

  function BitLength(n: nat): nat { if n == 0 then 0 else 1 + BitLength(n / 2) }

  /** One byte per bit of `n`, lowest first: zero for a set bit, `first` for a clear one. */
  function LengthBits(n: nat, first: Byte): seq<Byte> {
    seq(BitLength(n), k requires 0 <= k => BitByte(Shifted(n, k), first))
  }

  function BitByte(shifted: nat, first: Byte): Byte { if shifted % 2 == 1 then 0 else first }

  method AddLengthBits(pw: seq<Byte>) returns (out: seq<Byte>)
    ensures out == if pw == [] then [] else LengthBits(|pw|, pw[0])
  {
    hide BitLength, Shifted;
    out := [];
    var length := |pw|;
    BitSteps(|pw|, 0);
    while length > 0
      invariant length == Shifted(|pw|, |out|) && |out| + BitLength(length) == BitLength(|pw|)
      invariant forall k :: 0 <= k < |out| ==> out[k] == BitByte(Shifted(|pw|, k), pw[0])
    {
      BitSteps(|pw|, |out|);
      if length % 2 == 1 {
        out := out + [0];
      } else {
        out := out + pw[..1];
      }
      length := length / 2;
    }
    BitSteps(0, 0);
  }

  lemma BitSteps(n: nat, k: nat)
    ensures Shifted(n, 0) == n && Shifted(n, k + 1) == Shifted(n, k) / 2 && BitLength(0) == 0
    ensures Shifted(n, k) > 0 ==> BitLength(Shifted(n, k)) == 1 + BitLength(Shifted(n, k) / 2)
  {
  }

  const Magic: seq<Byte> := [36, 97, 112, 114, 49, 36]

  /** One stretching round: what MD5 is fed in round `i`. */
  function RoundInput(i: nat, digest: Digest, pw: seq<Byte>, salt: seq<Byte>): seq<Byte> {
    (if i % 2 == 1 then pw else digest) + (if i % 3 != 0 then salt else []) + (if i % 7 != 0 then pw else [])
    + (if i % 2 == 1 then digest else pw)
  }

  function Stretched(md5: seq<Byte> -> Digest, digest: Digest, pw: seq<Byte>, salt: seq<Byte>, rounds: nat): Digest {
    if rounds == 0 then digest
    else md5(RoundInput(rounds - 1, Stretched(md5, digest, pw, salt, rounds - 1), pw, salt))
  }

  function FirstInput(md5: seq<Byte> -> Digest, pw: seq<Byte>, salt: seq<Byte>): seq<Byte> {
    pw + Magic + salt + Folded(md5(pw + salt + pw), |pw|) + (if pw == [] then [] else LengthBits(|pw|, pw[0]))
  }

  function PasswordDigest(md5: seq<Byte> -> Digest, pw: seq<Byte>, salt: seq<Byte>): Digest {
    Stretched(md5, md5(FirstInput(md5, pw, salt)), pw, salt, 1000)
  }

  method ComputeDigest(md5: seq<Byte> -> Digest, pw: seq<Byte>, salt: seq<Byte>) returns (digest: Digest)
    ensures digest == PasswordDigest(md5, pw, salt)
  {
    hide LengthBits, Folded, RoundInput, FirstInput, BitLength, Shifted, Pow64, Triple;
    var ctx := pw + Magic + salt;
    var folded := Fold(md5(pw + salt + pw), |pw|);
    ctx := ctx + folded;
    var bits := AddLengthBits(pw);
    ctx := ctx + bits;
    digest := md5(ctx);
    ghost var first := digest;
    FirstInputIs(md5, pw, salt);
    var i := 0;
    while i < 1000
      invariant 0 <= i <= 1000 && digest == Stretched(md5, first, pw, salt, i)
    {
      var before := digest;
      ctx := if i % 2 == 1 then pw else digest;
      if i % 3 != 0 { ctx := ctx + salt; }
      if i % 7 != 0 { ctx := ctx + pw; }
      ctx := ctx + (if i % 2 == 1 then digest else pw);
      RoundInputIs(i, before, pw, salt, ctx);
      digest := md5(ctx);
      i := i + 1;
    }
  }

  lemma FirstInputIs(md5: seq<Byte> -> Digest, pw: seq<Byte>, salt: seq<Byte>)
    ensures FirstInput(md5, pw, salt)
         == pw + Magic + salt + Folded(md5(pw + salt + pw), |pw|) + (if pw == [] then [] else LengthBits(|pw|, pw[0]))
  {
  }

  lemma RoundInputIs(i: nat, digest: Digest, pw: seq<Byte>, salt: seq<Byte>, ctx: seq<Byte>)
    requires ctx == (if i % 2 == 1 then pw else digest) + (if i % 3 != 0 then salt else [])
                    + (if i % 7 != 0 then pw else []) + (if i % 2 == 1 then digest else pw)
    ensures ctx == RoundInput(i, digest, pw, salt)
  {
  }

  // ----- hashes and their verification -----

  datatype Error = SaltTooLong | NotAscii

  datatype Outcome<+T> = Ok(value: T) | Raised(error: Error)

  predicate Ascii(s: string) { forall c <- s :: c as int < 128 }

  function AsciiBytes(s: string): seq<Byte>
    requires Ascii(s)
  {
    seq(|s|, i requires 0 <= i < |s| => assert s[i] in s; AsciiByte(s[i]))
  }

  function AsciiByte(c: char): Byte
    requires c as int < 128
  {
    c as int
  }

  /** The foreign parts: MD5, and UTF-8 encoding of passwords. */
  datatype Foreign = Foreign(md5: seq<Byte> -> Digest, utf8: string -> seq<Byte>)

  /** The digest of a password under an ASCII salt. */
  function DigestOf(f: Foreign, password: string, salt: string): Digest
    requires Ascii(salt)
  {
    PasswordDigest(f.md5, f.utf8(password), AsciiBytes(salt))
  }

  function Stored(salt: string, digest: Digest): string {
    "$apr1$" + salt + "$" + EncodeDigest(digest)
  }

  method Crypt(f: Foreign, password: string, salt: string) returns (r: Outcome<string>)
    ensures r == if Ascii(salt) then Ok(Stored(salt, DigestOf(f, password, salt))) else Raised(NotAscii)
  {
    if !Ascii(salt) { return Raised(NotAscii); }
    var d := ComputeDigest(f.md5, f.utf8(password), AsciiBytes(salt));
    var a := EncodeTo64(Triple(d[0], d[6], d[12]), 4);
    var b := EncodeTo64(Triple(d[1], d[7], d[13]), 4);
    var c := EncodeTo64(Triple(d[2], d[8], d[14]), 4);
    var e := EncodeTo64(Triple(d[3], d[9], d[15]), 4);
    var g := EncodeTo64(Triple(d[4], d[10], d[5]), 4);
    var h := EncodeTo64(d[11], 2);
    return Ok("$apr1$" + salt + "$" + (a + b + c + e + g + h));
  }

  function Hash(f: Foreign, password: string, salt: string): Outcome<string> {
    if |salt| > 8 then Raised(SaltTooLong)
    else if Ascii(salt) then Ok(Stored(salt, DigestOf(f, password, salt)))
    else Raised(NotAscii)
  }

  /** `random` is the salt drawn when the caller gives none: eight alphabet characters. */
  method HashPassword(f: Foreign, password: string, salt: Option<string>, random: string) returns (r: Outcome<string>)
    requires |random| == 8 && forall c <- random :: InAlphabet(c)
    ensures r == Hash(f, password, if salt.Some? then salt.value else random)
    ensures salt.None? ==> r.Ok?
  {
    var chosen := random;
    if salt.Some? {
      if |salt.value| > 8 { return Raised(SaltTooLong); }
      chosen := salt.value;
    }
    r := Crypt(f, password, chosen);
  }

  function Verify(f: Foreign, password: string, hashed: string): Outcome<bool> {
    var parts := Split(hashed, '$');
    if |parts| != 4 || parts[1] != "apr1" then Ok(false)
    else if !Ascii(parts[2]) || !Ascii(hashed) then Raised(NotAscii)
    else Ok(Stored(parts[2], DigestOf(f, password, parts[2])) == hashed)
  }

  /** The comparison refuses text that is not ASCII. */
  method VerifyPassword(f: Foreign, password: string, hashed: string) returns (r: Outcome<bool>)
    ensures r == Verify(f, password, hashed)
  {
    var parts := Split(hashed, '$');
    if |parts| != 4 || parts[1] != "apr1" { return Ok(false); }
    var again := Crypt(f, password, parts[2]);
    if again.Raised? { return Raised(again.error); }
    if !Ascii(hashed) { return Raised(NotAscii); }
    return Ok(again.value == hashed);
  }

  /** The stored form splits back into its salt and its 22 characters exactly when the salt holds
      no `$`; otherwise it has too many parts. */
  lemma SplitStored(salt: string, digest: Digest)
    ensures var parts := Split(Stored(salt, digest), '$');
            if '$' in salt then |parts| > 4 else parts == ["", "apr1", salt, EncodeDigest(digest)]
  {
    hide Split, EncodeDigest;
    var text := EncodeDigest(digest);
    var tail := salt + "$" + text;
    assert Stored(salt, digest) == "" + ['$'] + ("apr1" + ['$'] + tail);
    SplitHead("", "apr1" + ['$'] + tail, '$');
    SplitHead("apr1", tail, '$');
    assert '$' !in text;
    if '$' in salt {
      var i :| 0 <= i < |salt| && salt[i] == '$';
      CountParts(tail, [i, |salt|], '$');
    } else {
      SplitHead(salt, text, '$');
      SplitWithoutSeparator(text, '$');
      assert [""] + (["apr1"] + ([salt] + [text])) == ["", "apr1", salt, text];
    }
  }

  /** Two separators make at least three parts. */
  lemma CountParts(s: string, at: seq<nat>, sep: char)
    requires |at| == 2 && at[0] < at[1] < |s| && s[at[0]] == sep && s[at[1]] == sep
    ensures |Split(s, sep)| >= 3
  {
    hide Split;
    FirstSeparator(s, at[0], sep);
    var j: nat :| j <= at[0] && s[j] == sep && sep !in s[..j];
    var tail := s[j + 1..];
    assert s == s[..j] + [sep] + tail;
    SplitHead(s[..j], tail, sep);
    AtLeastTwo(tail, at[1] - j - 1, sep);
  }

  lemma AtLeastTwo(s: string, i: nat, sep: char)
    requires i < |s| && s[i] == sep
    ensures |Split(s, sep)| >= 2
  {
    hide Split;
    FirstSeparator(s, i, sep);
    var j: nat :| j <= i && s[j] == sep && sep !in s[..j];
    assert s == s[..j] + [sep] + s[j + 1..];
    SplitHead(s[..j], s[j + 1..], sep);
  }

  lemma {:induction false} FirstSeparator(s: string, i: nat, sep: char)
    requires i < |s| && s[i] == sep
    ensures exists j: nat :: j <= i && s[j] == sep && sep !in s[..j]
  {
    if sep in s[..i] {
      var k :| 0 <= k < i && s[..i][k] == sep;
      FirstSeparator(s, k, sep);
    } else {
      assert s[i] == sep && sep !in s[..i];
    }
  }

  /** A hash made with a usable salt verifies its own password exactly when the salt holds no
      `$`, which every salt of alphabet characters is free of. */
  lemma VerifiesOwnHash(f: Foreign, password: string, salt: string)
    requires Hash(f, password, salt).Ok?
    ensures Verify(f, password, Hash(f, password, salt).value) == Ok('$' !in salt)
    ensures (forall c <- salt :: InAlphabet(c)) ==> '$' !in salt
  {
    hide Split, EncodeDigest, DigestOf;
    SplitStored(salt, DigestOf(f, password, salt));
    assert Ascii(Stored(salt, DigestOf(f, password, salt)));
  }

  /** Another password is accepted against a stored hash exactly when its digest collides. */
  lemma AcceptsOnlyCollisions(f: Foreign, password: string, other: string, salt: string)
    requires Hash(f, password, salt).Ok? && '$' !in salt
    ensures Verify(f, other, Hash(f, password, salt).value)
         == Ok(DigestOf(f, other, salt) == DigestOf(f, password, salt))
  {
    hide Split, EncodeDigest, DigestOf;
    var mine, theirs := DigestOf(f, password, salt), DigestOf(f, other, salt);
    SplitStored(salt, mine);
    assert Ascii(Stored(salt, mine));
    EncodingDetermines(theirs, mine);
    StoredDetermines(salt, theirs, mine);
  }

  lemma StoredDetermines(salt: string, d: Digest, e: Digest)
    ensures Stored(salt, d) == Stored(salt, e) <==> EncodeDigest(d) == EncodeDigest(e)
  {
    hide EncodeDigest;
    var n := 7 + |salt|;
    assert Stored(salt, d)[n..] == EncodeDigest(d);
    assert Stored(salt, e)[n..] == EncodeDigest(e);
  }

  // ----- the digest in bytes -----

  function Pow2(k: nat): (p: nat)
    ensures p > 0
  {
    if k == 0 then 1 else 2 * Pow2(k - 1)
  }

  lemma Quotient(n: nat, m: nat, q: nat)
    requires m > 0 && q * m <= n < q * m + m
    ensures n / m == q
  {
    var p, rest := n / m, n % m;
    assert n == p * m + rest;
    var x: int := p - q;
    assert x * m + q * m == p * m;
    AtLeastOnce(x, m);
  }

  lemma AtLeastOnce(x: int, m: int)
    requires m >= 0
    ensures x >= 1 ==> x * m >= m
    ensures x <= -1 ==> x * m <= -m
  {
  }

  lemma HalfQuotient(n: nat, m: nat, s: nat)
    requires m > 0 && n / m == s
    ensures n / (2 * m) == s / 2
  {
    assert n == s * m + n % m;
    var q := s / 2;
    assert s * m == 2 * q * m + (s - 2 * q) * m;
    assert q * (2 * m) == 2 * q * m;
    assert s - 2 * q == 0 || s - 2 * q == 1;
    Quotient(n, 2 * m, q);
  }

  /** Shifting right `k` times divides by two to the `k`. */
  lemma {:induction false} ShiftedIs(n: nat, k: nat)
    ensures Shifted(n, k) == n / Pow2(k)
  {
    if k > 0 {
      ShiftedIs(n, k - 1);
      HalfQuotient(n, Pow2(k - 1), Shifted(n, k - 1));
    }
  }

  lemma {:induction false} BitLengthIs(n: nat)
    ensures n > 0 ==> BitLength(n) >= 1 && Pow2(BitLength(n) - 1) <= n < Pow2(BitLength(n))
  {
    if n > 1 { BitLengthIs(n / 2); }
  }

  lemma LengthBitsAre(n: nat, first: Byte)
    requires n > 0
    ensures var bits := LengthBits(n, first);
            && bits != [] && Pow2(|bits| - 1) <= n < Pow2(|bits|)
            && forall k: nat :: k < |bits| ==> bits[k] == if n / Pow2(k) % 2 == 1 then 0 else first
  {
    hide BitLength, Shifted, Pow2;
    BitLengthIs(n);
    var bits := LengthBits(n, first);
    forall k: nat | k < |bits| ensures bits[k] == if n / Pow2(k) % 2 == 1 then 0 else first { ShiftedIs(n, k); }
  }

  /** The thousand rounds as a list of digests, each the MD5 of its round. */
  lemma {:induction false} RoundsAre(md5: seq<Byte> -> Digest, first: Digest, pw: seq<Byte>, salt: seq<Byte>, n: nat)
    returns (ds: seq<Digest>)
    ensures |ds| == n + 1 && ds[0] == first && ds[n] == Stretched(md5, first, pw, salt, n)
    ensures forall i: nat :: i < n ==>
              ds[i + 1] == md5((if i % 2 == 1 then pw else ds[i]) + (if i % 3 != 0 then salt else [])
                               + (if i % 7 != 0 then pw else []) + (if i % 2 == 1 then ds[i] else pw))
  {
    if n == 0 {
      ds := [first];
    } else {
      var before := RoundsAre(md5, first, pw, salt, n - 1);
      ds := before + [Stretched(md5, first, pw, salt, n)];
      assert forall i: nat :: i < n ==> ds[i] == before[i];
    }
  }

  /** The digest of a password under a salt, in bytes: the first is the MD5 of the password, the tag,
      the salt, the alternate digest repeated to the password's length, and one byte per bit of that
      length; each of a thousand rounds mixes the password, the salt and the digest before; and the
      last is the one stored. */
  lemma DigestInBytes(f: Foreign, password: string, salt: string)
    returns (ds: seq<Digest>, pw: seq<Byte>, plain: seq<Byte>, bits: seq<Byte>)
    requires Ascii(salt)
    ensures |ds| == 1001 && DigestOf(f, password, salt) == ds[1000]
    ensures pw == f.utf8(password)
    ensures |plain| == |salt| && forall i :: 0 <= i < |salt| ==> plain[i] == salt[i] as int
    ensures pw == [] ==> bits == []
    ensures pw != [] ==> bits != [] && Pow2(|bits| - 1) <= |pw| < Pow2(|bits|)
    ensures forall k: nat :: k < |bits| && pw != [] ==> bits[k] == if |pw| / Pow2(k) % 2 == 1 then 0 else pw[0]
    ensures ds[0] == f.md5(pw + [36, 97, 112, 114, 49, 36] + plain
                           + seq(|pw|, i requires 0 <= i => f.md5(pw + plain + pw)[i % 16]) + bits)
    ensures forall i: nat :: i < 1000 ==>
              ds[i + 1] == f.md5((if i % 2 == 1 then pw else ds[i]) + (if i % 3 != 0 then plain else [])
                                 + (if i % 7 != 0 then pw else []) + (if i % 2 == 1 then ds[i] else pw))
  {
    hide LengthBits, Stretched, Pow2;
    pw, plain := f.utf8(password), AsciiBytes(salt);
    bits := if pw == [] then [] else LengthBits(|pw|, pw[0]);
    if pw != [] { LengthBitsAre(|pw|, pw[0]); }
    ds := RoundsAre(f.md5, f.md5(FirstInput(f.md5, pw, plain)), pw, plain, 1000);
    assert Folded(f.md5(pw + plain + pw), |pw|) == seq(|pw|, i requires 0 <= i => f.md5(pw + plain + pw)[i % 16]);
  }

  function Three(d: Digest, i: nat, j: nat, k: nat): int
    requires i < 16 && j < 16 && k < 16
  {
    d[i] as int * 65536 + d[j] as int * 256 + d[k] as int
  }

  /** The stored text in bytes: five groups of four characters and one of two, each the value of the
      digest bytes Apache puts there. */
  lemma TextInBytes(d: Digest, g: nat)
    requires g < 5
    ensures From64(EncodeDigest(d)[g * 4..g * 4 + 4])
         == if g == 0 then Three(d, 0, 6, 12) else if g == 1 then Three(d, 1, 7, 13)
            else if g == 2 then Three(d, 2, 8, 14) else if g == 3 then Three(d, 3, 9, 15) else Three(d, 4, 10, 5)
    ensures From64(EncodeDigest(d)[20..22]) == d[11]
  {
    hide To64, From64, Pow64, High, EncodeDigest;
    GroupInBytes(d, g);
    LastInBytes(d);
  }

  lemma GroupInBytes(d: Digest, g: nat)
    requires g < 5
    ensures From64(EncodeDigest(d)[g * 4..g * 4 + 4])
         == Triple(d[ByteOrder[3 * g]], d[ByteOrder[3 * g + 1]], d[ByteOrder[3 * g + 2]])
  {
    hide To64, From64, Pow64, High, EncodeDigest, Triple;
    EncodedGroup(d, g);
    var a, b, c := d[ByteOrder[3 * g]], d[ByteOrder[3 * g + 1]], d[ByteOrder[3 * g + 2]];
    TripleParts(a, b, c);
    From64To64(Triple(a, b, c), 4);
  }

  lemma LastInBytes(d: Digest)
    ensures From64(EncodeDigest(d)[20..22]) == d[11]
  {
    hide To64, From64, Pow64, High, Triple;
    assert EncodeDigest(d)[20..22] == To64(d[11], 2);
    From64To64(d[11], 2);
    assert d[11] < Pow64(2) by { Pow64Two(); }
  }

  /** When hashing is refused, and what it stores otherwise. */
  lemma HashMeans(f: Foreign, password: string, salt: string)
    ensures |salt| > 8 ==> Hash(f, password, salt) == Raised(SaltTooLong)
    ensures |salt| <= 8 && (exists c <- salt :: c as int >= 128) ==> Hash(f, password, salt) == Raised(NotAscii)
    ensures |salt| <= 8 && (forall c <- salt :: c as int < 128) ==>
              && Ascii(salt)
              && Hash(f, password, salt) == Ok("$apr1$" + salt + "$" + EncodeDigest(DigestOf(f, password, salt)))
  {
    hide EncodeDigest, DigestOf;
  }

  /** What is accepted at all: exactly the stored forms of the password's own digest under some
      ASCII salt without a `$`, of any length. */
  lemma AcceptedIff(f: Foreign, password: string, hashed: string)
    ensures Verify(f, password, hashed) == Ok(true)
       <==> exists salt :: Ascii(salt) && '$' !in salt && hashed == Stored(salt, DigestOf(f, password, salt))
  {
    hide Split, EncodeDigest, DigestOf;
    var parts := Split(hashed, '$');
    if Verify(f, password, hashed) == Ok(true) {
      assert parts[2] in parts;
    }
    if salt :| Ascii(salt) && '$' !in salt && hashed == Stored(salt, DigestOf(f, password, salt)) {
      SplitStored(salt, DigestOf(f, password, salt));
      assert Ascii(hashed);
    }
  }

  /** Malformed text is not always answered with a refusal: with four parts and the right tag,
      any character outside ASCII raises instead. */
  lemma RaisesIff(f: Foreign, password: string, hashed: string)
    ensures Verify(f, password, hashed).Raised?
       <==> (var parts := Split(hashed, '$'); |parts| == 4 && parts[1] == "apr1" && !Ascii(hashed))
  {
    var parts := Split(hashed, '$');
    if |parts| == 4 && Ascii(hashed) {
      forall c | c in parts[2] ensures c in hashed {
        PartsAreWithin(parts, 2, '$', c);
      }
    }
  }

  lemma {:induction false} PartsAreWithin(parts: seq<string>, i: nat, sep: char, c: char)
    requires i < |parts| && c in parts[i]
    ensures c in Join(parts, sep)
  {
    if i > 0 {
      assert parts[1..][i - 1] == parts[i];
      PartsAreWithin(parts[1..], i - 1, sep, c);
    }
  }
}
