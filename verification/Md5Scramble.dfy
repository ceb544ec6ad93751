/** The reversible scrambling of MD5 strings: a swap of eight-character blocks and a positional xor. */
module Md5Scramble {
  import opened Wrappers

  // ---------------------------------------------------------------- digits

  /** Bitwise exclusive or. */
  function XorNat(a: nat, b: nat): nat
    decreases a + b
  {
    if a == 0 && b == 0 then 0 else 2 * XorNat(a / 2, b / 2) + (a + b) % 2
  }

  /** Exclusive or of a two's complement integer with a small mask. */
  function Xor(n: int, mask: nat): int {
    if n >= 0 then XorNat(n, mask) else -1 - XorNat(-n - 1, mask)
  }

  lemma {:induction false} XorHalves(a: nat, b: nat)
    ensures XorNat(a, b) / 2 == XorNat(a / 2, b / 2) && XorNat(a, b) % 2 == (a + b) % 2
  {
    if a == 0 && b == 0 {
      assert XorNat(0, 0) == 0;
    } else {
      LowBit(XorNat(a / 2, b / 2), (a + b) % 2);
    }
  }

  lemma LowBit(half: nat, bit: nat)
    requires bit < 2
    ensures (2 * half + bit) / 2 == half && (2 * half + bit) % 2 == bit
  {
  }

  /** Bit by bit, an exclusive or is the sum modulo two. */
  lemma {:induction false} XorNatBits(a: nat, b: nat, k: nat)
    ensures XorNat(a, b) / Power2(k) % 2 == (a / Power2(k) + b / Power2(k)) % 2
    decreases k
  {
    XorHalves(a, b);
    if k > 0 {
      XorNatBits(a / 2, b / 2, k - 1);
      NextBit(XorNat(a, b), a, b, Power2(k - 1));
      assert Power2(k) == 2 * Power2(k - 1);
    } else {
      assert Power2(k) == 1;
    }
  }

  lemma NextBit(x: int, a: int, b: int, p: int)
    requires p > 0 && x / 2 / p % 2 == (a / 2 / p + b / 2 / p) % 2
    ensures x / (2 * p) % 2 == (a / (2 * p) + b / (2 * p)) % 2
  {
    HalfThenShift(x, p);
    HalfThenShift(a, p);
    HalfThenShift(b, p);
  }

  lemma HalfThenShift(n: int, p: int)
    requires p > 0
    ensures n / (2 * p) == n / 2 / p
  {
    var q := n / (2 * p);
    var r := n - 2 * p * q;
    assert 0 <= r < 2 * p;
    assert n / 2 == p * q + r / 2 by {
      assert n == 2 * (p * q) + r;
    }
    Quotient(n / 2, p, q, r / 2);
  }

  lemma Quotient(n: int, p: int, q: int, r: int)
    requires p > 0 && n == p * q + r && 0 <= r < p
    ensures n / p == q
  {
    var d := n / p - q;
    assert p * d == p * (n / p) - p * q == r - n % p;
    Multiple(p, d);
  }

  lemma Multiple(p: int, d: int)
    requires p >= 0
    ensures (d >= 1 ==> p * d >= p) && (d <= -1 ==> p * d + p <= 0)
  {
    if d >= 1 {
      assert p * d == p * (d - 1) + p;
    } else if d <= -1 {
      assert p * d == p * (d + 1) - p;
    }
  }

  /** The same for every integer: rounding down reads the bits of its two's complement. */
  lemma {:induction false} XorBits(n: int, mask: nat, k: nat)
    ensures Xor(n, mask) / Power2(k) % 2 == (n / Power2(k) + mask / Power2(k)) % 2
  {
    if n >= 0 {
      XorNatBits(n, mask, k);
    } else {
      XorNatBits(-n - 1, mask, k);
      ComplementBits(XorNat(-n - 1, mask), -n - 1, mask, Power2(k));
    }
  }

  lemma ComplementBits(x: nat, m: nat, b: nat, p: int)
    requires p > 0 && x / p % 2 == (m / p + b / p) % 2
    ensures (-1 - x) / p % 2 == ((-1 - m) / p + b / p) % 2
  {
    Complement(m, p);
    Complement(x, p);
    Parity(x / p, m / p, b / p);
  }

  lemma Parity(x: int, m: int, b: int)
    requires x % 2 == (m + b) % 2
    ensures (-1 - x) % 2 == (-1 - m + b) % 2
  {
  }

  lemma Complement(m: int, p: int)
    requires m >= 0 && p > 0
    ensures (-1 - m) / p == -1 - m / p
  {
    var q, r := m / p, m % p;
    assert -1 - m == p * (-1 - q) + (p - 1 - r) by {
      assert p * (-1 - q) == -p - p * q;
    }
    Quotient(-1 - m, p, -1 - q, p - 1 - r);
  }

  /** The digit that has exactly the bits in which `a` and `b` differ. */
  predicate DigitOfBits(n: int, a: nat, b: nat) {
    && 0 <= n < 16
    && n % 2 == (a + b) % 2
    && n / 2 % 2 == (a / 2 + b / 2) % 2
    && n / 4 % 2 == (a / 4 + b / 4) % 2
    && n / 8 % 2 == (a / 8 + b / 8) % 2
  }

  lemma {:induction false} XorDigits(a: nat, b: nat)
    requires a < 16 && b < 16
    ensures DigitOfBits(XorNat(a, b), a, b)
  {
    XorBound(a, b, 4, 16);
    XorNatBits(a, b, 0);
    XorNatBits(a, b, 1);
    XorNatBits(a, b, 2);
    XorNatBits(a, b, 3);
  }

  lemma {:induction false} XorTwice(a: nat, b: nat)
    ensures XorNat(XorNat(a, b), b) == a
    decreases a + b
  {
    if a != 0 || b != 0 {
      XorTwice(a / 2, b / 2);
      BitTwice(XorNat(a / 2, b / 2), a, b);
    }
  }

  /** The lowest bit of an exclusive or, and the rest. */
  lemma BitTwice(half: nat, a: nat, b: nat)
    ensures var r := 2 * half + (a + b) % 2; r / 2 == half && (r + b) % 2 == a % 2
  {
  }

  lemma {:induction false} XorBound(a: nat, b: nat, bits: nat, limit: nat)
    requires limit == Power2(bits) && a < limit && b < limit
    ensures XorNat(a, b) < limit
    decreases bits
  {
    if bits > 0 {
      XorBound(a / 2, b / 2, bits - 1, limit / 2);
    }
  }

  function Power2(n: nat): (p: nat)
    ensures p > 0
  {
    if n == 0 then 1 else 2 * Power2(n - 1)
  }

  function HexDigit(n: nat): char
    requires n < 16
  {
    if n < 10 then '0' + n as char else 'a' + (n - 10) as char
  }

  /** `strconv.FormatInt(n, 16)`. */
  function FormatInt(n: int): string
    decreases if n < 0 then 1 else 0, if n < 0 then -n else n
  {
    if n < 0 then "-" + FormatInt(-n)
    else if n < 16 then [HexDigit(n)]
    else FormatInt(n / 16) + [HexDigit(n % 16)]
  }

  predicate IsHexChar(c: char) {
    '0' <= c <= '9' || 'a' <= c <= 'f' || 'A' <= c <= 'F'
  }

  predicate IsLowerHex(c: char) {
    '0' <= c <= '9' || 'a' <= c <= 'f'
  }

  /** `strconv.ParseInt` of one character in base 16, with its error dropped. */
  function ParseDigit(c: char): (n: nat)
    ensures n < 16 && (IsLowerHex(c) ==> HexDigit(n) == c)
  {
    if '0' <= c <= '9' then c as int - '0' as int
    else if 'a' <= c <= 'f' then c as int - 'a' as int + 10
    else if 'A' <= c <= 'F' then c as int - 'A' as int + 10
    else 0
  }

  lemma ParseOfDigit(n: nat)
    requires n < 16
    ensures ParseDigit(HexDigit(n)) == n && IsLowerHex(HexDigit(n))
  {
  }

  /** `unicode.ToLower` on the characters one byte can hold. */
  function ToLower(c: char): char {
    if 'A' <= c <= 'Z' || ('\U{C0}' <= c <= '\U{DE}' && c != '\U{D7}') then c + 32 as char else c
  }

  // ---------------------------------------------------------------- the two programs

  /** The block swap; it reads the first 32 characters. */
  function Swap(s: string): string
    requires |s| >= 32
  {
    s[8..16] + s[..8] + s[24..32] + s[16..24]
  }

  function EncryptChar(c: char, i: nat): char {
    var n := XorNat(ParseDigit(c), i % 16);
    XorBound(ParseDigit(c), i % 16, 4, 16);
    if i == 9 then 'g' + n as char else HexDigit(n)
  }

  function DecryptPiece(c: char, i: nat): string {
    FormatInt(Xor(if i == 9 then ToLower(c) as int - 'g' as int else ParseDigit(c), i % 16))
  }

  /** The scrambled form, or nothing when slicing a short input would panic. */
  function Encrypt(m: string): Option<string> {
    if |m| < 32 then None else Some(seq(32, i requires 0 <= i < 32 => EncryptChar(Swap(m)[i], i)))
  }

  method EncryptMd5(originalMd5: string) returns (r: Option<string>)
    ensures r == Encrypt(originalMd5) && (r.Some? <==> |originalMd5| >= 32)
    ensures r.Some? ==> |r.value| == 32 && forall i: nat :: i < 32 ==> ScrambledAt(originalMd5, r.value, i)
  {
    if |originalMd5| < 32 {
      return None;
    }
    var reversed := Swap(originalMd5);
    var out := "";
    for i := 0 to |reversed|
      invariant |out| == i
      invariant forall j :: 0 <= j < i ==> out[j] == EncryptChar(reversed[j], j)
    {
      out := out + [EncryptChar(reversed[i], i)];
    }
    assert out == Encrypt(originalMd5).value;
    forall i: nat | i < 32 ensures ScrambledAt(originalMd5, out, i) {
      EncryptMeans(originalMd5, i);
    }
    r := Some(out);
  }

  predicate IsHexString(s: string) {
    |s| % 2 == 0 && forall i :: 0 <= i < |s| ==> IsHexChar(s[i])
  }

  function Pieces(s: string, n: nat): string
    requires n <= |s|
  {
    if n == 0 then "" else Pieces(s, n - 1) + DecryptPiece(s[n - 1], n - 1)
  }

  /** Plain hexadecimal is returned as it is; anything else is unscrambled, which panics if it comes out short. */
  function Decrypt(e: string): Option<string> {
    if IsHexString(e) then Some(e)
    else if |Pieces(e, |e|)| < 32 then None
    else Some(Swap(Pieces(e, |e|)))
  }

  method DecryptMd5(encryptMd5: string) returns (r: Option<string>)
    ensures r == Decrypt(encryptMd5)
    ensures IsHexString(encryptMd5) ==> r == Some(encryptMd5)
    ensures IsScrambled(encryptMd5) ==>
      r.Some? && |r.value| == 32 && forall i: nat :: i < 32 ==> ScrambledAt(r.value, encryptMd5, i)
  {
    if IsScrambled(encryptMd5) {
      DecryptMeans(encryptMd5);
    }
    if IsHexString(encryptMd5) {
      return Some(encryptMd5);
    }
    var out := "";
    for i := 0 to |encryptMd5|
      invariant out == Pieces(encryptMd5, i)
    {
      out := out + DecryptPiece(encryptMd5[i], i);
    }
    if |out| < 32 {
      return None;
    }
    r := Some(Swap(out));
  }

  // ---------------------------------------------------------------- inverse of each other

  /** A lowercase MD5. */
  ghost predicate IsMd5(m: string) {
    |m| == 32 && forall i :: 0 <= i < 32 ==> IsLowerHex(m[i])
  }

  ghost predicate IsAnyMd5(m: string) {
    |m| == 32 && forall i :: 0 <= i < 32 ==> IsHexChar(m[i])
  }

  /** The same digits in lowercase. */
  function Lowered(m: string): string {
    seq(|m|, i requires 0 <= i < |m| => HexDigit(ParseDigit(m[i])))
  }

  /** The scrambled form: lowercase hexadecimal but for the tenth character, which never is. */
  ghost predicate IsScrambled(e: string) {
    |e| == 32 && forall i :: 0 <= i < 32 ==> if i == 9 then 'g' <= e[i] <= 'v' else IsLowerHex(e[i])
  }

  lemma SwapTwice(s: string)
    requires |s| == 32
    ensures |Swap(s)| == 32 && Swap(Swap(s)) == s
  {
    var t := Swap(s);
    assert t[8..16] == s[..8] && t[..8] == s[8..16] && t[24..32] == s[16..24] && t[16..24] == s[24..32];
  }

  /** Where the swap takes its character at `i` from. */
  function From(i: nat): nat
    requires i < 32
  {
    if i / 8 % 2 == 0 then i + 8 else i - 8
  }

  lemma SwapAt(s: string, i: nat)
    requires |s| == 32 && i < 32
    ensures |Swap(s)| == 32 && From(i) < 32 && From(From(i)) == i && Swap(s)[i] == s[From(i)]
  {
  }

  /** Digits written out: what is parsed, and what is printed. */
  lemma DigitsMean(c: char, n: nat)
    requires n < 16
    ensures HexDigit(n) == "0123456789abcdef"[n]
    ensures "0123456789abcdef"[n] == c || "0123456789ABCDEF"[n] == c ==> ParseDigit(c) == n && IsHexChar(c)
    ensures ParseDigit(c) == n && n != 0 ==> "0123456789abcdef"[n] == c || "0123456789ABCDEF"[n] == c
  {
  }

  /**
   Character `i` of the scrambled form `e` of `m`: the digit eight places on or back in `m`, with the bits of
   `i` flipped; the tenth is counted from `g`.
   */
  ghost predicate ScrambledAt(m: string, e: string, i: nat)
    requires |m| >= 32 && |e| == 32 && i < 32
  {
    var from := if i < 8 || 16 <= i < 24 then i + 8 else i - 8;
    var digit, n := ParseDigit(m[from]), if i == 9 then e[9] as int - 'g' as int else ParseDigit(e[i]);
    && (i != 9 ==> e[i] in "0123456789abcdef")
    && DigitOfBits(n, digit, i % 16) && DigitOfBits(digit, n, i % 16)
  }

  lemma EncryptMeans(m: string, i: nat)
    requires |m| >= 32 && i < 32
    ensures Encrypt(m).Some? && |Encrypt(m).value| == 32 && ScrambledAt(m, Encrypt(m).value, i)
  {
    var from := if i < 8 || 16 <= i < 24 then i + 8 else i - 8;
    assert Swap(m)[i] == m[from];
    var digit := ParseDigit(m[from]);
    var n := XorNat(digit, i % 16);
    XorDigits(digit, i % 16);
    ParseOfDigit(n);
    DigitsMean(Encrypt(m).value[i], n);
    XorTwice(digit, i % 16);
    XorDigits(n, i % 16);
  }

  lemma DecryptMeans(e: string)
    requires IsScrambled(e)
    ensures Decrypt(e).Some? && |Decrypt(e).value| == 32
    ensures forall i :: 0 <= i < 32 ==> Decrypt(e).value[i] in "0123456789abcdef"
    ensures forall i: nat :: i < 32 ==> ScrambledAt(Decrypt(e).value, e, i)
  {
    DecryptThenEncrypt(e);
    var m := Decrypt(e).value;
    forall i: nat | i < 32 ensures ScrambledAt(m, e, i) && m[i] in "0123456789abcdef" {
      EncryptMeans(m, i);
      DigitsMean(m[i], ParseDigit(m[i]));
    }
  }

  /** One character of any text that is not plain hexadecimal; outside the tenth place a foreign one reads as 0. */
  lemma PieceMeans(c: char, i: nat)
    requires i != 9
    ensures var p := DecryptPiece(c, i);
      && |p| == 1 && p[0] in "0123456789abcdef"
      && DigitOfBits(ParseDigit(p[0]), ParseDigit(c), i % 16)
      && (!IsHexChar(c) ==> ParseDigit(c) == 0)
  {
    var n := XorNat(ParseDigit(c), i % 16);
    XorDigits(ParseDigit(c), i % 16);
    ParseOfDigit(n);
    DigitsMean(HexDigit(n), n);
  }

  /** The tenth character counts from `g` in either case, whatever it is; below `g` it counts backwards. */
  lemma TenthMeans(c: char, k: nat)
    ensures var offset := (if c in "ABCDEFGHIJKLMNOPQRSTUVWXYZ" then c as int + 32 else c as int) - 103;
      c < '\U{80}' ==>
        && DecryptPiece(c, 9) == FormatInt(Xor(offset, 9))
        && Xor(offset, 9) / Power2(k) % 2 == (offset / Power2(k) + 9 / Power2(k)) % 2
  {
    assert 'A' <= c <= 'Z' <==> c in "ABCDEFGHIJKLMNOPQRSTUVWXYZ";
    XorBits((if 'A' <= c <= 'Z' then c as int + 32 else c as int) - 103, 9, k);
  }

  /** The value of a number written in base 16. */
  function ValueOf(s: string): nat {
    if s == "" then 0 else 16 * ValueOf(s[..|s| - 1]) + ParseDigit(s[|s| - 1])
  }

  lemma {:induction false} FormatMeans(n: int)
    requires n >= 0
    ensures ValueOf(FormatInt(n)) == n && FormatInt(n) != "" && (n > 0 ==> FormatInt(n)[0] != '0')
    ensures forall i :: 0 <= i < |FormatInt(n)| ==> FormatInt(n)[i] in "0123456789abcdef"
    ensures n > 0 ==> FormatInt(-n) == "-" + FormatInt(n)
  {
    ParseOfDigit(n % 16);
    DigitsMean('0', n % 16);
    if n < 16 {
      assert FormatInt(n)[..0] == "";
    } else {
      FormatMeans(n / 16);
      assert FormatInt(n)[..|FormatInt(n)| - 1] == FormatInt(n / 16);
    }
  }

  /** The zero MD5: every character is its own position, the tenth counted from `g`. */
  lemma ZerosScrambled(m: string)
    requires |m| == 32 && forall i :: 0 <= i < 32 ==> m[i] == '0'
    ensures Encrypt(m).Some? && |Encrypt(m).value| == 32
    ensures forall i :: 0 <= i < 32 ==> Encrypt(m).value[i] == if i == 9 then 'p' else "0123456789abcdef"[i % 16]
    ensures Decrypt(Encrypt(m).value) == Some(m)
  {
    forall i | 0 <= i < 32
      ensures Encrypt(m).value[i] == if i == 9 then 'p' else "0123456789abcdef"[i % 16]
    {
      ZeroAt(m, i);
    }
    EncryptThenDecrypt(m);
  }

  lemma ZeroAt(m: string, i: nat)
    requires |m| == 32 && i < 32 && forall i :: 0 <= i < 32 ==> m[i] == '0'
    ensures Encrypt(m).value[i] == if i == 9 then 'p' else "0123456789abcdef"[i % 16]
  {
    SwapAt(m, i);
    XorZero(i % 16);
    DigitsMean('0', i % 16);
  }

  lemma {:induction false} XorZero(b: nat)
    ensures XorNat(0, b) == b
  {
    if b > 0 {
      XorZero(b / 2);
    }
  }

  lemma SwapKeepsMd5(m: string)
    requires IsAnyMd5(m)
    ensures IsAnyMd5(Swap(m)) && (IsMd5(m) ==> IsMd5(Swap(m))) && Swap(Lowered(m)) == Lowered(Swap(m))
  {
    forall i | 0 <= i < 32 ensures Swap(m)[i] == m[From(i)] && Swap(Lowered(m))[i] == Lowered(m)[From(i)] {
      SwapAt(m, i);
      SwapAt(Lowered(m), i);
    }
    SwapAt(m, 0);
    SwapAt(Lowered(m), 0);
  }

  lemma CharRoundTrip(c: char, i: nat)
    requires IsHexChar(c) && i < 32
    ensures var e := EncryptChar(c, i);
      && (if i == 9 then 'g' <= e <= 'v' else IsLowerHex(e))
      && DecryptPiece(e, i) == [HexDigit(ParseDigit(c))]
  {
    var n := ParseDigit(c);
    var x := XorNat(n, i % 16);
    XorTwice(n, i % 16);
    XorBound(n, i % 16, 4, 16);
    ParseOfDigit(x);
    assert FormatInt(n) == [HexDigit(n)];
    if i == 9 {
      assert ToLower('g' + x as char) == 'g' + x as char;
    }
  }

  lemma PieceRoundTrip(e: char, i: nat)
    requires if i == 9 then 'g' <= e <= 'v' else IsLowerHex(e)
    ensures var p := DecryptPiece(e, i); |p| == 1 && IsLowerHex(p[0]) && EncryptChar(p[0], i) == e
  {
    var n := if i == 9 then e as int - 'g' as int else ParseDigit(e);
    XorTwice(n, i % 16);
    XorBound(n, i % 16, 4, 16);
    ParseOfDigit(XorNat(n, i % 16));
  }

  lemma {:induction false} PiecesOf(e: string, m: string, n: nat)
    requires n <= |e| == |m| && forall i :: 0 <= i < n ==> DecryptPiece(e[i], i) == [m[i]]
    ensures Pieces(e, n) == m[..n]
    decreases n
  {
    if n > 0 {
      PiecesOf(e, m, n - 1);
      assert m[..n] == m[..n - 1] + [m[n - 1]];
    }
  }

  /**
   Decrypting an encrypted MD5 gives its lowercase form, and the shortcut for plain input never fires. The
   MD5 itself comes back if and only if it was in lowercase.
   */
  lemma EncryptThenDecrypt(m: string)
    requires IsAnyMd5(m)
    ensures var e := Encrypt(m);
      && e.Some? && IsScrambled(e.value) && !IsHexString(e.value)
      && Decrypt(e.value) == Some(Lowered(m))
      && (Decrypt(e.value) == Some(m) <==> IsMd5(m))
  {
    var e, s := Encrypt(m).value, Swap(m);
    SwapKeepsMd5(m);
    forall i | 0 <= i < 32
      ensures if i == 9 then 'g' <= e[i] <= 'v' else IsLowerHex(e[i])
      ensures DecryptPiece(e[i], i) == [Lowered(s)[i]]
    {
      CharRoundTrip(s[i], i);
    }
    assert !IsHexChar(e[9]);
    PiecesOf(e, Lowered(s), 32);
    assert Lowered(s)[..32] == Lowered(s);
    SwapTwice(Lowered(m));
    LoweredIsSame(m);
  }

  lemma LoweredIsSame(m: string)
    requires IsAnyMd5(m)
    ensures Lowered(m) == m <==> IsMd5(m)
  {
    forall i | 0 <= i < 32 ensures Lowered(m)[i] == m[i] <==> IsLowerHex(m[i]) {
      ParseOfDigit(ParseDigit(m[i]));
    }
  }

  /** Every scrambled form is the encryption of what it decrypts to. */
  lemma DecryptThenEncrypt(e: string)
    requires IsScrambled(e)
    ensures var m := Decrypt(e); m.Some? && IsMd5(m.value) && Encrypt(m.value) == Some(e)
  {
    var s := seq(32, i requires 0 <= i < 32 => DecryptPiece(e[i], i)[0]);
    forall i | 0 <= i < 32
      ensures DecryptPiece(e[i], i) == [s[i]] && IsLowerHex(s[i]) && EncryptChar(s[i], i) == e[i]
    {
      PieceRoundTrip(e[i], i);
    }
    PiecesOf(e, s, 32);
    assert s[..32] == s;
    assert !IsHexChar(e[9]);
    SwapKeepsMd5(s);
    SwapTwice(s);
    assert Encrypt(Swap(s)).value == e;
  }
}
