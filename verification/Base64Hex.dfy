/**
 Turning base64 text into hexadecimal without going through bytes: a state machine that regroups
 six-bit digits into four-bit digits. Shifts and masks on the small non-negative values involved are
 written as quotients and remainders, and an `or` of disjoint bits as a sum.
 */
module Base64Hex {
  import opened Wrappers

  type Byte = b: int | 0 <= b < 256

  type Sextet = v: int | 0 <= v < 64

  type Nibble = n: int | 0 <= n < 16

  /** The base64 alphabet of section 4 of RFC 4648. */
  function B64Char(v: Sextet): char {
    if v < 26 then 'A' + v as char
    else if v < 52 then 'a' + (v - 26) as char
    else if v < 62 then '0' + (v - 52) as char
    else if v == 62 then '+'
    else '/'
  }

  /** The position of a character in the base64 alphabet, or -1. */
  function Index(m: char): (v: int)
    ensures -1 <= v < 64
    ensures v >= 0 ==> B64Char(v) == m
    ensures v == -1 ==> forall u: Sextet :: B64Char(u) != m
  {
    if 'A' <= m <= 'Z' then m as int - 'A' as int
    else if 'a' <= m <= 'z' then m as int - 'a' as int + 26
    else if '0' <= m <= '9' then m as int - '0' as int + 52
    else if m == '+' then 62
    else if m == '/' then 63
    else -1
  }

  lemma IndexInverts(v: Sextet)
    ensures Index(B64Char(v)) == v && B64Char(v) != '='
  {
  }

  /** The lowercase base16 alphabet of section 8 of RFC 4648. */
  function Int2Char(a: Nibble): char {
    if a < 10 then '0' + a as char else 'a' + (a - 10) as char
  }

  // ---------------------------------------------------------------- the machine

  /** `e` digits of the current group have been read, and `c` are bits of the last one still to be used. */
  datatype Machine = Machine(e: int, c: int, d: string)

  ghost predicate Ready(s: Machine) {
    0 <= s.e < 4 && 0 <= s.c < (if s.e == 2 then 16 else 4)
  }

  /** One digit. */
  function Step(s: Machine, v: Sextet): (t: Machine)
    requires Ready(s)
    ensures Ready(t)
  {
    if s.e == 0 then Machine(1, v % 4, s.d + [Int2Char(v / 4)])
    else if s.e == 1 then Machine(2, v % 16, s.d + [Int2Char(s.c * 4 + v / 16)])
    else if s.e == 2 then Machine(3, v % 4, s.d + [Int2Char(s.c)] + [Int2Char(v / 4)])
    else Machine(0, s.c, s.d + [Int2Char(s.c * 4 + v / 16)] + [Int2Char(v % 16)])
  }

  /** The rest of a text: padding is skipped, and a foreign character indexes out of range. */
  ghost function Run(s: Machine, a: string): (t: Option<Machine>)
    requires Ready(s)
    ensures t.Some? ==> Ready(t.value)
    ensures t.None? <==> exists i :: 0 <= i < |a| && a[i] != '=' && Index(a[i]) < 0
    decreases |a|
  {
    if a == "" then Some(s)
    else if a[0] == '=' then Run(s, a[1..])
    else if Index(a[0]) < 0 then None
    else Run(Step(s, Index(a[0])), a[1..])
  }

  ghost function Finish(s: Machine): string
    requires Ready(s)
  {
    if s.e == 1 then s.d + [Int2Char(s.c * 4)] else s.d
  }

  /** The conversion of a text; nothing when it holds a foreign character. */
  ghost function Convert(a: string): (r: Option<string>)
    ensures r.None? <==> exists i :: 0 <= i < |a| && a[i] != '=' && Index(a[i]) < 0
  {
    match Run(Machine(0, 0, ""), a)
    case None => None
    case Some(s) => Some(Finish(s))
  }

  /** `b64tohex`; nothing is returned when the program would panic. */
  method B64ToHex(a: string) returns (r: Option<string>)
    ensures r == Convert(a)
  {
    var d, e, c := "", 0, 0;
    for i := 0 to |a|
      invariant Ready(Machine(e, c, d))
      invariant Run(Machine(0, 0, ""), a) == Run(Machine(e, c, d), a[i..])
    {
      var m := a[i];
      assert a[i..][0] == m && a[i..][1..] == a[i + 1..];
      if m != '=' {
        var v := Index(m);
        if v < 0 {
          return None;
        }
        if e == 0 {
          e := 1;
          d := d + [Int2Char(v / 4)];
          c := v % 4;
        } else if e == 1 {
          e := 2;
          d := d + [Int2Char(c * 4 + v / 16)];
          c := v % 16;
        } else if e == 2 {
          e := 3;
          d := d + [Int2Char(c)];
          d := d + [Int2Char(v / 4)];
          c := v % 4;
        } else {
          e := 0;
          d := d + [Int2Char(c * 4 + v / 16)];
          d := d + [Int2Char(v % 16)];
        }
      }
    }
    assert a[|a|..] == "";
    if e == 1 {
      d := d + [Int2Char(c * 4)];
    }
    r := Some(d);
  }

  // ---------------------------------------------------------------- the standards

  /** Padded base64, section 4 of RFC 4648. */
  function Base64(bs: seq<Byte>): string {
    if bs == [] then ""
    else if |bs| == 1 then
      [B64Char(bs[0] / 4), B64Char(bs[0] % 4 * 16), '=', '=']
    else if |bs| == 2 then
      [B64Char(bs[0] / 4), B64Char(bs[0] % 4 * 16 + bs[1] / 16), B64Char(bs[1] % 16 * 4), '=']
    else
      [B64Char(bs[0] / 4), B64Char(bs[0] % 4 * 16 + bs[1] / 16),
       B64Char(bs[1] % 16 * 4 + bs[2] / 64), B64Char(bs[2] % 64)] + Base64(bs[3..])
  }

  /** Base16, section 8 of RFC 4648, in lowercase. */
  function Hex(bs: seq<Byte>): string {
    if bs == [] then "" else HexByte(bs[0]) + Hex(bs[1..])
  }

  function HexByte(x: Byte): string {
    [Int2Char(x / 16), Int2Char(x % 16)]
  }

  lemma {:induction false} RunDigit(s: Machine, v: Sextet, rest: string)
    requires Ready(s)
    ensures Run(s, [B64Char(v)] + rest) == Run(Step(s, v), rest)
  {
    IndexInverts(v);
    assert ([B64Char(v)] + rest)[1..] == rest;
  }

  lemma {:induction false} RunPads(s: Machine)
    requires Ready(s)
    ensures Run(s, "=") == Some(s) && Run(s, "==") == Some(s)
  {
    assert "="[1..] == "" && "=="[1..] == "=";
  }

  lemma {:induction false} RunFour(s: Machine, v0: Sextet, v1: Sextet, v2: Sextet, v3: Sextet, rest: string)
    requires Ready(s)
    ensures Run(s, [B64Char(v0), B64Char(v1), B64Char(v2), B64Char(v3)] + rest) ==
      Run(Step(Step(Step(Step(s, v0), v1), v2), v3), rest)
  {
    var a1 := [B64Char(v3)] + rest;
    var a2 := [B64Char(v2)] + a1;
    var a3 := [B64Char(v1)] + a2;
    assert [B64Char(v0), B64Char(v1), B64Char(v2), B64Char(v3)] + rest == [B64Char(v0)] + a3;
    RunDigit(s, v0, a3);
    RunDigit(Step(s, v0), v1, a2);
    RunDigit(Step(Step(s, v0), v1), v2, a1);
    RunDigit(Step(Step(Step(s, v0), v1), v2), v3, rest);
  }

  function Six(d: string, x: Byte, y: Byte, z: Byte): string {
    d + HexByte(x) + HexByte(y) + HexByte(z)
  }

  /** The bits of a byte cut after its sixth bit, or after its fourth, or after its second. */
  lemma Regroup(x: Byte, y: Byte)
    ensures x / 4 / 4 == x / 16
    ensures x / 4 % 4 * 4 + (x % 4 * 16 + y / 16) / 16 == x % 16
    ensures (x % 4 * 16 + y / 16) % 16 == y / 16
    ensures (x % 16 * 4 + y / 64) / 4 == x % 16 && (x % 16 * 4 + y / 64) % 4 == y / 64
    ensures y / 64 * 4 + y % 64 / 16 == y / 16 && y % 64 % 16 == y % 16
  {
  }

  /** Three bytes are four base64 digits and six hexadecimal ones. */
  lemma StepGroup(d: string, c: int, x: Byte, y: Byte, z: Byte)
    requires 0 <= c < 4
    ensures Step(Step(Step(Step(Machine(0, c, d), x / 4), x % 4 * 16 + y / 16), y % 16 * 4 + z / 64), z % 64) ==
      Machine(0, z / 64, Six(d, x, y, z))
  {
    Regroup(x, y);
    Regroup(y, z);
  }

  lemma {:induction false} Base64Three(bs: seq<Byte>)
    requires |bs| > 2
    ensures Base64(bs) ==
      [B64Char(bs[0] / 4), B64Char(bs[0] % 4 * 16 + bs[1] / 16),
       B64Char(bs[1] % 16 * 4 + bs[2] / 64), B64Char(bs[2] % 64)] + Base64(bs[3..])
  {
  }

  /** One full group. */
  lemma {:induction false} RunGroup(d: string, c: int, bs: seq<Byte>)
    requires 0 <= c < 4 && |bs| > 2
    ensures Run(Machine(0, c, d), Base64(bs)) ==
      Run(Machine(0, bs[2] / 64, Six(d, bs[0], bs[1], bs[2])), Base64(bs[3..]))
  {
    var x, y, z := bs[0], bs[1], bs[2];
    Base64Three(bs);
    StepGroup(d, c, x, y, z);
    RunFour(Machine(0, c, d), x / 4, x % 4 * 16 + y / 16, y % 16 * 4 + z / 64, z % 64, Base64(bs[3..]));
  }

  /** From the start of a group, running over padded base64 yields the bytes' base16. */
  lemma {:induction false} RunIsHex(d: string, c: int, bs: seq<Byte>)
    requires 0 <= c < 4
    ensures var r := Run(Machine(0, c, d), Base64(bs)); r.Some? && Finish(r.value) == d + Hex(bs)
    decreases |bs|
  {
    if bs == [] {
      assert d + "" == d;
    } else if |bs| <= 2 {
      RunShort(d, c, bs);
    } else {
      RunGroup(d, c, bs);
      RunIsHex(Six(d, bs[0], bs[1], bs[2]), bs[2] / 64, bs[3..]);
      HexThree(d, bs);
    }
  }

  /** Base16 of at least three bytes. */
  lemma {:induction false} HexThree(d: string, bs: seq<Byte>)
    requires |bs| > 2
    ensures d + Hex(bs) == Six(d, bs[0], bs[1], bs[2]) + Hex(bs[3..])
  {
    HexCons(bs);
    HexCons(bs[1..]);
    HexCons(bs[2..]);
    assert bs[1..][1..] == bs[2..] && bs[2..][1..] == bs[3..];
    Reassociate(d, HexByte(bs[0]), HexByte(bs[1]), HexByte(bs[2]), Hex(bs[3..]));
  }

  lemma {:induction false} HexCons(bs: seq<Byte>)
    requires bs != []
    ensures Hex(bs) == HexByte(bs[0]) + Hex(bs[1..])
  {
  }

  lemma Reassociate(d: string, a: string, b: string, c: string, r: string)
    ensures d + (a + (b + (c + r))) == d + a + b + c + r
  {
  }

  /** The last group, when it is padded. */
  lemma {:induction false} RunShort(d: string, c: int, bs: seq<Byte>)
    requires 0 <= c < 4 && 1 <= |bs| <= 2
    ensures var r := Run(Machine(0, c, d), Base64(bs)); r.Some? && Finish(r.value) == d + Hex(bs)
  {
    HexShort(bs);
    if |bs| == 1 {
      RunOne(d, c, bs[0]);
    } else {
      RunTwo(d, c, bs[0], bs[1]);
    }
  }

  lemma {:induction false} HexShort(bs: seq<Byte>)
    requires 1 <= |bs| <= 2
    ensures Hex(bs) == if |bs| == 1 then HexByte(bs[0]) else HexByte(bs[0]) + HexByte(bs[1])
  {
    HexCons(bs);
    if |bs| == 1 {
      assert HexByte(bs[0]) + Hex([]) == HexByte(bs[0]);
    } else {
      HexCons(bs[1..]);
      assert HexByte(bs[1]) + Hex([]) == HexByte(bs[1]);
    }
  }

  lemma RunOne(d: string, c: int, x: Byte)
    requires 0 <= c < 4
    ensures var r := Run(Machine(0, c, d), [B64Char(x / 4), B64Char(x % 4 * 16), '=', '=']);
      r.Some? && Finish(r.value) == d + HexByte(x)
  {
    var s := Machine(0, c, d);
    assert [B64Char(x / 4), B64Char(x % 4 * 16), '=', '='] == [B64Char(x / 4)] + ([B64Char(x % 4 * 16)] + "==");
    RunDigit(s, x / 4, [B64Char(x % 4 * 16)] + "==");
    RunDigit(Step(s, x / 4), x % 4 * 16, "==");
    RunPads(Step(Step(s, x / 4), x % 4 * 16));
    Regroup(x, 0);
  }

  /** Three digits and a pad. */
  lemma {:induction false} RunThree(s: Machine, v0: Sextet, v1: Sextet, v2: Sextet)
    requires Ready(s)
    ensures Run(s, [B64Char(v0), B64Char(v1), B64Char(v2), '=']) == Some(Step(Step(Step(s, v0), v1), v2))
  {
    var a1 := [B64Char(v2)] + "=";
    var a2 := [B64Char(v1)] + a1;
    assert [B64Char(v0), B64Char(v1), B64Char(v2), '='] == [B64Char(v0)] + a2;
    RunDigit(s, v0, a2);
    RunDigit(Step(s, v0), v1, a1);
    RunDigit(Step(Step(s, v0), v1), v2, "=");
    RunPads(Step(Step(Step(s, v0), v1), v2));
  }

  /** Two bytes are three base64 digits and four hexadecimal ones. */
  lemma StepTwo(d: string, c: int, x: Byte, y: Byte)
    requires 0 <= c < 4
    ensures Step(Step(Step(Machine(0, c, d), x / 4), x % 4 * 16 + y / 16), y % 16 * 4) ==
      Machine(3, 0, d + HexByte(x) + HexByte(y))
  {
    Regroup(x, y);
    Regroup(y, 0);
    var t1 := Step(Machine(0, c, d), x / 4);
    var t2 := Step(t1, x % 4 * 16 + y / 16);
    assert t1 == Machine(1, x / 4 % 4, d + [Int2Char(x / 16)]);
    assert t2 == Machine(2, y / 16, d + HexByte(x));
  }

  lemma {:induction false} RunTwo(d: string, c: int, x: Byte, y: Byte)
    requires 0 <= c < 4
    ensures var r := Run(Machine(0, c, d), [B64Char(x / 4), B64Char(x % 4 * 16 + y / 16), B64Char(y % 16 * 4), '=']);
      r.Some? && Finish(r.value) == d + (HexByte(x) + HexByte(y))
  {
    RunThree(Machine(0, c, d), x / 4, x % 4 * 16 + y / 16, y % 16 * 4);
    StepTwo(d, c, x, y);
    assert d + HexByte(x) + HexByte(y) == d + (HexByte(x) + HexByte(y));
  }

  /** The conversion of base64 is base16, for every byte string and all three cases of padding. */
  lemma {:induction false} ConvertedBase64IsHex(bs: seq<Byte>)
    ensures Convert(Base64(bs)) == Some(Hex(bs))
  {
    RunIsHex("", 0, bs);
    assert "" + Hex(bs) == Hex(bs);
  }

  // ---------------------------------------------------------------- the two texts, position by position

  /** The two alphabets, written out. */
  lemma Base64Alphabet(v: Sextet)
    ensures v < 26 ==> B64Char(v) == "ABCDEFGHIJKLMNOPQRSTUVWXYZ"[v]
    ensures 26 <= v ==> B64Char(v) == "abcdefghijklmnopqrstuvwxyz0123456789+/"[v - 26]
  {
    if v < 26 {
      Uppercase(v);
    } else if v < 52 {
      Lowercase(v - 26);
    }
  }

  lemma Uppercase(n: nat)
    requires n < 26
    ensures "ABCDEFGHIJKLMNOPQRSTUVWXYZ"[n] == 'A' + n as char
  {
  }

  lemma Lowercase(n: nat)
    requires n < 26
    ensures "abcdefghijklmnopqrstuvwxyz0123456789+/"[n] == 'a' + n as char
  {
  }

  lemma HexAlphabet(n: Nibble)
    ensures Int2Char(n) == "0123456789abcdef"[n]
  {
  }

  /** The characters of a three-byte group carry its 24 bits, the first ones highest. */
  ghost predicate CarriesGroup(s: string, k: nat, x: Byte, y: Byte, z: Byte)
    requires k + 4 <= |s|
  {
    && Index(s[k]) >= 0 && Index(s[k + 1]) >= 0 && Index(s[k + 2]) >= 0 && Index(s[k + 3]) >= 0
    && Index(s[k]) * 262144 + Index(s[k + 1]) * 4096 + Index(s[k + 2]) * 64 + Index(s[k + 3])
       == x * 65536 + y * 256 + z
  }

  /** A short last group: the missing bits are zero and the missing characters are padding. */
  ghost predicate CarriesTail(s: string, k: nat, tail: seq<Byte>)
    requires k + 4 == |s| && 1 <= |tail| <= 2
  {
    if |tail| == 1 then
      && Index(s[k]) >= 0 && Index(s[k + 1]) >= 0 && s[k + 2] == s[k + 3] == '='
      && Index(s[k]) * 64 + Index(s[k + 1]) == tail[0] as int * 16
    else
      && Index(s[k]) >= 0 && Index(s[k + 1]) >= 0 && Index(s[k + 2]) >= 0 && s[k + 3] == '='
      && Index(s[k]) * 4096 + Index(s[k + 1]) * 64 + Index(s[k + 2]) == tail[0] as int * 1024 + tail[1] as int * 4
  }

  lemma GroupBits(x: Byte, y: Byte, z: Byte)
    ensures x / 4 * 262144 + (x % 4 * 16 + y / 16) * 4096 + (y % 16 * 4 + z / 64) * 64 + z % 64
      == x * 65536 + y * 256 + z
    ensures x / 4 * 64 + x % 4 * 16 == x * 16
    ensures x / 4 * 4096 + (x % 4 * 16 + y / 16) * 64 + y % 16 * 4 == x * 1024 + y * 4
  {
  }

  /** Whole groups in front leave the rest as it would stand alone. */
  lemma {:induction false} AfterGroups(bs: seq<Byte>, g: nat)
    requires 3 * g <= |bs|
    ensures |Base64(bs)| == 4 * g + |Base64(bs[3 * g..])| && Base64(bs)[4 * g..] == Base64(bs[3 * g..])
    decreases g
  {
    if g == 0 {
      assert bs[0..] == bs;
    } else {
      AfterGroups(bs, g - 1);
      Rest(Base64(bs), 4 * (g - 1), bs[3 * (g - 1)..], bs[3 * g..]);
    }
  }

  lemma {:induction false} Rest(s: string, k: nat, bs: seq<Byte>, rest: seq<Byte>)
    requires k <= |s| && |bs| > 2 && rest == bs[3..] && s[k..] == Base64(bs)
    ensures |s| == k + 4 + |Base64(rest)| && s[k + 4..] == Base64(rest)
  {
    FirstGroup(bs);
    assert s[k + 4..] == s[k..][4..];
  }

  /** Base64, group by group. */
  lemma {:induction false} Base64Means(bs: seq<Byte>, g: nat)
    requires 3 * g + 3 <= |bs|
    ensures |Base64(bs)| >= 4 * g + 4
    ensures CarriesGroup(Base64(bs), 4 * g, bs[3 * g], bs[3 * g + 1], bs[3 * g + 2])
  {
    AfterGroups(bs, g);
    FirstGroup(bs[3 * g..]);
    GroupInside(Base64(bs), Base64(bs[3 * g..]), 4 * g, bs[3 * g], bs[3 * g + 1], bs[3 * g + 2]);
  }

  lemma GroupInside(s: string, t: string, k: nat, x: Byte, y: Byte, z: Byte)
    requires k <= |s| && s[k..] == t && |t| >= 4 && CarriesGroup(t, 0, x, y, z)
    ensures CarriesGroup(s, k, x, y, z)
  {
    assert s[k] == t[0] && s[k + 1] == t[1] && s[k + 2] == t[2] && s[k + 3] == t[3];
  }

  /** How long it is, and how it ends after its `g` whole groups. */
  lemma {:induction false} Base64Ends(bs: seq<Byte>, g: nat)
    requires 3 * g <= |bs| <= 3 * g + 2
    ensures |Base64(bs)| == if |bs| == 3 * g then 4 * g else 4 * g + 4
    ensures |bs| != 3 * g ==> CarriesTail(Base64(bs), 4 * g, bs[3 * g..])
  {
    AfterGroups(bs, g);
    LastGroup(Base64(bs), 4 * g, bs[3 * g..]);
  }

  lemma {:induction false} LastGroup(s: string, k: nat, tail: seq<Byte>)
    requires |tail| <= 2 && |s| == k + |Base64(tail)| && s[k..] == Base64(tail)
    ensures |s| == if tail == [] then k else k + 4
    ensures tail != [] ==> CarriesTail(s, k, tail)
  {
    if tail != [] {
      ShortGroup(tail);
      TailInside(s, Base64(tail), k, tail);
    }
  }

  lemma TailInside(s: string, t: string, k: nat, tail: seq<Byte>)
    requires |s| == k + 4 && s[k..] == t && |t| == 4 && 1 <= |tail| <= 2 && CarriesTail(t, 0, tail)
    ensures CarriesTail(s, k, tail)
  {
    assert s[k] == t[0] && s[k + 1] == t[1] && s[k + 2] == t[2] && s[k + 3] == t[3];
  }

  lemma {:induction false} ShortGroup(bs: seq<Byte>)
    requires 1 <= |bs| <= 2
    ensures |Base64(bs)| == 4 && CarriesTail(Base64(bs), 0, bs)
  {
    var x: Byte, y: Byte := bs[0], if |bs| == 2 then bs[1] else 0;
    GroupBits(x, y, 0);
    IndexInverts(x / 4);
    IndexInverts(x % 4 * 16 + y / 16);
    IndexInverts(y % 16 * 4);
  }

  lemma {:induction false} FirstGroup(bs: seq<Byte>)
    requires |bs| > 2
    ensures |Base64(bs)| == 4 + |Base64(bs[3..])| && CarriesGroup(Base64(bs), 0, bs[0], bs[1], bs[2])
    ensures Base64(bs)[4..] == Base64(bs[3..])
  {
    var x, y, z := bs[0], bs[1], bs[2];
    Base64Three(bs);
    GroupBits(x, y, z);
    IndexInverts(x / 4);
    IndexInverts(x % 4 * 16 + y / 16);
    IndexInverts(y % 16 * 4 + z / 64);
    IndexInverts(z % 64);
  }

  /** Base16, byte by byte. */
  lemma {:induction false} HexMeans(bs: seq<Byte>)
    ensures |Hex(bs)| == 2 * |bs|
    ensures forall i :: 0 <= i < |bs| ==>
      && Hex(bs)[2 * i] == "0123456789abcdef"[bs[i] / 16]
      && Hex(bs)[2 * i + 1] == "0123456789abcdef"[bs[i] % 16]
  {
    if bs != [] {
      var x, rest := bs[0], bs[1..];
      HexCons(bs);
      HexMeans(rest);
      HexAlphabet(x / 16);
      HexAlphabet(x % 16);
      forall i | 0 <= i < |bs|
        ensures Hex(bs)[2 * i] == "0123456789abcdef"[bs[i] / 16]
        ensures Hex(bs)[2 * i + 1] == "0123456789abcdef"[bs[i] % 16]
      {
        if i > 0 {
          assert bs[i] == rest[i - 1] && Hex(bs)[2 * i] == Hex(rest)[2 * (i - 1)];
          assert Hex(bs)[2 * i + 1] == Hex(rest)[2 * (i - 1) + 1];
        }
      }
    }
  }
}
