/**
 How references into shares are written inside object ids: one reference as three percent-escaped
 fields, several as a packed list behind a prefix.
 */
module ShareRefs {
  import opened Wrappers
  import Base64Hex

  /** A Go string: each character is one byte. */
  type ByteString = s: string | forall i :: 0 <= i < |s| ==> s[i] <= '\U{FF}'

  datatype ShareRef = ShareRef(linkID: ByteString, password: ByteString, nodeID: ByteString)

  const PREFIX: ByteString := "shares:"

  // ---------------------------------------------------------------- percent escapes

  /** Bytes `url.PathEscape` leaves alone: unreserved ones and those a path segment may hold. */
  predicate Kept(c: char) {
    'a' <= c <= 'z' || 'A' <= c <= 'Z' || '0' <= c <= '9' || c in "-_.~$&+=:@"
  }

  function HexDigit(n: int): char
    requires 0 <= n < 16
  {
    if n < 10 then '0' + n as char else 'A' + (n - 10) as char
  }

  /** The value of a hexadecimal digit of either case, or -1. */
  function HexValue(c: char): (n: int)
    ensures -1 <= n < 16
  {
    if '0' <= c <= '9' then c as int - '0' as int
    else if 'a' <= c <= 'f' then c as int - 'a' as int + 10
    else if 'A' <= c <= 'F' then c as int - 'A' as int + 10
    else -1
  }

  /** Percent-encoding, section 2.1 of RFC 3986. */
  function Escape(s: ByteString): ByteString
    decreases |s|
  {
    if s == "" then ""
    else
      var rest := Escape(s[1..]);
      if Kept(s[0]) then [s[0]] + rest
      else ['%', HexDigit(s[0] as int / 16), HexDigit(s[0] as int % 16)] + rest
  }

  function Unescape(s: ByteString): Option<ByteString>
    decreases |s|
  {
    if s == "" then Some("")
    else if s[0] != '%' then Prepend(s[0], Unescape(s[1..]))
    else if |s| < 3 || HexValue(s[1]) < 0 || HexValue(s[2]) < 0 then None
    else Prepend((HexValue(s[1]) * 16 + HexValue(s[2])) as char, Unescape(s[3..]))
  }

  function Prepend(c: char, rest: Option<ByteString>): Option<ByteString>
    requires c <= '\U{FF}'
  {
    match rest
    case None => None
    case Some(r) => Some([c] + r)
  }

  /** One byte, kept or escaped. */
  lemma {:induction false} EscapedByte(c: char, rest: ByteString)
    requires c <= '\U{FF}'
    ensures Kept(c) ==> Unescape([c] + rest) == Prepend(c, Unescape(rest))
    ensures Unescape(['%', HexDigit(c as int / 16), HexDigit(c as int % 16)] + rest) == Prepend(c, Unescape(rest))
  {
    var a, b := c as int / 16, c as int % 16;
    assert HexValue(HexDigit(a)) == a && HexValue(HexDigit(b)) == b;
    assert ([c] + rest)[1..] == rest;
    assert (['%', HexDigit(a), HexDigit(b)] + rest)[3..] == rest;
  }

  lemma {:induction false} UnescapeEscape(s: ByteString)
    ensures Unescape(Escape(s)) == Some(s)
    ensures '|' !in Escape(s) && (s != "" ==> Escape(s) != "")
    decreases |s|
  {
    if s != "" {
      UnescapeEscape(s[1..]);
      EscapedByte(s[0], Escape(s[1..]));
      assert s == [s[0]] + s[1..];
    }
  }

  /** Which bytes stay, and what becomes of the others. */
  lemma EscapedOne(c: char)
    requires c <= '\U{FF}'
    ensures Kept(c) <==> ('a' <= c <= 'z' || 'A' <= c <= 'Z' || '0' <= c <= '9' || c in "-_.~$&+=:@")
    ensures Escape([c]) ==
      if Kept(c) then [c] else ['%', "0123456789ABCDEF"[c as int / 16], "0123456789ABCDEF"[c as int % 16]]
  {
    UpperDigit(c as int / 16);
    UpperDigit(c as int % 16);
    assert [c][1..] == "" && Escape("") == "";
  }

  lemma UpperDigit(n: int)
    requires 0 <= n < 16
    ensures HexDigit(n) == "0123456789ABCDEF"[n]
  {
  }

  /** Bytes are escaped one by one. */
  lemma {:induction false} EscapeJoins(a: ByteString, b: ByteString)
    ensures Escape(a + b) == Escape(a) + Escape(b)
    decreases |a|
  {
    if a == "" {
      assert a + b == b;
    } else {
      assert (a + b)[1..] == a[1..] + b;
      EscapeJoins(a[1..], b);
      EscapeRegroups(a + b, a, Escape(b));
    }
  }

  lemma {:induction false} EscapeRegroups(whole: ByteString, a: ByteString, tail: ByteString)
    requires a != "" && whole != "" && whole[0] == a[0] && Escape(whole[1..]) == Escape(a[1..]) + tail
    ensures Escape(whole) == Escape(a) + tail
  {
    FirstEscaped(whole);
    FirstEscaped(a);
    Assoc(Escape([a[0]]), Escape(a[1..]), tail);
  }

  lemma Assoc(x: string, y: string, z: string)
    ensures x + (y + z) == x + y + z
  {
  }

  lemma {:induction false} FirstEscaped(s: ByteString)
    requires s != ""
    ensures Escape(s) == Escape([s[0]]) + Escape(s[1..])
  {
    assert [s[0]][1..] == "" && Escape("") == "";
  }

  /** Reading one escape or one other byte: digits of either case, and nothing for a malformed escape. */
  lemma {:induction false} UnescapedOne(s: ByteString, a: int, b: int)
    requires s != "" && 0 <= a < 16 && 0 <= b < 16
    ensures s[0] != '%' ==> Unescape(s) == Prepend(s[0], Unescape(s[1..]))
    ensures s[0] == '%' && (|s| < 3 || !IsHex(s[1]) || !IsHex(s[2])) ==> Unescape(s) == None
    ensures s[0] == '%' && |s| >= 3 && ReadsAs(s[1], a) && ReadsAs(s[2], b) ==>
      Unescape(s) == Prepend((16 * a + b) as char, Unescape(s[3..]))
  {
    if |s| >= 3 {
      DigitRead(s[1], a);
      DigitRead(s[2], b);
    }
  }

  lemma DigitRead(c: char, n: int)
    requires 0 <= n < 16
    ensures HexValue(c) >= 0 <==> IsHex(c)
    ensures ReadsAs(c, n) ==> HexValue(c) == n
  {
  }

  predicate IsHex(c: char) {
    '0' <= c <= '9' || 'a' <= c <= 'f' || 'A' <= c <= 'F'
  }

  /** A digit of either case and its value. */
  predicate ReadsAs(c: char, n: int)
    requires 0 <= n < 16
  {
    c == "0123456789abcdef"[n] || c == "0123456789ABCDEF"[n]
  }

  // ---------------------------------------------------------------- one reference

  /** Splits at the first separator. */
  function CutAt(s: ByteString, sep: char): (r: Option<(ByteString, ByteString)>)
    ensures r.Some? ==> |r.value.1| < |s|
    decreases |s|
  {
    if s == "" then None
    else if s[0] == sep then Some(("", s[1..]))
    else
      match CutAt(s[1..], sep)
      case None => None
      case Some((a, b)) => Some(([s[0]] + a, b))
  }

  lemma {:induction false} CutAtJoin(a: ByteString, b: ByteString, sep: char)
    requires sep <= '\U{FF}' && sep !in a
    ensures CutAt(a + [sep] + b, sep) == Some((a, b))
    decreases |a|
  {
    if a == "" {
      assert (a + [sep] + b)[1..] == b;
    } else {
      CutAtJoin(a[1..], b, sep);
      assert a == [a[0]] + a[1..] && (a + [sep] + b)[0] == a[0];
      assert (a + [sep] + b)[1..] == a[1..] + [sep] + b;
    }
  }

  function EncodeRef(r: ShareRef): ByteString {
    Escape(r.linkID) + "|" + (Escape(r.password) + "|" + Escape(r.nodeID))
  }

  function DecodeRef(id: ByteString): Option<ShareRef> {
    match CutAt(id, '|')
    case None => None
    case Some((a, rest)) =>
      match CutAt(rest, '|')
      case None => None
      case Some((b, c)) =>
        match (Unescape(a), Unescape(b), Unescape(c))
        case (Some(linkID), Some(password), Some(nodeID)) =>
          if linkID == "" then None else Some(ShareRef(linkID, password, nodeID))
        case _ => None
  }

  /** A reference survives its own encoding exactly when it names a share. */
  lemma RefRoundTrip(r: ShareRef)
    ensures DecodeRef(EncodeRef(r)) == if r.linkID == "" then None else Some(r)
  {
    UnescapeEscape(r.linkID);
    UnescapeEscape(r.password);
    UnescapeEscape(r.nodeID);
    CutAtJoin(Escape(r.linkID), Escape(r.password) + "|" + Escape(r.nodeID), '|');
    CutAtJoin(Escape(r.password), Escape(r.nodeID), '|');
    assert EncodeRef(r) == Escape(r.linkID) + "|" + (Escape(r.password) + "|" + Escape(r.nodeID));
  }

  /** An id of three parts is the share's link, the password and the node, in that order; the link is never empty. */
  lemma {:induction false} DecodeRefMeans(link: ByteString, password: ByteString, node: ByteString)
    requires '|' !in link && '|' !in password
    ensures var (a, b, c) := (Unescape(link), Unescape(password), Unescape(node));
      DecodeRef(link + "|" + password + "|" + node) ==
        if a.Some? && b.Some? && c.Some? && a != Some("") then Some(ShareRef(a.value, b.value, c.value)) else None
  {
    var id := link + "|" + password + "|" + node;
    assert id == link + ['|'] + (password + ['|'] + node);
    CutAtJoin(link, password + ['|'] + node, '|');
    CutAtJoin(password, node, '|');
  }

  /** An id with fewer than two bars is refused. */
  lemma {:induction false} TooFewParts(a: ByteString, b: ByteString)
    requires '|' !in a && '|' !in b
    ensures DecodeRef(a) == None && DecodeRef(a + "|" + b) == None
  {
    NoCut(a, '|');
    NoCut(b, '|');
    CutAtJoin(a, b, '|');
    assert a + "|" + b == a + ['|'] + b;
  }

  lemma {:induction false} NoCut(s: ByteString, sep: char)
    requires sep !in s
    ensures CutAt(s, sep) == None
    decreases |s|
  {
    if s != "" {
      NoCut(s[1..], sep);
    }
  }

  /** Fields that need no escape are written as they are. */
  lemma {:induction false} PlainRef(r: ShareRef)
    requires forall c :: c in r.linkID + r.password + r.nodeID ==> Kept(c)
    ensures EncodeRef(r) == r.linkID + "|" + r.password + "|" + r.nodeID
  {
    PlainField(r.linkID);
    PlainField(r.password);
    PlainField(r.nodeID);
  }

  lemma {:induction false} PlainField(s: ByteString)
    requires forall c :: c in s ==> Kept(c)
    ensures Escape(s) == s
    decreases |s|
  {
    if s != "" {
      assert s[0] in s && forall c :: c in s[1..] ==> c in s;
      PlainField(s[1..]);
      assert s == [s[0]] + s[1..];
    }
  }

  // ---------------------------------------------------------------- unpadded URL-safe base64

  type Sextet = v: int | 0 <= v < 64

  /** The URL-safe alphabet, section 5 of RFC 4648. */
  function UrlChar(v: Sextet): char {
    if v == 62 then '-' else if v == 63 then '_' else Base64Hex.B64Char(v)
  }

  /** The position of a character in that alphabet, or -1. */
  function UrlIndex(c: char): (v: int)
    ensures -1 <= v < 64
  {
    if c == '-' then 62
    else if c == '_' then 63
    else if c == '+' || c == '/' then -1
    else Base64Hex.Index(c)
  }

  lemma UrlIndexInverts(v: Sextet)
    ensures UrlIndex(UrlChar(v)) == v && UrlChar(v) != '|' && UrlChar(v) <= '\U{FF}'
  {
    Base64Hex.IndexInverts(v);
  }

  /** Base64 of the bytes, without the padding. */
  function Pack64(s: ByteString): ByteString
    decreases |s|
  {
    if s == "" then ""
    else
      var x := s[0] as int;
      if |s| == 1 then [UrlChar(x / 4), UrlChar(x % 4 * 16)]
      else
        var y := s[1] as int;
        if |s| == 2 then [UrlChar(x / 4), UrlChar(x % 4 * 16 + y / 16), UrlChar(y % 16 * 4)]
        else
          var z := s[2] as int;
          Quad(x, y, z) + Pack64(s[3..])
  }

  function Quad(x: int, y: int, z: int): ByteString
    requires 0 <= x < 256 && 0 <= y < 256 && 0 <= z < 256
  {
    [UrlChar(x / 4), UrlChar(x % 4 * 16 + y / 16), UrlChar(y % 16 * 4 + z / 64), UrlChar(z % 64)]
  }

  /** Line breaks are skipped wherever they stand. */
  function NoBreaks(s: ByteString): ByteString {
    if s == "" then ""
    else if s[0] == '\n' || s[0] == '\r' then NoBreaks(s[1..])
    else [s[0]] + NoBreaks(s[1..])
  }

  /** Reads groups of four digits, the last of which may be two or three; bits left over are dropped. */
  function Groups(s: ByteString): Option<ByteString>
    decreases |s|
  {
    if s == "" then Some("")
    else if |s| == 1 || UrlIndex(s[0]) < 0 || UrlIndex(s[1]) < 0 then None
    else
      var a, b := UrlIndex(s[0]), UrlIndex(s[1]);
      var x := (a * 4 + b / 16) as char;
      if |s| == 2 then Some([x])
      else if UrlIndex(s[2]) < 0 then None
      else
        var c := UrlIndex(s[2]);
        var y := (b % 16 * 16 + c / 4) as char;
        if |s| == 3 then Some([x, y])
        else if UrlIndex(s[3]) < 0 then None
        else
          var z := (c % 4 * 64 + UrlIndex(s[3])) as char;
          Prepend(x, Prepend(y, Prepend(z, Groups(s[4..]))))
  }

  function Unpack64(s: ByteString): Option<ByteString> {
    Groups(NoBreaks(s))
  }

  /** The digits of three bytes give the bytes back. */
  lemma Regroup(x: int, y: int, z: int)
    requires 0 <= x < 256 && 0 <= y < 256 && 0 <= z < 256
    ensures x / 4 * 4 + (x % 4 * 16 + y / 16) / 16 == x
    ensures (x % 4 * 16 + y / 16) % 16 * 16 + (y % 16 * 4 + z / 64) / 4 == y
    ensures (y % 16 * 4 + z / 64) % 4 * 64 + z % 64 == z
  {
  }

  lemma {:induction false} GroupsOfPack(s: ByteString)
    ensures Groups(Pack64(s)) == Some(s)
    decreases |s|
  {
    if |s| == 1 {
      assert s == [s[0]];
      TailOne(s[0]);
    } else if |s| == 2 {
      assert s == [s[0], s[1]];
      TailTwo(s[0], s[1]);
    } else if |s| > 2 {
      FullGroup(s[0], s[1], s[2], Pack64(s[3..]));
      GroupsOfPack(s[3..]);
      ThreeAndRest(s);
    }
  }

  lemma ThreeAndRest(s: ByteString)
    requires |s| > 2
    ensures Prepend(s[0], Prepend(s[1], Prepend(s[2], Some(s[3..])))) == Some(s)
  {
    assert s == [s[0]] + ([s[1]] + ([s[2]] + s[3..]));
  }

  lemma TailOne(p: char)
    requires p <= '\U{FF}'
    ensures Groups(Pack64([p])) == Some([p])
  {
    var x := p as int;
    UrlIndexInverts(x / 4);
    UrlIndexInverts(x % 4 * 16);
    Regroup(x, 0, 0);
  }

  lemma TailTwo(p: char, q: char)
    requires p <= '\U{FF}' && q <= '\U{FF}'
    ensures Groups(Pack64([p, q])) == Some([p, q])
  {
    var x, y := p as int, q as int;
    UrlIndexInverts(x / 4);
    UrlIndexInverts(x % 4 * 16 + y / 16);
    UrlIndexInverts(y % 16 * 4);
    Regroup(x, y, 0);
  }

  /** A text that starts with the digits of three bytes. */
  lemma {:induction false} FourDigits(s: ByteString, x: int, y: int, z: int)
    requires 0 <= x < 256 && 0 <= y < 256 && 0 <= z < 256 && |s| >= 4
    requires UrlIndex(s[0]) == x / 4 && UrlIndex(s[1]) == x % 4 * 16 + y / 16
    requires UrlIndex(s[2]) == y % 16 * 4 + z / 64 && UrlIndex(s[3]) == z % 64
    ensures Groups(s) == Prepend(x as char, Prepend(y as char, Prepend(z as char, Groups(s[4..]))))
  {
    Regroup(x, y, z);
  }

  lemma {:induction false} FullGroup(p: char, q: char, r: char, rest: ByteString)
    requires p <= '\U{FF}' && q <= '\U{FF}' && r <= '\U{FF}'
    ensures Groups(Quad(p as int, q as int, r as int) + rest) == Prepend(p, Prepend(q, Prepend(r, Groups(rest))))
  {
    var x, y, z := p as int, q as int, r as int;
    var s := Quad(x, y, z) + rest;
    UrlIndexInverts(x / 4);
    UrlIndexInverts(x % 4 * 16 + y / 16);
    UrlIndexInverts(y % 16 * 4 + z / 64);
    UrlIndexInverts(z % 64);
    assert s[4..] == rest && s[0] == UrlChar(x / 4) && s[1] == UrlChar(x % 4 * 16 + y / 16);
    assert s[2] == UrlChar(y % 16 * 4 + z / 64) && s[3] == UrlChar(z % 64);
    FourDigits(s, x, y, z);
  }

  /** Nothing that is packed holds a line break. */
  lemma {:induction false} NoBreaksInPack(s: ByteString)
    ensures NoBreaks(Pack64(s)) == Pack64(s)
  {
    DigitsOnly(s);
    NothingToSkip(Pack64(s));
  }

  lemma {:induction false} DigitsOnly(s: ByteString)
    ensures forall i :: 0 <= i < |Pack64(s)| ==> Pack64(s)[i] != '\n' && Pack64(s)[i] != '\r'
    decreases |s|
  {
    if |s| > 2 {
      DigitsOnly(s[3..]);
    }
  }

  lemma {:induction false} NothingToSkip(s: ByteString)
    requires forall i :: 0 <= i < |s| ==> s[i] != '\n' && s[i] != '\r'
    ensures NoBreaks(s) == s
  {
    if s != "" {
      NothingToSkip(s[1..]);
      assert s == [s[0]] + s[1..];
    }
  }

  lemma {:induction false} Pack64RoundTrip(s: ByteString)
    ensures Unpack64(Pack64(s)) == Some(s)
  {
    NoBreaksInPack(s);
    GroupsOfPack(s);
  }

  function Bytes(s: ByteString): seq<Base64Hex.Byte> {
    seq(|s|, i requires 0 <= i < |s| => s[i] as int)
  }

  /** Standard base64 made safe for URLs: two characters are replaced and the padding is dropped. */
  function UrlSafe(t: string): string {
    if t == "" then ""
    else if t[0] == '=' then UrlSafe(t[1..])
    else [if t[0] == '+' then '-' else if t[0] == '/' then '_' else t[0]] + UrlSafe(t[1..])
  }

  lemma {:induction false} UrlSafeDigit(v: Sextet, rest: string)
    ensures UrlSafe([Base64Hex.B64Char(v)] + rest) == [UrlChar(v)] + UrlSafe(rest)
  {
    assert ([Base64Hex.B64Char(v)] + rest)[1..] == rest;
  }

  lemma {:induction false} UrlSafeQuad(a: Sextet, b: Sextet, c: Sextet, d: Sextet, rest: string)
    ensures UrlSafe([Base64Hex.B64Char(a), Base64Hex.B64Char(b), Base64Hex.B64Char(c), Base64Hex.B64Char(d)] + rest) ==
      [UrlChar(a), UrlChar(b), UrlChar(c), UrlChar(d)] + UrlSafe(rest)
  {
    var t1 := [Base64Hex.B64Char(d)] + rest;
    var t2 := [Base64Hex.B64Char(c)] + t1;
    var t3 := [Base64Hex.B64Char(b)] + t2;
    assert [Base64Hex.B64Char(a), Base64Hex.B64Char(b), Base64Hex.B64Char(c), Base64Hex.B64Char(d)] + rest ==
      [Base64Hex.B64Char(a)] + t3;
    UrlSafeDigit(a, t3);
    UrlSafeDigit(b, t2);
    UrlSafeDigit(c, t1);
    UrlSafeDigit(d, rest);
  }

  lemma {:induction false} UrlSafePads()
    ensures UrlSafe("=") == "" && UrlSafe("==") == ""
  {
    assert "="[1..] == "" && "=="[1..] == "=";
  }

  /** Packing is standard base64 made safe for URLs. */
  lemma {:induction false} PackIsBase64(s: ByteString)
    ensures Pack64(s) == UrlSafe(Base64Hex.Base64(Bytes(s)))
    decreases |s|
  {
    if |s| == 1 {
      PackOne(s);
    } else if |s| == 2 {
      PackTwo(s);
    } else if |s| > 2 {
      PackIsBase64(s[3..]);
      PackThree(s);
    }
  }

  lemma {:induction false} PackOne(s: ByteString)
    requires |s| == 1
    ensures Pack64(s) == UrlSafe(Base64Hex.Base64(Bytes(s)))
  {
    var x := s[0] as int;
    var b: Sextet := x % 4 * 16;
    UrlSafePads();
    UrlSafeDigit(b, "==");
    UrlSafeDigit(x / 4, [Base64Hex.B64Char(b)] + "==");
    assert Base64Hex.Base64(Bytes(s)) == [Base64Hex.B64Char(x / 4)] + ([Base64Hex.B64Char(b)] + "==");
  }

  lemma {:induction false} PackTwo(s: ByteString)
    requires |s| == 2
    ensures Pack64(s) == UrlSafe(Base64Hex.Base64(Bytes(s)))
  {
    var x, y := s[0] as int, s[1] as int;
    var b: Sextet, c: Sextet := x % 4 * 16 + y / 16, y % 16 * 4;
    UrlSafePads();
    UrlSafeDigit(c, "=");
    UrlSafeDigit(b, [Base64Hex.B64Char(c)] + "=");
    UrlSafeDigit(x / 4, [Base64Hex.B64Char(b)] + ([Base64Hex.B64Char(c)] + "="));
    assert Base64Hex.Base64(Bytes(s)) ==
      [Base64Hex.B64Char(x / 4)] + ([Base64Hex.B64Char(b)] + ([Base64Hex.B64Char(c)] + "="));
  }

  lemma {:induction false} PackThree(s: ByteString)
    requires |s| > 2 && Pack64(s[3..]) == UrlSafe(Base64Hex.Base64(Bytes(s[3..])))
    ensures Pack64(s) == UrlSafe(Base64Hex.Base64(Bytes(s)))
  {
    var x, y, z := s[0] as int, s[1] as int, s[2] as int;
    assert Bytes(s)[3..] == Bytes(s[3..]);
    Base64Hex.Base64Three(Bytes(s));
    UrlSafeQuad(x / 4, x % 4 * 16 + y / 16, y % 16 * 4 + z / 64, z % 64, Base64Hex.Base64(Bytes(s[3..])));
    assert Pack64(s) == Quad(x, y, z) + Pack64(s[3..]);
  }

  /** What any group of digits is read as, whoever wrote it; bits left over at the end may be anything. */
  lemma {:induction false} GroupsMean(s: ByteString, x: char, y: char, z: char)
    requires |s| >= 2 && UrlIndex(s[0]) >= 0 && UrlIndex(s[1]) >= 0
    requires x <= '\U{FF}' && y <= '\U{FF}' && z <= '\U{FF}'
    ensures var a, b := UrlIndex(s[0]), UrlIndex(s[1]);
      && (|s| == 2 && (a * 64 + b) / 16 == x as int ==> Groups(s) == Some([x]))
      && (|s| == 3 && UrlIndex(s[2]) >= 0 && (a * 4096 + b * 64 + UrlIndex(s[2])) / 4 == x as int * 256 + y as int ==>
            Groups(s) == Some([x, y]))
      && (|s| >= 4 && UrlIndex(s[2]) >= 0 && UrlIndex(s[3]) >= 0
          && a * 262144 + b * 4096 + UrlIndex(s[2]) * 64 + UrlIndex(s[3])
             == x as int * 65536 + y as int * 256 + z as int ==>
            Groups(s) == Prepend(x, Prepend(y, Prepend(z, Groups(s[4..])))))
  {
    var a, b := UrlIndex(s[0]), UrlIndex(s[1]);
    if |s| == 2 {
      assert (a * 64 + b) / 16 == a * 4 + b / 16;
    } else if UrlIndex(s[2]) >= 0 {
      TakenApart(a, b, UrlIndex(s[2]), if |s| >= 4 then UrlIndex(s[3]) else 0, x as int, y as int, z as int);
    }
  }

  lemma TakenApart(a: int, b: int, c: int, d: int, x: int, y: int, z: int)
    requires 0 <= a < 64 && 0 <= b < 64 && 0 <= c < 64 && -1 <= d < 64
    requires 0 <= x < 256 && 0 <= y < 256 && 0 <= z < 256
    ensures (a * 4096 + b * 64 + c) / 4 == x * 256 + y ==> x == a * 4 + b / 16 && y == b % 16 * 16 + c / 4
    ensures d >= 0 && a * 262144 + b * 4096 + c * 64 + d == x * 65536 + y * 256 + z ==>
      x == a * 4 + b / 16 && y == b % 16 * 16 + c / 4 && z == c % 4 * 64 + d
  {
  }

  /** The alphabet of section 5 of RFC 4648, written out from where it differs. */
  lemma UrlAlphabet(v: Sextet)
    ensures v < 62 ==> UrlChar(v) == Base64Hex.B64Char(v)
    ensures v >= 62 ==> UrlChar(v) == "-_"[v - 62]
    ensures UrlIndex(UrlChar(v)) == v
    ensures forall c :: (forall u: Sextet :: UrlChar(u) != c) ==> UrlIndex(c) == -1
  {
    UrlIndexInverts(v);
    forall c | UrlIndex(c) >= 0 ensures UrlChar(UrlIndex(c)) == c {
    }
  }

  /** A text with a bar in it is not base64. */
  lemma {:induction false} BarIsForeign(s: ByteString)
    requires '|' in s
    ensures Unpack64(s).None?
  {
    BarStays(s);
    NoGroupWithBar(NoBreaks(s));
  }

  lemma {:induction false} BarStays(s: ByteString)
    requires '|' in s
    ensures '|' in NoBreaks(s)
  {
    if s[0] != '|' {
      assert s == [s[0]] + s[1..];
      BarStays(s[1..]);
    }
  }

  lemma {:induction false} NoGroupWithBar(s: ByteString)
    requires '|' in s
    ensures Groups(s).None?
    decreases |s|
  {
    assert UrlIndex('|') == -1;
    if |s| > 4 && '|' !in s[..4] {
      assert s == s[..4] + s[4..];
      NoGroupWithBar(s[4..]);
    }
  }

  // ---------------------------------------------------------------- lists of references

  /**
   JSON, left unspecified: how a list of references is written, and what is read back. JSON replaces what is
   not valid text, so a list is only given back when every reference in it is `clean`.
   */
  datatype Codec = Codec(
    marshal: seq<ShareRef> -> ByteString,
    unmarshal: ByteString -> Option<seq<ShareRef>>,
    clean: ShareRef -> bool)

  /** Clean lists come back from JSON. */
  ghost predicate Faithful(c: Codec) {
    forall refs :: refs != [] && (forall r :: r in refs ==> c.clean(r)) ==> c.unmarshal(c.marshal(refs)) == Some(refs)
  }

  function EncodeRefs(refs: seq<ShareRef>, c: Codec): ByteString {
    if |refs| == 1 then EncodeRef(refs[0]) else PREFIX + Pack64(c.marshal(refs))
  }

  function DecodeRefs(id: ByteString, c: Codec): Option<seq<ShareRef>> {
    if !(PREFIX <= id) then
      match DecodeRef(id)
      case None => None
      case Some(r) => Some([r])
    else
      match Unpack64(id[|PREFIX|..])
      case None => None
      case Some(data) =>
        match c.unmarshal(data)
        case None => None
        case Some(refs) => if refs == [] then None else Some(refs)
  }

  /** A link id whose references can be read back on their own. */
  predicate GoodLink(linkID: ByteString) {
    linkID != "" && !("shares:" <= linkID)
  }

  lemma {:induction false} EscapeKeepsPrefix(p: ByteString, s: ByteString, tail: ByteString)
    requires forall i :: 0 <= i < |p| ==> Kept(p[i])
    ensures p <= Escape(s) + "|" + tail <==> p <= s
    decreases |p|
  {
    if p != "" && s != "" {
      var whole := Escape(s) + "|" + tail;
      if Kept(s[0]) {
        EscapeKeepsPrefix(p[1..], s[1..], tail);
        assert whole[0] == s[0] && whole[1..] == Escape(s[1..]) + "|" + tail;
        PrefixCons(p, s);
        PrefixCons(p, whole);
      } else {
        assert whole[0] == '%';
        PrefixCons(p, s);
        PrefixCons(p, whole);
      }
    } else if p != "" {
      assert (Escape(s) + "|" + tail)[0] == '|';
    }
  }

  lemma PrefixCons(p: string, s: string)
    requires p != "" && s != ""
    ensures p <= s <==> p[0] == s[0] && p[1..] <= s[1..]
  {
    if p[0] == s[0] && p[1..] <= s[1..] {
      assert p == [p[0]] + p[1..] && s == [s[0]] + s[1..];
    }
  }

  lemma BarAfterPrefix(link: ByteString, tail: ByteString)
    requires PREFIX <= link + "|" + tail
    ensures '|' in (link + "|" + tail)[|PREFIX|..]
  {
    var id, at := link + "|" + tail, |link|;
    assert forall i :: 0 <= i < |PREFIX| ==> id[i] == PREFIX[i] && PREFIX[i] != '|';
    assert id[at] == '|';
    assert id[|PREFIX|..][at - |PREFIX|] == '|';
  }

  /** One reference comes back from its id exactly when its link id is good. */
  lemma OneRefRoundTrip(r: ShareRef, c: Codec)
    ensures DecodeRefs(EncodeRefs([r], c), c) == if GoodLink(r.linkID) then Some([r]) else None
  {
    var tail := Escape(r.password) + "|" + Escape(r.nodeID);
    var id := EncodeRef(r);
    assert PREFIX <= id <==> PREFIX <= r.linkID by {
      EscapeKeepsPrefix(PREFIX, r.linkID, tail);
    }
    RefRoundTrip(r);
    if PREFIX <= id {
      BarAfterPrefix(Escape(r.linkID), tail);
      BarIsForeign(id[|PREFIX|..]);
    }
  }

  /** So does every other non-empty list of clean references. */
  lemma RefsRoundTrip(refs: seq<ShareRef>, c: Codec)
    requires Faithful(c) && refs != []
    requires if |refs| == 1 then GoodLink(refs[0].linkID) else forall r :: r in refs ==> c.clean(r)
    ensures DecodeRefs(EncodeRefs(refs, c), c) == Some(refs)
  {
    if |refs| == 1 {
      OneRefRoundTrip(refs[0], c);
      assert refs == [refs[0]];
    } else {
      var data := c.marshal(refs);
      assert (PREFIX + Pack64(data))[|PREFIX|..] == Pack64(data);
      Pack64RoundTrip(data);
    }
  }

  // ---------------------------------------------------------------- a codec of that kind

  /** A list of references, each followed by a comma. */
  function WithCommas(refs: seq<ShareRef>): ByteString {
    if refs == [] then "" else EncodeRef(refs[0]) + "," + WithCommas(refs[1..])
  }

  function FromCommas(s: ByteString): Option<seq<ShareRef>>
    decreases |s|
  {
    if s == "" then Some([])
    else
      match CutAt(s, ',')
      case None => None
      case Some((a, rest)) =>
        match (DecodeRef(a), FromCommas(rest))
        case (Some(r), Some(refs)) => Some([r] + refs)
        case _ => None
  }

  lemma {:induction false} NoComma(s: ByteString)
    ensures ',' !in Escape(s)
    decreases |s|
  {
    if s != "" {
      NoComma(s[1..]);
    }
  }

  lemma {:induction false} CommasRoundTrip(refs: seq<ShareRef>)
    requires forall r :: r in refs ==> r.linkID != ""
    ensures FromCommas(WithCommas(refs)) == Some(refs)
  {
    if refs != [] {
      var r, rest := refs[0], WithCommas(refs[1..]);
      NoComma(r.linkID);
      NoComma(r.password);
      NoComma(r.nodeID);
      CutAtJoin(EncodeRef(r), rest, ',');
      RefRoundTrip(r);
      CommasRoundTrip(refs[1..]);
      assert refs == [r] + refs[1..];
    }
  }

  /** Some codec gives back every list of references to named shares, so the hypothesis is not empty. */
  lemma FaithfulCodec() returns (c: Codec)
    ensures Faithful(c) && forall r :: c.clean(r) <==> r.linkID != ""
  {
    c := Codec(WithCommas, FromCommas, (r: ShareRef) => r.linkID != "");
    forall refs | refs != [] && (forall r :: r in refs ==> c.clean(r))
      ensures c.unmarshal(c.marshal(refs)) == Some(refs)
    {
      CommasRoundTrip(refs);
    }
  }
}
