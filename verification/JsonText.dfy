/**
 JSON values, and the text forms bytes and ids take inside them: lowercase hex, base64 (section 4 of RFC 4648) and
 canonical UUIDs. Source: backend/app/sync/control_payload.py, prune_payload.py and op_payload.py.
 */
module JsonText {
  import opened Wrappers
  import opened ByteStrings
  import opened Payloads

  /** The field names the two formats use, told apart as symbols, and any other. */
  datatype Field =
    | Seq | AuthorMemberId | AuthorSeq | EnvelopeHash | Compaction | OpId | Targets | MemberId | MemberKind
    | SignPk | SignKeyId | KexPk | KexKeyId | WorkspaceId | RegisteredAtHlc | RootPk | Founder | CreatedAtHlc
    | GrantId | Role | Granter | GrantedAtHlc | RevokeId | Revoker | RevokedAtHlc | FromEpoch | ToEpoch | KeywrapDigest
    | RotatedAtHlc | Type | PrevControlHash | Cert | RootSig | GranterSig | RevokerSig
    | Other(text: string)

  /** A parsed JSON value. `Fraction` stands for every number that is not an integer. */
  datatype Json =
    | Null
    | Bool(truth: bool)
    | Int(number: int)
    | Fraction
    | Text(text: string)
    | Array(items: seq<Json>)
    | Object(fields: map<Field, Json>)
  {
    /** `raw.get(name)` on an object. */
    function Get(name: Field): Json {
      if Object? && name in fields then fields[name] else Null
    }
  }

  // --- Hex ---

  function HexChar(n: nat): (c: char)
    requires n < 16
  {
    if n < 10 then '0' + n as char else 'a' + (n - 10) as char
  }

  /** The value of a lowercase hex digit. */
  function HexValue(c: char): (n: Option<nat>)
    ensures n.Some? ==> n.value < 16
  {
    if '0' <= c <= '9' then Some((c - '0') as nat)
    else if 'a' <= c <= 'f' then Some((c - 'a') as nat + 10)
    else None
  }

  lemma HexDigitsInvert(n: nat, c: char)
    ensures n < 16 ==> HexValue(HexChar(n)) == Some(n)
    ensures HexValue(c).Some? ==> HexChar(HexValue(c).value) == c
  {
  }

  function HexText(b: Bytes): (s: string)
    ensures |s| == 2 * |b|
  {
    if b == [] then "" else [HexChar(b[0] / 16), HexChar(b[0] % 16)] + HexText(b[1..])
  }

  function ParseHex(s: string): (b: Option<Bytes>)
    ensures b.Some? ==> |s| == 2 * |b.value|
  {
    if s == "" then Some([])
    else if |s| == 1 then None
    else
      match (HexValue(s[0]), HexValue(s[1]), ParseHex(s[2..]))
      case (Some(high), Some(low), Some(rest)) => Some([high * 16 + low] + rest)
      case _ => None
  }

  lemma {:induction false} ParseHexOfText(b: Bytes)
    ensures ParseHex(HexText(b)) == Some(b)
  {
    if b != [] {
      ParseHexOfText(b[1..]);
      HexDigitsInvert(b[0] / 16, '0');
      HexDigitsInvert(b[0] % 16, '0');
      assert HexText(b)[2..] == HexText(b[1..]);
      assert b == [b[0] / 16 * 16 + b[0] % 16] + b[1..];
    }
  }

  lemma {:induction false} TextOfParsedHex(s: string)
    requires ParseHex(s).Some?
    ensures HexText(ParseHex(s).value) == s
  {
    if s != "" {
      TextOfParsedHex(s[2..]);
      HexDigitsInvert(0, s[0]);
      HexDigitsInvert(0, s[1]);
      var b := ParseHex(s).value;
      var high, low := HexValue(s[0]).value, HexValue(s[1]).value;
      assert b == [high * 16 + low] + ParseHex(s[2..]).value;
      assert b[0] / 16 == high && b[0] % 16 == low && b[1..] == ParseHex(s[2..]).value;
      assert s == [s[0], s[1]] + s[2..];
    }
  }

  // --- Base64 ---

  type sextet = n: int | 0 <= n < 64

  function Base64Char(n: sextet): char {
    if n < 26 then 'A' + n as char
    else if n < 52 then 'a' + (n - 26) as char
    else if n < 62 then '0' + (n - 52) as char
    else if n == 62 then '+'
    else '/'
  }

  function Base64Value(c: char): Option<sextet> {
    if 'A' <= c <= 'Z' then Some((c - 'A') as nat)
    else if 'a' <= c <= 'z' then Some((c - 'a') as nat + 26)
    else if '0' <= c <= '9' then Some((c - '0') as nat + 52)
    else if c == '+' then Some(62)
    else if c == '/' then Some(63)
    else None
  }

  /** Table 1 of RFC 4648. */
  const BASE64_ALPHABET := "ABCDEFGHIJKLMNOPQRSTUVWXYZ" + "abcdefghijklmnopqrstuvwxyz" + "0123456789" + "+/"

  lemma Base64CharsAreTabled()
    ensures |BASE64_ALPHABET| == 64 && forall n: sextet :: Base64Char(n) == BASE64_ALPHABET[n]
  {
  }

  lemma Base64DigitsInvert(n: sextet)
    ensures Base64Value(Base64Char(n)) == Some(n) && Base64Char(n) != '='
  {
  }

  /** The four sextets of three bytes, and the three bytes of four sextets. */
  function Sextets(x: byte, y: byte, z: byte): (sextet, sextet, sextet, sextet) {
    (x / 4, x % 4 * 16 + y / 16, y % 16 * 4 + z / 64, z % 64)
  }

  function Octets(a: sextet, b: sextet, c: sextet, d: sextet): (byte, byte, byte) {
    (a * 4 + b / 16, b % 16 * 16 + c / 4, c % 4 * 64 + d)
  }

  lemma OctetsOfSextets(x: byte, y: byte, z: byte)
    ensures var (a, b, c, d) := Sextets(x, y, z); Octets(a, b, c, d) == (x, y, z)
  {
    Joined(x % 4, y / 16, 16);
    Joined(y % 16, z / 64, 4);
  }

  lemma Joined(high: nat, low: nat, base: nat)
    requires low < base && base in {4, 16}
    ensures (high * base + low) / base == high && (high * base + low) % base == low
  {
  }

  function Group(x: byte, y: byte, z: byte): (s: string)
    ensures |s| == 4
  {
    var (a, b, c, d) := Sextets(x, y, z);
    [Base64Char(a), Base64Char(b), Base64Char(c), Base64Char(d)]
  }

  /** Three bytes to four characters; the last group is padded with `=`. */
  function Base64Text(b: Bytes): (s: string) {
    if b == [] then ""
    else if |b| == 1 then Group(b[0], 0, 0)[..2] + "=="
    else if |b| == 2 then Group(b[0], b[1], 0)[..3] + "="
    else Group(b[0], b[1], b[2]) + Base64Text(b[3..])
  }

  /** The bytes of a group of four characters, with none to two of them padding. */
  function ParseGroup(s: string): Option<Bytes>
    requires |s| == 4
  {
    match (Base64Value(s[0]), Base64Value(s[1]), Base64Value(s[2]), Base64Value(s[3]))
    case (Some(a), Some(b), Some(c), Some(d)) => var (x, y, z) := Octets(a, b, c, d); Some([x, y, z])
    case (Some(a), Some(b), Some(c), None) =>
      if s[3] == '=' then var (x, y, _) := Octets(a, b, c, 0); Some([x, y]) else None
    case (Some(a), Some(b), None, None) =>
      if s[2] == '=' && s[3] == '=' then var (x, _, _) := Octets(a, b, 0, 0); Some([x]) else None
    case _ => None
  }

  /** The strict decoder. It drops the spare bits of a padded group without looking at them. */
  function ParseBase64(s: string): Option<Bytes> {
    if s == "" then Some([])
    else if |s| < 4 then None
    else
      match (ParseGroup(s[..4]), ParseBase64(s[4..]))
      case (Some(first), Some(rest)) => if |first| == 3 || |s| == 4 then Some(first + rest) else None
      case _ => None
  }

  lemma ParseWholeGroup(x: byte, y: byte, z: byte)
    ensures ParseGroup(Group(x, y, z)) == Some([x, y, z])
  {
    var (a, b, c, d) := Sextets(x, y, z);
    OctetsOfSextets(x, y, z);
    Base64DigitsInvert(a);
    Base64DigitsInvert(b);
    Base64DigitsInvert(c);
    Base64DigitsInvert(d);
  }

  lemma ParsePaddedGroup(x: byte, y: byte)
    ensures ParseGroup(Group(x, 0, 0)[..2] + "==") == Some([x])
    ensures ParseGroup(Group(x, y, 0)[..3] + "=") == Some([x, y])
  {
    ParseShort(x);
    var (a, b, c, d) := Sextets(x, y, 0);
    OctetsOfSextets(x, y, 0);
    Base64DigitsInvert(a);
    Base64DigitsInvert(b);
    Base64DigitsInvert(c);
  }

  lemma ParseShort(x: byte)
    ensures ParseGroup(Group(x, 0, 0)[..2] + "==") == Some([x])
  {
  }

  lemma OneGroup(s: string)
    requires |s| == 4
    ensures ParseBase64(s) == ParseGroup(s)
  {
    hide ParseGroup;
    assert s[..4] == s && s[4..] == "";
    assert forall first: Bytes :: first + [] == first;
  }

  lemma {:induction false} ParseBase64OfText(b: Bytes)
    ensures ParseBase64(Base64Text(b)) == Some(b)
  {
    hide Group, ParseGroup;
    var s := Base64Text(b);
    if |b| == 1 || |b| == 2 {
      ParsePaddedGroup(b[0], if |b| == 2 then b[1] else 0);
      OneGroup(s);
      assert b == if |b| == 1 then [b[0]] else [b[0], b[1]];
    } else if b != [] {
      ParseWholeGroup(b[0], b[1], b[2]);
      ParseBase64OfText(b[3..]);
      assert s[..4] == Group(b[0], b[1], b[2]) && s[4..] == Base64Text(b[3..]);
      assert b == [b[0], b[1], b[2]] + b[3..];
    }
  }

  /** Whether the sextet of a character is a multiple of `n`. */
  predicate SextetDivides(c: char, n: nat)
    requires n > 0
  {
    match Base64Value(c)
    case Some(value) => value % n == 0
    case None => false
  }

  /** The bits of the last sextet that padding makes spare are zero: four before `==`, two before `=`. */
  predicate NoSpareBits(s: string) {
    |s| >= 4 && s[|s| - 1] == '=' ==>
      if s[|s| - 2] == '=' then SextetDivides(s[|s| - 3], 16) else SextetDivides(s[|s| - 2], 4)
  }

  lemma CharOfValue(c: char)
    requires Base64Value(c).Some?
    ensures Base64Char(Base64Value(c).value) == c && c != '='
  {
  }

  lemma SextetsOfOctets(a: sextet, b: sextet, c: sextet, d: sextet)
    ensures var (x, y, z) := Octets(a, b, c, d); Sextets(x, y, z) == (a, b, c, d)
  {
    Joined(a, b / 16, 4);
    Joined(b % 16, c / 4, 16);
    Joined64(c % 4, d);
  }

  lemma Joined64(high: nat, low: nat)
    requires low < 64
    ensures (high * 64 + low) / 64 == high && (high * 64 + low) % 64 == low
  {
  }

  /** Three bytes read from a group are written back as that group. */
  lemma WholeGroupText(s: string)
    requires |s| == 4 && ParseGroup(s).Some? && |ParseGroup(s).value| == 3
    ensures var b := ParseGroup(s).value; Group(b[0], b[1], b[2]) == s
  {
    var a, b, c, d := Base64Value(s[0]).value, Base64Value(s[1]).value, Base64Value(s[2]).value,
      Base64Value(s[3]).value;
    SextetsOfOctets(a, b, c, d);
    CharOfValue(s[0]);
    CharOfValue(s[1]);
    CharOfValue(s[2]);
    CharOfValue(s[3]);
  }

  /** One byte is written with its spare bits zero. */
  lemma OneByteText(s: string)
    requires |s| == 4 && ParseGroup(s).Some? && |ParseGroup(s).value| == 1
    ensures Group(ParseGroup(s).value[0], 0, 0)[..2] + "==" == s <==> SextetDivides(s[1], 16)
    ensures s[2] == '=' == s[3]
  {
    hide Octets, Sextets;
    var a, b := Base64Value(s[0]).value, Base64Value(s[1]).value;
    ClearSpareBits(a, b, 0);
    CharOfValue(s[0]);
    CharOfValue(s[1]);
    Base64DigitsInvert(b / 16 * 16);
    assert Group(ParseGroup(s).value[0], 0, 0)[..2] == [s[0], Base64Char(b / 16 * 16)];
    assert s == [s[0], s[1]] + "==";
  }

  /** What a padded group's bytes are written back as: its sextets with the spare bits cleared. */
  lemma ClearSpareBits(a: sextet, b: sextet, c: sextet)
    ensures Sextets(Octets(a, b, 0, 0).0, 0, 0) == (a, b / 16 * 16, 0, 0)
    ensures Sextets(Octets(a, b, c, 0).0, Octets(a, b, c, 0).1, 0) == (a, b, c / 4 * 4, 0)
    ensures b / 16 * 16 == b <==> b % 16 == 0
    ensures c / 4 * 4 == c <==> c % 4 == 0
  {
    hide Sextets, Octets;
    OneOctet(a, b);
    TwoOctets(a, b, c);
    SextetsOfOctets(a, b / 16 * 16, 0, 0);
    SextetsOfOctets(a, b, c / 4 * 4, 0);
  }

  lemma OneOctet(a: sextet, b: sextet)
    ensures Octets(a, b / 16 * 16, 0, 0) == (Octets(a, b, 0, 0).0, 0, 0)
  {
    Joined(b / 16, 0, 16);
  }

  lemma TwoOctets(a: sextet, b: sextet, c: sextet)
    ensures Octets(a, b, c / 4 * 4, 0) == (Octets(a, b, c, 0).0, Octets(a, b, c, 0).1, 0)
  {
    Joined(c / 4, 0, 4);
  }

  /** So are two. */
  lemma TwoByteText(s: string)
    requires |s| == 4 && ParseGroup(s).Some? && |ParseGroup(s).value| == 2
    ensures Group(ParseGroup(s).value[0], ParseGroup(s).value[1], 0)[..3] + "=" == s <==> SextetDivides(s[2], 4)
    ensures s[3] == '=' != s[2]
  {
    hide Octets, Sextets;
    var a, b, c := Base64Value(s[0]).value, Base64Value(s[1]).value, Base64Value(s[2]).value;
    ClearSpareBits(a, b, c);
    CharOfValue(s[0]);
    CharOfValue(s[1]);
    CharOfValue(s[2]);
    Base64DigitsInvert(c / 4 * 4);
    assert Group(ParseGroup(s).value[0], ParseGroup(s).value[1], 0)[..3] == [s[0], s[1], Base64Char(c / 4 * 4)];
    assert s == [s[0], s[1], s[2]] + "=";
  }

  lemma OneGroupText(s: string)
    requires |s| == 4 && ParseGroup(s).Some?
    ensures Base64Text(ParseGroup(s).value) == s <==> NoSpareBits(s)
  {
    hide Group, SextetDivides;
    var b := ParseGroup(s).value;
    if |b| == 1 {
      OneByteText(s);
    } else if |b| == 2 {
      TwoByteText(s);
    } else {
      WholeGroupText(s);
      CharOfValue(s[3]);
      assert b[3..] == [] && Base64Text(b) == Group(b[0], b[1], b[2]) + "";
    }
  }

  /** A text that parses is the text of its bytes if and only if its spare bits are zero. */
  lemma {:induction false} TextOfParsedBase64(s: string)
    requires ParseBase64(s).Some?
    ensures Base64Text(ParseBase64(s).value) == s <==> NoSpareBits(s)
  {
    hide Group, ParseGroup, SextetDivides;
    if |s| == 4 {
      OneGroup(s);
      OneGroupText(s);
    } else if s != "" {
      var first, rest := ParseGroup(s[..4]).value, ParseBase64(s[4..]).value;
      WholeGroupText(s[..4]);
      TextOfParsedBase64(s[4..]);
      assert (first + rest)[3..] == rest;
      assert s == s[..4] + s[4..];
    }
  }

  /** Base64 is not canonical on the way in: two texts, one byte string. */
  lemma SpareBitsAreIgnored()
    ensures ParseBase64("QQ==") == ParseBase64("QR==") == Some([65])
    ensures NoSpareBits("QQ==") && !NoSpareBits("QR==")
  {
    OneGroup("QQ==");
    OneGroup("QR==");
  }

  // --- Ids and clocks ---

  /** 8-4-4-4-12 lowercase hex digits. */
  function UuidText(u: Uuid): (s: string)
    ensures |s| == 36
  {
    var b := u.bytes;
    HexText(b[..4]) + "-" + HexText(b[4..6]) + "-" + HexText(b[6..8]) + "-" + HexText(b[8..10]) + "-" + HexText(b[10..])
  }

  function ParseUuid(s: string): Option<Uuid> {
    if |s| != 36 || s[8] != '-' || s[13] != '-' || s[18] != '-' || s[23] != '-' then None
    else
      match ParseHex(s[..8] + s[9..13] + s[14..18] + s[19..23] + s[24..])
      case Some(b) => Some(Uuid(b))
      case None => None
  }

  lemma {:induction false} HexTextConcat(a: Bytes, b: Bytes)
    ensures HexText(a + b) == HexText(a) + HexText(b)
  {
    if a == [] {
      assert a + b == b;
    } else {
      assert (a + b)[1..] == a[1..] + b;
      HexTextConcat(a[1..], b);
    }
  }

  lemma ParseUuidOfText(u: Uuid)
    ensures ParseUuid(UuidText(u)) == Some(u)
  {
    hide HexText, ParseHex;
    var b, s := u.bytes, UuidText(u);
    HexTextConcat(b[..4], b[4..6]);
    HexTextConcat(b[..6], b[6..8]);
    HexTextConcat(b[..8], b[8..10]);
    HexTextConcat(b[..10], b[10..]);
    assert b[..4] + b[4..6] == b[..6] && b[..6] + b[6..8] == b[..8] && b[..8] + b[8..10] == b[..10]
      && b[..10] + b[10..] == b;
    assert s[..8] == HexText(b[..4]) && s[9..13] == HexText(b[4..6]) && s[14..18] == HexText(b[6..8]);
    assert s[19..23] == HexText(b[8..10]) && s[24..] == HexText(b[10..]);
    ParseHexOfText(b);
  }

  /** Whatever parses is the canonical text of the id it names. */
  lemma TextOfParsedUuid(s: string)
    requires ParseUuid(s).Some?
    ensures UuidText(ParseUuid(s).value) == s
  {
    hide HexText, ParseHex;
    var digits := s[..8] + s[9..13] + s[14..18] + s[19..23] + s[24..];
    var b := ParseHex(digits).value;
    TextOfParsedHex(digits);
    HexTextConcat(b[..4], b[4..6]);
    HexTextConcat(b[..6], b[6..8]);
    HexTextConcat(b[..8], b[8..10]);
    HexTextConcat(b[..10], b[10..]);
    assert b[..4] + b[4..6] == b[..6] && b[..6] + b[6..8] == b[..8];
    assert b[..8] + b[8..10] == b[..10] && b[..10] + b[10..] == b;
    var parts := HexText(b[..4]) + HexText(b[4..6]) + HexText(b[6..8]) + HexText(b[8..10]) + HexText(b[10..]);
    assert parts == digits;
    assert HexText(b[..4]) == parts[..8] == digits[..8] == s[..8];
    assert HexText(b[4..6]) == parts[8..12] == digits[8..12] == s[9..13];
    assert HexText(b[6..8]) == parts[12..16] == digits[12..16] == s[14..18];
    assert HexText(b[8..10]) == parts[16..20] == digits[16..20] == s[19..23];
    assert HexText(b[10..]) == parts[20..] == digits[20..] == s[24..];
    assert s == s[..8] + "-" + s[9..13] + "-" + s[14..18] + "-" + s[19..23] + "-" + s[24..];
  }

  predicate IsMemberIdHex(s: string) {
    |s| == 32 && forall i | 0 <= i < 32 :: HexValue(s[i]).Some?
  }

  function HlcJson(h: Hlc): Json {
    Array([Int(h.wallMs), Int(h.counter), Text(h.memberIdHex)])
  }

  function ParseHlc(raw: Json): Option<Hlc> {
    if !raw.Array? || |raw.items| != 3 then None
    else
      match (raw.items[0], raw.items[1], raw.items[2])
      case (Int(wallMs), Int(counter), Text(memberIdHex)) =>
        if IsMemberIdHex(memberIdHex) then Some(Hlc(wallMs, counter, memberIdHex)) else None
      case _ => None
  }

  lemma ParseHlcExactly(h: Hlc)
    ensures ParseHlc(HlcJson(h)) == if IsMemberIdHex(h.memberIdHex) then Some(h) else None
  {
  }
}
