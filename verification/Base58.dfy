/**
 The Base58 encoder of the wallet plugin: repeated in-place division of a big-endian number, digits filled in from
 the back of a fixed buffer. Source: app/android/app/src/main/kotlin/loonyb/in/jeeves/MwaPlugin.kt.
 */
module Base58 {
  import opened Wrappers

  // --- Positional numbers ---

  function Pow(base: nat, k: nat): nat {
    if k == 0 then 1 else base * Pow(base, k - 1)
  }

  /** The number a digit string spells, most significant digit first. */
  function Num(base: nat, digits: seq<nat>): nat {
    if digits == [] then 0 else Num(base, digits[..|digits| - 1]) * base + digits[|digits| - 1]
  }

  /** The digits of a number, with no leading zero; zero has none. */
  function Digits(base: nat, v: nat): (digits: seq<nat>)
    requires base >= 2
    ensures AllBelow(base, digits)
  {
    if v == 0 then [] else Digits(base, v / base) + [v % base]
  }

  predicate AllBelow(base: nat, digits: seq<nat>) {
    forall i | 0 <= i < |digits| :: digits[i] < base
  }

  predicate NoLeadingZero(digits: seq<nat>) {
    digits != [] ==> digits[0] != 0
  }

  lemma Shrinks(v: nat, base: nat)
    requires base >= 2 && v > 0
    ensures 0 <= v / base < v
  {
  }

  lemma QuotientAndRemainder(v: nat, base: nat)
    requires base > 0
    ensures v / base * base + v % base == v
  {
  }

  lemma {:induction false} NumOfDigits(base: nat, v: nat)
    requires base >= 2
    ensures Num(base, Digits(base, v)) == v && NoLeadingZero(Digits(base, v))
  {
    hide AllBelow, Digits, Num;
    NothingIsZero(base);
    if v > 0 {
      Shrinks(v, base);
      NumOfDigits(base, v / base);
      NumAppends(base, v, v / base, v % base);
    }
  }

  lemma NothingIsZero(base: nat)
    requires base >= 2
    ensures Digits(base, 0) == [] && Num(base, []) == 0
  {
  }

  lemma DigitsAppend(base: nat, v: nat, q: nat, r: nat)
    requires base >= 2 && v > 0 && q == v / base && r == v % base
    ensures Digits(base, v) == Digits(base, q) + [r]
  {
    hide AllBelow, Num;
  }

  lemma NumAppend(base: nat, high: seq<nat>, r: nat)
    ensures Num(base, high + [r]) == Num(base, high) * base + r
  {
    hide Digits;
    assert (high + [r])[..|high|] == high;
  }

  lemma NumAppends(base: nat, v: nat, q: nat, r: nat)
    requires base >= 2 && v > 0 && q == v / base && r == v % base
    requires Num(base, Digits(base, q)) == q && NoLeadingZero(Digits(base, q))
    ensures Num(base, Digits(base, v)) == v && NoLeadingZero(Digits(base, v))
  {
    hide AllBelow, Digits, Num;
    NothingIsZero(base);
    QuotientAndRemainder(v, base);
    DigitsAppend(base, v, q, r);
    NumAppend(base, Digits(base, q), r);
  }

  lemma {:induction false} DigitsOfNum(base: nat, digits: seq<nat>)
    requires base >= 2 && AllBelow(base, digits) && NoLeadingZero(digits)
    ensures Digits(base, Num(base, digits)) == digits
  {
    if digits != [] {
      var n := |digits| - 1;
      var high, low := digits[..n], digits[n];
      assert AllBelow(base, high) && low < base;
      DigitsOfNum(base, high);
      var v := Num(base, digits);
      DivMod(Num(base, high), base, low);
      if n > 0 {
        LeadingDigitIsSomething(base, high);
        Scaled(base, 1, Num(base, high));
      }
    }
  }

  lemma DivMod(high: nat, base: nat, low: nat)
    requires low < base
    ensures (high * base + low) / base == high && (high * base + low) % base == low
  {
    var v := high * base + low;
    SameQuotient(base, high, low, v / base, v % base);
  }

  lemma SameQuotient(base: nat, q: nat, r: nat, q': nat, r': nat)
    requires r < base && r' < base && q * base + r == q' * base + r'
    ensures q == q' && r == r'
  {
    if q < q' {
      Scaled(base, q + 1, q');
      assert false;
    } else if q' < q {
      Scaled(base, q' + 1, q);
      assert false;
    }
  }

  lemma Scaled(base: nat, p: nat, q: nat)
    requires p <= q
    ensures p * base <= q * base
  {
  }

  lemma {:induction false} NumBound(base: nat, digits: seq<nat>)
    requires AllBelow(base, digits)
    ensures Num(base, digits) < Pow(base, |digits|)
  {
    if digits != [] {
      var n := |digits| - 1;
      NumBound(base, digits[..n]);
      assert digits[n] < base;
      Scaled(base, Num(base, digits[..n]) + 1, Pow(base, n));
    }
  }

  lemma {:induction false} DigitsLength(base: nat, v: nat, k: nat)
    requires base >= 2 && v < Pow(base, k)
    ensures |Digits(base, v)| <= k
    decreases k
  {
    if v > 0 {
      QuotientBelow(v, base, Pow(base, k - 1));
      DigitsLength(base, v / base, k - 1);
    }
  }

  lemma QuotientBelow(v: nat, base: nat, p: nat)
    requires base > 0 && v < base * p
    ensures v / base < p
  {
  }

  /** Two base-58 digits hold more than one byte. */
  lemma {:induction false} TwoDigitsPerByte(m: nat)
    ensures Pow(256, m) <= Pow(58, 2 * m)
  {
    if m > 0 {
      TwoDigitsPerByte(m - 1);
      assert Pow(58, 2 * m) == 58 * (58 * Pow(58, 2 * (m - 1)));
    }
  }

  lemma LeadingZeroIsNothing(base: nat, digits: seq<nat>)
    ensures Num(base, [0] + digits) == Num(base, digits)
  {
    if digits == [] {
      assert [0] + digits == [0] && [0][..0] == [];
      assert Num(base, [0]) == Num(base, [0][..0]) * base;
    } else {
      var n := |digits| - 1;
      assert ([0] + digits)[..n + 1] == [0] + digits[..n];
      LeadingZeroIsNothing(base, digits[..n]);
    }
  }

  lemma {:induction false} LeadingDigitIsSomething(base: nat, digits: seq<nat>)
    requires base > 0 && digits != [] && digits[0] != 0
    ensures Num(base, digits) > 0
  {
    if |digits| > 1 {
      LeadingDigitIsSomething(base, digits[..|digits| - 1]);
      assert Num(base, digits[..|digits| - 1]) * base > 0;
    }
  }

  // --- Signed bytes ---

  /** The platform's signed byte. */
  type SByte = n: int | -128 <= n < 128

  /** `b.toInt() and 0xff`. */
  function Unsigned(b: SByte): (u: nat)
    ensures u < 256
  {
    if b < 0 then b + 256 else b
  }

  /** `v.toByte()`: the low eight bits, read as signed. */
  function ToByte(v: int): SByte {
    var low := v % 256;
    if low < 128 then low else low - 256
  }

  lemma UnsignedOfToByte(v: nat)
    requires v < 256
    ensures Unsigned(ToByte(v)) == v
  {
  }

  lemma ToByteOfUnsigned(b: SByte)
    ensures ToByte(Unsigned(b)) == b
  {
  }

  function UnsignedAll(bytes: seq<SByte>): (digits: seq<nat>)
    ensures |digits| == |bytes| && AllBelow(256, digits)
    ensures forall i | 0 <= i < |bytes| :: digits[i] == Unsigned(bytes[i])
  {
    seq(|bytes|, i requires 0 <= i < |bytes| => Unsigned(bytes[i]))
  }

  function ToBytes(digits: seq<nat>): (bytes: seq<SByte>)
    ensures |bytes| == |digits|
  {
    seq(|digits|, i requires 0 <= i < |digits| => ToByte(digits[i]))
  }

  // --- The encoding ---

  /** Digits and letters without 0, I, O and l. */
  const ALPHABET := "123456789" + "ABCDEFGH" + "JKLMN" + "PQRSTUVWXYZ" + "abcdefghijk" + "mnopqrstuvwxyz"

  function Chars(digits: seq<nat>): (s: string)
    requires AllBelow(58, digits)
    ensures |s| == |digits|
  {
    seq(|digits|, i requires 0 <= i < |digits| => ALPHABET[digits[i]])
  }

  function LeadingZeros(bytes: seq<SByte>): (n: nat)
    ensures n <= |bytes|
    ensures forall i | 0 <= i < n :: bytes[i] == 0
    ensures n < |bytes| ==> bytes[n] != 0
  {
    if bytes == [] || bytes[0] != 0 then 0 else 1 + LeadingZeros(bytes[1..])
  }

  function First(): char {
    ALPHABET[0]
  }

  function Ones(n: nat): (s: string)
    ensures |s| == n
  {
    seq(n, _ => ALPHABET[0])
  }

  /** One '1' a leading zero byte, then the base-58 digits of the rest with no leading zero digit. */
  function Encoded(bytes: seq<SByte>): string {
    var zeros := LeadingZeros(bytes);
    Ones(zeros) + Chars(Digits(58, Num(256, UnsignedAll(bytes[zeros..]))))
  }

  /** The quotients of one division pass over the first `n` bytes, and its remainder. */
  ghost predicate Divided(dividend: seq<nat>, quotients: seq<nat>, remainder: nat, n: nat)
    requires n <= |dividend| && n <= |quotients|
  {
    Num(256, dividend[..n]) == 58 * Num(256, quotients[..n]) + remainder && remainder < 58
  }

  lemma DivideOne(dividend: seq<nat>, quotients: seq<nat>, remainder: nat, n: nat, value: nat)
    requires n < |dividend| && n < |quotients| && Divided(dividend, quotients, remainder, n)
    requires value == dividend[n] + remainder * 256 && quotients[n] == value / 58
    ensures Divided(dividend, quotients, value % 58, n + 1)
  {
    assert dividend[..n + 1][..n] == dividend[..n] && quotients[..n + 1][..n] == quotients[..n];
    assert value == 58 * (value / 58) + value % 58;
  }

  lemma DivideByte(dividend: seq<nat>, bytes: seq<SByte>, remainder: nat, k: nat, value: nat)
    requires k < |dividend| == |bytes| && Divided(dividend, UnsignedAll(bytes), remainder, k)
    requires value == dividend[k] + remainder * 256 && dividend[k] < 256
    ensures value / 58 < 256
    ensures Divided(dividend, UnsignedAll(bytes[k := ToByte(value / 58)]), value % 58, k + 1)
  {
    var after := UnsignedAll(bytes[k := ToByte(value / 58)]);
    UnsignedOfToByte(value / 58);
    assert after[..k] == UnsignedAll(bytes)[..k];
    DivideOne(dividend, after, remainder, k, value);
  }

  /** When the byte written is zero, and what it leaves. */
  lemma QuotientByte(b: SByte, remainder: nat)
    requires remainder < 58
    ensures var value := Unsigned(b) + remainder * 256;
            && value / 58 < 256
            && (remainder > 0 ==> ToByte(value / 58) != 0)
            && (b != 0 && ToByte(value / 58) == 0 ==> value % 58 > 0)
  {
  }

  lemma WholePass(dividend: seq<nat>, quotients: seq<nat>, remainder: nat)
    requires |dividend| == |quotients| && Divided(dividend, quotients, remainder, |dividend|)
    ensures Num(256, quotients) == Num(256, dividend) / 58 && remainder == Num(256, dividend) % 58
  {
    assert dividend[..|dividend|] == dividend && quotients[..|quotients|] == quotients;
    DivMod(Num(256, quotients), 58, remainder);
  }

  /** One pass of the long division over `bytes[start..]`. */
  method DivideInPlace(bytes: array<SByte>, start: nat) returns (remainder: nat)
    requires start < bytes.Length && bytes[start] != 0
    modifies bytes
    ensures bytes[..start] == old(bytes[..start]) && remainder < 58
    ensures Num(256, UnsignedAll(bytes[start..])) == Num(256, UnsignedAll(old(bytes[start..]))) / 58
    ensures remainder == Num(256, UnsignedAll(old(bytes[start..]))) % 58
    ensures bytes[start] == 0 && start + 1 < bytes.Length ==> bytes[start + 1] != 0
  {
    hide Num, Divided, ToByte, Unsigned, UnsignedAll;
    remainder := 0;
    ghost var was := UnsignedAll(bytes[start..]);
    NothingDivided(was, UnsignedAll(bytes[start..]));
    var i := start;
    while i < bytes.Length
      invariant start <= i <= bytes.Length && remainder < 58
      invariant bytes[..start] == old(bytes[..start])
      invariant bytes[i..] == old(bytes[i..])
      invariant Divided(was, UnsignedAll(bytes[start..]), remainder, i - start)
      invariant i == start ==> remainder == 0
      invariant i == start + 1 ==> (bytes[start] == 0 ==> remainder > 0)
      invariant i > start + 1 ==> (bytes[start] == 0 ==> bytes[start + 1] != 0)
    {
      assert bytes[i..][0] == bytes[i] == old(bytes[i..])[0];
      var value := Unsigned(bytes[i]) + remainder * 256;
      ghost var before := bytes[start..];
      QuotientByte(bytes[i], remainder);
      assert was[i - start] == Unsigned(bytes[i]);
      DivideByte(was, before, remainder, i - start, value);
      bytes[i] := ToByte(value / 58);
      assert bytes[start..] == before[i - start := ToByte(value / 58)];
      remainder := value % 58;
      i := i + 1;
    }
    WholePass(was, UnsignedAll(bytes[start..]), remainder);
  }

  lemma NothingDivided(dividend: seq<nat>, quotients: seq<nat>)
    ensures Divided(dividend, quotients, 0, 0)
  {
  }

  lemma NextDigit(whole: nat, current: nat, digits: seq<nat>)
    requires current > 0 && Digits(58, whole) == Digits(58, current) + digits
    ensures Digits(58, whole) == Digits(58, current / 58) + ([current % 58] + digits)
    ensures |digits| < |Digits(58, whole)|
  {
    hide AllBelow, Digits;
    LastDigit(current);
    Regroup(Digits(58, whole), Digits(58, current / 58), current % 58, digits);
  }

  lemma Regroup(all: seq<nat>, high: seq<nat>, last: nat, low: seq<nat>)
    requires all == (high + [last]) + low
    ensures all == high + ([last] + low) && |low| < |all|
  {
  }

  lemma LastDigit(v: nat)
    requires v > 0
    ensures Digits(58, v) == Digits(58, v / 58) + [v % 58]
  {
    hide AllBelow;
  }

  lemma DropLeadingZero(bytes: seq<SByte>)
    requires bytes != [] && bytes[0] == 0
    ensures Num(256, UnsignedAll(bytes)) == Num(256, UnsignedAll(bytes[1..]))
  {
    assert UnsignedAll(bytes) == [0] + UnsignedAll(bytes[1..]);
    LeadingZeroIsNothing(256, UnsignedAll(bytes[1..]));
  }

  lemma PushChar(digit: nat, digits: seq<nat>)
    requires digit < 58 && AllBelow(58, digits)
    ensures AllBelow(58, [digit] + digits) && Chars([digit] + digits) == [ALPHABET[digit]] + Chars(digits)
  {
  }

  lemma NonZeroLead(bytes: seq<SByte>)
    requires bytes != [] && bytes[0] != 0
    ensures Num(256, UnsignedAll(bytes)) > 0
  {
    LeadingDigitIsSomething(256, UnsignedAll(bytes));
  }

  /**
   Writes the digits of `bytes[zeros..]` at the back of the buffer and destroys the bytes. Room is left in front
   for the leading '1's.
   */
  method WriteDigits(bytes: array<SByte>, zeros: nat, encoded: array<char>) returns (outIndex: nat)
    requires zeros <= bytes.Length && (zeros < bytes.Length ==> bytes[zeros] != 0)
    requires encoded.Length == bytes.Length * 2
    modifies bytes, encoded
    ensures zeros <= outIndex <= encoded.Length
    ensures encoded[outIndex..] == Chars(Digits(58, Num(256, UnsignedAll(old(bytes[zeros..])))))
  {
    hide Num, Digits, Chars, AllBelow, ALPHABET, UnsignedAll, ToByte, Unsigned;
    AlphabetIsOneToOne();
    outIndex := encoded.Length;
    ghost var whole := Num(256, UnsignedAll(bytes[zeros..]));
    WholeFits(bytes[zeros..]);
    ghost var digits: seq<nat> := [];
    NoChars();
    var start := zeros;
    while start < bytes.Length
      invariant zeros <= start <= bytes.Length && |digits| == encoded.Length - outIndex
      invariant 0 <= outIndex <= encoded.Length
      invariant start < bytes.Length ==> bytes[start] != 0
      invariant AllBelow(58, digits) && encoded[outIndex..] == Chars(digits)
      invariant Digits(58, whole) == Digits(58, Num(256, UnsignedAll(bytes[start..]))) + digits
      decreases Num(256, UnsignedAll(bytes[start..])), bytes.Length - start
    {
      ghost var current := Num(256, UnsignedAll(bytes[start..]));
      NonZeroLead(bytes[start..]);
      NextDigit(whole, current, digits);
      var remainder := DivideInPlace(bytes, start);
      outIndex := outIndex - 1;
      encoded[outIndex] := ALPHABET[remainder];
      assert encoded[outIndex..] == [ALPHABET[remainder]] + encoded[outIndex + 1..];
      PushChar(remainder, digits);
      digits := [remainder] + digits;
      if bytes[start] == 0 {
        DropLeadingZero(bytes[start..]);
        assert bytes[start..][1..] == bytes[start + 1..];
        start := start + 1;
      }
    }
    NoDigits(bytes[start..]);
    assert Digits(58, whole) == digits;
  }

  /** `repeat(zeros)`: one '1' a leading zero byte, in front of what is written. */
  method WriteOnes(encoded: array<char>, from: nat, zeros: nat) returns (outIndex: nat)
    requires zeros <= from <= encoded.Length
    modifies encoded
    ensures outIndex <= encoded.Length && encoded[outIndex..] == Ones(zeros) + old(encoded[from..])
  {
    hide ALPHABET, Ones;
    outIndex := from;
    var k := 0;
    OneMore(0);
    while k < zeros
      invariant 0 <= k <= zeros && outIndex == from - k
      invariant encoded[outIndex..] == Ones(k) + old(encoded[from..])
    {
      outIndex := outIndex - 1;
      encoded[outIndex] := First();
      assert encoded[outIndex..] == [First()] + encoded[outIndex + 1..];
      OneMore(k);
      k := k + 1;
    }
  }

  method Encode(input: array<SByte>) returns (s: string)
    ensures s == Encoded(input[..])
  {
    hide Encoded, Num, Digits, Chars, LeadingZeros, Ones, UnsignedAll;
    if input.Length == 0 {
      EmptyEncodes();
      assert input[..] == [];
      return "";
    }
    var zeros := CountZeros(input);
    var bytes := new SByte[input.Length];
    forall j | 0 <= j < input.Length { bytes[j] := input[j]; }
    assert bytes[zeros..] == input[..][zeros..];
    var encoded := new char[input.Length * 2];
    var outIndex := WriteDigits(bytes, zeros, encoded);
    outIndex := WriteOnes(encoded, outIndex, zeros);
    s := encoded[outIndex..];
    EncodedIs(input[..]);
  }

  lemma EncodedIs(bytes: seq<SByte>)
    ensures Encoded(bytes)
         == Ones(LeadingZeros(bytes)) + Chars(Digits(58, Num(256, UnsignedAll(bytes[LeadingZeros(bytes)..]))))
  {
  }

  /** `zeros`: how many bytes the input starts with that are zero. */
  method CountZeros(input: array<SByte>) returns (zeros: nat)
    ensures zeros == LeadingZeros(input[..]) <= input.Length
    ensures zeros < input.Length ==> input[zeros] != 0
  {
    zeros := 0;
    assert input[0..] == input[..];
    while zeros < input.Length && input[zeros] == 0
      invariant zeros <= input.Length && LeadingZeros(input[..]) == zeros + LeadingZeros(input[zeros..])
    {
      assert input[zeros..][1..] == input[zeros + 1..];
      zeros := zeros + 1;
    }
  }

  lemma OneMore(k: nat)
    ensures Ones(k + 1) == [First()] + Ones(k) && Ones(0) == []
  {
  }

  lemma EmptyEncodes()
    ensures Encoded([]) == ""
  {
  }

  lemma NoChars()
    ensures AllBelow(58, []) && Chars([]) == []
  {
  }

  lemma NoDigits(bytes: seq<SByte>)
    requires bytes == []
    ensures Digits(58, Num(256, UnsignedAll(bytes))) == []
  {
  }

  /** The digits of the significant bytes take at most two places a byte. */
  lemma WholeFits(rest: seq<SByte>)
    ensures |Digits(58, Num(256, UnsignedAll(rest)))| <= 2 * |rest|
  {
    NumBound(256, UnsignedAll(rest));
    TwoDigitsPerByte(|rest|);
    DigitsLength(58, Num(256, UnsignedAll(rest)), 2 * |rest|);
  }

  // --- Decoding ---

  predicate InAlphabet(s: string) {
    forall c | c in s :: c in ALPHABET
  }

  /** The place of a character in the alphabet. */
  ghost function DigitOf(c: char): (d: nat)
    requires c in ALPHABET
    ensures d < 58 && ALPHABET[d] == c
  {
    var d :| 0 <= d < |ALPHABET| && ALPHABET[d] == c;
    d
  }

  /** The character at a place, run by run. */
  function CharAt(i: nat): char
    requires i < 58
  {
    if i < 9 then '1' + i as char
    else if i < 17 then 'A' + (i - 9) as char
    else if i < 22 then 'J' + (i - 17) as char
    else if i < 33 then 'P' + (i - 22) as char
    else if i < 44 then 'a' + (i - 33) as char
    else 'm' + (i - 44) as char
  }

  lemma AlphabetByRuns()
    ensures |ALPHABET| == 58 && forall i | 0 <= i < 58 :: ALPHABET[i] == CharAt(i)
  {
  }

  /** No character appears twice. */
  lemma AlphabetIsOneToOne()
    ensures |ALPHABET| == 58 && forall i, j | 0 <= i < j < 58 :: ALPHABET[i] != ALPHABET[j]
  {
    AlphabetByRuns();
  }

  ghost function DigitsIn(s: string): (digits: seq<nat>)
    requires InAlphabet(s)
    ensures |digits| == |s| && AllBelow(58, digits)
  {
    seq(|s|, i requires 0 <= i < |s| => DigitOf(s[i]))
  }

  function LeadingOnes(s: string): (n: nat)
    ensures n <= |s|
    ensures forall i | 0 <= i < n :: s[i] == ALPHABET[0]
    ensures n < |s| ==> s[n] != ALPHABET[0]
  {
    if s == [] || s[0] != ALPHABET[0] then 0 else 1 + LeadingOnes(s[1..])
  }

  function ZeroBytes(n: nat): (bytes: seq<SByte>)
    ensures |bytes| == n
  {
    seq(n, _ => 0)
  }

  /** The standard decoder: a zero byte a leading '1', then the big-endian bytes of the rest. */
  ghost function Decoded(s: string): seq<SByte>
    requires InAlphabet(s)
  {
    var ones := LeadingOnes(s);
    ZeroBytes(ones) + ToBytes(Digits(256, Num(58, DigitsIn(s[ones..]))))
  }

  lemma DigitsInChars(digits: seq<nat>)
    requires AllBelow(58, digits)
    ensures InAlphabet(Chars(digits)) && DigitsIn(Chars(digits)) == digits
  {
    AlphabetIsOneToOne();
    var s := Chars(digits);
    forall c | c in s
      ensures c in ALPHABET
    {
      var i :| 0 <= i < |s| && s[i] == c;
      assert c == ALPHABET[digits[i]];
    }
    forall i | 0 <= i < |s|
      ensures DigitsIn(s)[i] == digits[i]
    {
      assert ALPHABET[DigitOf(s[i])] == ALPHABET[digits[i]];
    }
  }

  lemma CharsOfDigitsIn(s: string)
    requires InAlphabet(s)
    ensures Chars(DigitsIn(s)) == s
  {
  }

  lemma {:induction false} OnesThenRest(n: nat, rest: string)
    requires rest != [] ==> rest[0] != ALPHABET[0]
    ensures LeadingOnes(Ones(n) + rest) == n
  {
    if n > 0 {
      assert (Ones(n) + rest)[1..] == Ones(n - 1) + rest;
      OnesThenRest(n - 1, rest);
    } else {
      assert Ones(n) + rest == rest;
    }
  }

  lemma {:induction false} ZerosThenRest(n: nat, rest: seq<SByte>)
    requires rest != [] ==> rest[0] != 0
    ensures LeadingZeros(ZeroBytes(n) + rest) == n
  {
    if n > 0 {
      assert (ZeroBytes(n) + rest)[1..] == ZeroBytes(n - 1) + rest;
      ZerosThenRest(n - 1, rest);
    } else {
      assert ZeroBytes(n) + rest == rest;
    }
  }

  /** The digits after the '1's start with no zero digit, so nothing after them reads as a leading '1'. */
  lemma RestStartsNoOne(digits: seq<nat>)
    requires AllBelow(58, digits) && NoLeadingZero(digits)
    ensures Chars(digits) != [] ==> Chars(digits)[0] != ALPHABET[0]
  {
  }

  lemma EncodedParts(bytes: seq<SByte>)
    ensures var zeros, s := LeadingZeros(bytes), Encoded(bytes);
            && InAlphabet(s) && LeadingOnes(s) == zeros
            && NoLeadingZero(DigitsIn(s[zeros..]))
            && Num(58, DigitsIn(s[zeros..])) == Num(256, UnsignedAll(bytes[zeros..]))
  {
    hide Num, Digits, LeadingOnes, LeadingZeros;
    var zeros, s := LeadingZeros(bytes), Encoded(bytes);
    var v := Num(256, UnsignedAll(bytes[zeros..]));
    var digits := Digits(58, v);
    NumOfDigits(58, v);
    DigitsInChars(digits);
    RestStartsNoOne(digits);
    OnesThenRest(zeros, Chars(digits));
    assert s[zeros..] == Chars(digits);
    forall c | c in s
      ensures c in ALPHABET
    {
      if c in Ones(zeros) {
        assert c == ALPHABET[0];
      }
    }
  }

  /** Decoding an encoding gives the bytes back. */
  lemma DecodedOfEncoded(bytes: seq<SByte>)
    ensures InAlphabet(Encoded(bytes)) && Decoded(Encoded(bytes)) == bytes
  {
    hide Num, Digits, Encoded, DigitsIn, InAlphabet;
    var zeros := LeadingZeros(bytes);
    EncodedParts(bytes);
    var rest := bytes[zeros..];
    DigitsOfNum(256, UnsignedAll(rest));
    forall i | 0 <= i < |rest|
      ensures ToBytes(UnsignedAll(rest))[i] == rest[i]
    {
      ToByteOfUnsigned(rest[i]);
    }
    assert ToBytes(UnsignedAll(rest)) == rest;
    assert ZeroBytes(zeros) == bytes[..zeros];
  }

  /** Every string over the alphabet is the encoding of what it decodes to, so encodings are canonical. */
  lemma EncodedOfDecoded(s: string)
    requires InAlphabet(s)
    ensures Encoded(Decoded(s)) == s
  {
    hide Num, Digits, LeadingOnes, LeadingZeros, DigitsIn, Chars, Encoded, ALPHABET, InAlphabet, ToBytes, UnsignedAll,
      Ones, AllBelow, NoLeadingZero;
    var ones := LeadingOnes(s);
    var rest := s[ones..];
    SuffixInAlphabet(s, ones);
    var digits := DigitsIn(rest);
    RestDigits(rest);
    var v := Num(58, digits);
    var bytes := ToBytes(Digits(256, v));
    NumOfDigits(256, v);
    DigitsOfNum(58, digits);
    BytesOfDigits(Digits(256, v));
    ZerosThenRest(ones, bytes);
    assert Decoded(s)[ones..] == bytes;
    EncodedIs(Decoded(s));
    CharsOfDigitsIn(rest);
    LeadingOnesAre(s);
  }

  lemma SuffixInAlphabet(s: string, n: nat)
    requires InAlphabet(s) && n <= |s|
    ensures InAlphabet(s[n..])
  {
    hide ALPHABET;
  }

  lemma LeadingOnesAre(s: string)
    ensures Ones(LeadingOnes(s)) == s[..LeadingOnes(s)]
  {
    hide ALPHABET, LeadingOnes;
  }

  lemma RestDigits(rest: string)
    requires InAlphabet(rest) && (rest != [] ==> rest[0] != ALPHABET[0])
    ensures NoLeadingZero(DigitsIn(rest))
  {
  }

  lemma BytesOfDigits(digits: seq<nat>)
    requires AllBelow(256, digits) && NoLeadingZero(digits)
    ensures UnsignedAll(ToBytes(digits)) == digits
    ensures ToBytes(digits) != [] ==> ToBytes(digits)[0] != 0
  {
  }

  /** No two byte strings share an encoding. */
  lemma EncodingIsInjective(a: seq<SByte>, b: seq<SByte>)
    requires Encoded(a) == Encoded(b)
    ensures a == b
  {
    hide Encoded, Decoded;
    DecodedOfEncoded(a);
    DecodedOfEncoded(b);
  }
}
