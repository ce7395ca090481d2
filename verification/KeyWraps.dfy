/**
 The key-plane arithmetic: HKDF-SHA256 and the order-free commitment to an epoch's wrap set.
 Source: backend/app/sync/key_wraps.py. HMAC and SHA-256 are parameters; nothing is claimed about them beyond
 their output width and, where a result needs it, the absence of a collision among the strings hashed.
 */
module KeyWraps {
  import opened Wrappers
  import opened ByteStrings
  import opened Payloads

  const HASH_BYTES := 32
  const MAX_HKDF_BYTES := 255 * HASH_BYTES
  const AUTHOR_KEY_ID_BYTES := 8
  const KEYWRAP_BYTES := 104
  const EPOCH_KEY_ESCROW_WRAP_BYTES := 72
  const KEYWRAP_DIGEST_BYTES := 32
  const MAX_KEY_EPOCH := 0xFFFF_FFFF
  const EPHEMERAL_PUBLIC_KEY_BYTES := 32

  const KEYWRAP_INFO_DOMAIN := Ascii("jeeves/keywrap/v1")
  const KEYWRAP_DIGEST_DOMAIN := Ascii("jeeves/keywrap-digest/v1")

  datatype KeyWrapError = TooLong | MalformedKeyWrap | EpochOutOfRange | TooManyWraps

  type Hash = Bytes -> Bytes
  type Hmac = (Bytes, Bytes) -> Bytes

  ghost predicate HashWidth(sha256: Hash) {
    forall b :: |sha256(b)| == HASH_BYTES
  }

  /** The first bytes of the hash of a public key. */
  function KeyId(sha256: Hash, publicKey: Bytes): Bytes {
    var digest := sha256(publicKey);
    if |digest| < AUTHOR_KEY_ID_BYTES then digest else digest[..AUTHOR_KEY_ID_BYTES]
  }

  ghost predicate HmacWidth(hmac: Hmac) {
    forall key, message :: |hmac(key, message)| == HASH_BYTES
  }

  // --- HKDF, RFC 5869 ---

  /** Section 2.2: PRK = HMAC(salt, IKM), an absent salt being HashLen zeros. */
  function Extract(hmac: Hmac, salt: Bytes, ikm: Bytes): Bytes {
    hmac(if salt == [] then Zeros(HASH_BYTES) else salt, ikm)
  }

  /** Section 2.3: T(0) is empty and T(k) = HMAC(PRK, T(k-1) | info | k), k being one octet. */
  function T(hmac: Hmac, prk: Bytes, info: Bytes, k: nat): Bytes
    requires k <= 255
  {
    if k == 0 then [] else hmac(prk, T(hmac, prk, info, k - 1) + info + [k])
  }

  /** T(1) | T(2) | ... | T(n). */
  function Blocks(hmac: Hmac, prk: Bytes, info: Bytes, n: nat): Bytes
    requires n <= 255
  {
    if n == 0 then [] else Blocks(hmac, prk, info, n - 1) + T(hmac, prk, info, n)
  }

  lemma {:induction false} BlocksWidth(hmac: Hmac, prk: Bytes, info: Bytes, n: nat)
    requires HmacWidth(hmac) && n <= 255
    ensures |Blocks(hmac, prk, info, n)| == n * HASH_BYTES
  {
    if n > 0 {
      BlocksWidth(hmac, prk, info, n - 1);
    }
  }

  /** Section 2.3: OKM is the first L octets of T(1) | ... | T(N), N = ceil(L / HashLen). */
  ghost function Okm(hmac: Hmac, ikm: Bytes, salt: Bytes, info: Bytes, length: nat): (okm: Bytes)
    requires HmacWidth(hmac) && length <= MAX_HKDF_BYTES
    ensures |okm| == length
  {
    var n := (length + HASH_BYTES - 1) / HASH_BYTES;
    var prk := Extract(hmac, salt, ikm);
    BlocksWidth(hmac, prk, info, n);
    Blocks(hmac, prk, info, n)[..length]
  }

  lemma {:induction false} BlocksPrefix(hmac: Hmac, prk: Bytes, info: Bytes, n: nat, m: nat)
    requires n <= m <= 255
    ensures Blocks(hmac, prk, info, n) <= Blocks(hmac, prk, info, m)
    decreases m
  {
    if n < m {
      BlocksPrefix(hmac, prk, info, n, m - 1);
    }
  }

  /** A shorter output is a prefix of a longer one. */
  lemma OkmPrefix(hmac: Hmac, ikm: Bytes, salt: Bytes, info: Bytes, short: nat, long: nat)
    requires HmacWidth(hmac) && short <= long <= MAX_HKDF_BYTES
    ensures Okm(hmac, ikm, salt, info, short) <= Okm(hmac, ikm, salt, info, long)
  {
    var prk := Extract(hmac, salt, ikm);
    var n, m := (short + 31) / 32, (long + 31) / 32;
    BlocksPrefix(hmac, prk, info, n, m);
    BlocksWidth(hmac, prk, info, n);
    BlocksWidth(hmac, prk, info, m);
  }

  /** Block k of an output: its bytes from 32 (k - 1) on, the last block cut off at the length. */
  function BlockOf(okm: Bytes, k: nat): Bytes
    requires 1 <= k && HASH_BYTES * (k - 1) <= |okm|
  {
    if HASH_BYTES * k <= |okm| then okm[HASH_BYTES * (k - 1)..HASH_BYTES * k] else okm[HASH_BYTES * (k - 1)..]
  }

  /** The block after `previous`, in the words of section 2.3 of RFC 5869, the salt being that of section 2.2. */
  function NextBlock(hmac: Hmac, ikm: Bytes, salt: Bytes, info: Bytes, previous: Bytes, k: nat): Bytes
    requires 1 <= k <= 255
  {
    hmac(hmac(if salt == [] then Zeros(HASH_BYTES) else salt, ikm), previous + info + [k])
  }

  /** Every block of the output is the HMAC of the block before it, `info` and its own number. */
  lemma BlockEquations(hmac: Hmac, ikm: Bytes, salt: Bytes, info: Bytes, length: nat, k: nat)
    requires HmacWidth(hmac) && length <= MAX_HKDF_BYTES && 1 <= k && HASH_BYTES * (k - 1) < length
    ensures k <= 255
    ensures var okm := Okm(hmac, ikm, salt, info, length);
            var previous := if k == 1 then [] else BlockOf(okm, k - 1);
            BlockOf(okm, k) == NextBlock(hmac, ikm, salt, info, previous, k)[..|BlockOf(okm, k)|]
  {
    hide HmacWidth;
    var prk := Extract(hmac, salt, ikm);
    OkmBlock(hmac, ikm, salt, info, length, k);
    if k > 1 {
      OkmBlock(hmac, ikm, salt, info, length, k - 1);
      TWidth(hmac, prk, info, k - 1);
      assert BlockOf(Okm(hmac, ikm, salt, info, length), k - 1) == T(hmac, prk, info, k - 1);
    }
  }

  lemma TWidth(hmac: Hmac, prk: Bytes, info: Bytes, k: nat)
    requires HmacWidth(hmac) && 1 <= k <= 255
    ensures |T(hmac, prk, info, k)| == HASH_BYTES
  {
  }

  /** Block k of the output is T(k), or a prefix of it. */
  lemma OkmBlock(hmac: Hmac, ikm: Bytes, salt: Bytes, info: Bytes, length: nat, k: nat)
    requires HmacWidth(hmac) && length <= MAX_HKDF_BYTES && 1 <= k && HASH_BYTES * (k - 1) < length
    ensures k <= 255
    ensures var block := BlockOf(Okm(hmac, ikm, salt, info, length), k);
            && |block| == (if HASH_BYTES * k <= length then HASH_BYTES else length - HASH_BYTES * (k - 1))
            && |block| <= |T(hmac, Extract(hmac, salt, ikm), info, k)|
            && block == T(hmac, Extract(hmac, salt, ikm), info, k)[..|block|]
  {
    hide T, HmacWidth;
    var prk, n := Extract(hmac, salt, ikm), (length + HASH_BYTES - 1) / HASH_BYTES;
    BlocksPrefix(hmac, prk, info, k, n);
    BlocksWidth(hmac, prk, info, n);
    BlocksWidth(hmac, prk, info, k);
    BlocksWidth(hmac, prk, info, k - 1);
    TWidth(hmac, prk, info, k);
    var all, first := Blocks(hmac, prk, info, n), Blocks(hmac, prk, info, k);
    assert first == all[..HASH_BYTES * k];
    assert first[HASH_BYTES * (k - 1)..] == T(hmac, prk, info, k);
  }

  /** The extract-then-expand loop is RFC 5869, and its counter octet never passes 255. */
  method HkdfSha256(hmac: Hmac, ikm: Bytes, salt: Bytes, info: Bytes, length: nat)
    returns (okm: Result<Bytes, KeyWrapError>)
    requires HmacWidth(hmac)
    ensures length > MAX_HKDF_BYTES ==> okm == Failure(TooLong)
    ensures length <= MAX_HKDF_BYTES ==> okm == Success(Okm(hmac, ikm, salt, info, length))
  {
    if length > MAX_HKDF_BYTES {
      return Failure(TooLong);
    }
    var prk := hmac(if salt == [] then Zeros(HASH_BYTES) else salt, ikm);
    var output: Bytes := [];
    var block: Bytes := [];
    var counter: nat := 1;
    while |output| < length
      invariant 1 <= counter <= 256
      invariant |output| == HASH_BYTES * (counter - 1)
      invariant block == T(hmac, prk, info, counter - 1)
      invariant output == Blocks(hmac, prk, info, counter - 1)
      invariant |output| < length + HASH_BYTES
      decreases length - |output|
    {
      block := hmac(prk, block + info + [counter]);
      output := output + block;
      counter := counter + 1;
    }
    return Success(output[..length]);
  }

  // --- The wrap info string ---

  /** The HKDF info, which is also the AEAD's associated data. */
  function KeywrapInfo(epk: Bytes, workspaceId: Uuid, epoch: nat, memberId: Uuid, kexKeyId: Bytes)
    : Result<Bytes, KeyWrapError>
  {
    if |epk| != EPHEMERAL_PUBLIC_KEY_BYTES || |kexKeyId| != AUTHOR_KEY_ID_BYTES then Failure(MalformedKeyWrap)
    else if epoch > MAX_KEY_EPOCH then Failure(EpochOutOfRange)
    else
      Success(KEYWRAP_INFO_DOMAIN + epk + workspaceId.bytes + BigEndian(epoch, 4) + memberId.bytes + kexKeyId)
  }

  /** A wrap's info pins its slot: two equal infos name one ephemeral key, Workspace, epoch, Member and key. */
  lemma KeywrapInfoIsInjective(
    epk1: Bytes, w1: Uuid, e1: nat, m1: Uuid, k1: Bytes, epk2: Bytes, w2: Uuid, e2: nat, m2: Uuid, k2: Bytes)
    requires KeywrapInfo(epk1, w1, e1, m1, k1).Success?
    requires KeywrapInfo(epk1, w1, e1, m1, k1) == KeywrapInfo(epk2, w2, e2, m2, k2)
    ensures epk1 == epk2 && w1 == w2 && e1 == e2 && m1 == m2 && k1 == k2
  {
    hide BigEndian, Ascii;
    var tail1, tail2 := BigEndian(e1, 4) + m1.bytes + k1, BigEndian(e2, 4) + m2.bytes + k2;
    var head1, head2 := KEYWRAP_INFO_DOMAIN + epk1 + w1.bytes, KEYWRAP_INFO_DOMAIN + epk2 + w2.bytes;
    assert head1 + tail1 == head2 + tail2 by {
      assert head1 + tail1 == KeywrapInfo(epk1, w1, e1, m1, k1).value;
      assert head2 + tail2 == KeywrapInfo(epk2, w2, e2, m2, k2).value;
    }
    ConcatInjective(head1, tail1, head2, tail2);
    ConcatInjective(KEYWRAP_INFO_DOMAIN + epk1, w1.bytes, KEYWRAP_INFO_DOMAIN + epk2, w2.bytes);
    ConcatInjective(KEYWRAP_INFO_DOMAIN, epk1, KEYWRAP_INFO_DOMAIN, epk2);
    ConcatInjective(BigEndian(e1, 4) + m1.bytes, k1, BigEndian(e2, 4) + m2.bytes, k2);
    ConcatInjective(BigEndian(e1, 4), m1.bytes, BigEndian(e2, 4), m2.bytes);
    EpochBytesInjective(e1, e2);
  }

  lemma ConcatInjective(a: Bytes, b: Bytes, c: Bytes, d: Bytes)
    requires a + b == c + d && |a| == |c|
    ensures a == c && b == d
  {
    assert a == (a + b)[..|a|] && b == (a + b)[|a|..];
    assert c == (c + d)[..|c|] && d == (c + d)[|c|..];
  }

  lemma EpochBytesInjective(e1: nat, e2: nat)
    requires e1 <= MAX_KEY_EPOCH && e2 <= MAX_KEY_EPOCH && BigEndian(e1, 4) == BigEndian(e2, 4)
    ensures e1 == e2
  {
    Pow256Widths();
    ValueOfBigEndian(e1, 4);
    ValueOfBigEndian(e2, 4);
  }

  // --- The wrap-set digest ---

  datatype MemberWrap = MemberWrap(memberId: Uuid, kexKeyId: Bytes, wrap: Bytes)

  /** Lexicographic order on byte strings. */
  predicate BytesLe(a: Bytes, b: Bytes) {
    if a == [] then true
    else if b == [] then false
    else if a[0] != b[0] then a[0] < b[0]
    else BytesLe(a[1..], b[1..])
  }

  /** The sort key order: member id bytes first, then the key id. */
  predicate KeyLe(a: MemberWrap, b: MemberWrap) {
    if a.memberId != b.memberId then BytesLe(a.memberId.bytes, b.memberId.bytes) else BytesLe(a.kexKeyId, b.kexKeyId)
  }

  predicate SameSlot(a: MemberWrap, b: MemberWrap) {
    a.memberId == b.memberId && a.kexKeyId == b.kexKeyId
  }

  lemma {:induction false} BytesLeTotal(a: Bytes, b: Bytes)
    ensures BytesLe(a, b) || BytesLe(b, a)
    ensures BytesLe(a, b) && BytesLe(b, a) ==> a == b
  {
    if a != [] && b != [] && a[0] == b[0] {
      BytesLeTotal(a[1..], b[1..]);
      assert a == [a[0]] + a[1..] && b == [b[0]] + b[1..];
    }
  }

  lemma {:induction false} BytesLeTransitive(a: Bytes, b: Bytes, c: Bytes)
    requires BytesLe(a, b) && BytesLe(b, c)
    ensures BytesLe(a, c)
  {
    if a != [] && b != [] && c != [] && a[0] == b[0] == c[0] {
      BytesLeTransitive(a[1..], b[1..], c[1..]);
    }
  }

  lemma KeyLeTotal(a: MemberWrap, b: MemberWrap)
    ensures KeyLe(a, b) || KeyLe(b, a)
    ensures KeyLe(a, b) && KeyLe(b, a) ==> SameSlot(a, b)
  {
    BytesLeTotal(a.memberId.bytes, b.memberId.bytes);
    BytesLeTotal(a.kexKeyId, b.kexKeyId);
  }

  lemma KeyLeTransitive(a: MemberWrap, b: MemberWrap, c: MemberWrap)
    requires KeyLe(a, b) && KeyLe(b, c)
    ensures KeyLe(a, c)
  {
    BytesLeTotal(a.memberId.bytes, b.memberId.bytes);
    if a.memberId == b.memberId == c.memberId {
      BytesLeTransitive(a.kexKeyId, b.kexKeyId, c.kexKeyId);
    } else if a.memberId != b.memberId && b.memberId != c.memberId {
      BytesLeTransitive(a.memberId.bytes, b.memberId.bytes, c.memberId.bytes);
    }
  }

  /** `sorted` by key: stable, so equal keys keep their order. */
  function Insert(x: MemberWrap, s: seq<MemberWrap>): seq<MemberWrap> {
    if s == [] then [x]
    else if KeyLe(x, s[0]) then [x] + s
    else [s[0]] + Insert(x, s[1..])
  }

  function Sorted(s: seq<MemberWrap>): seq<MemberWrap> {
    if s == [] then [] else Insert(s[0], Sorted(s[1..]))
  }

  ghost predicate Ordered(s: seq<MemberWrap>) {
    forall i, j | 0 <= i < j < |s| :: KeyLe(s[i], s[j])
  }

  ghost predicate DistinctSlots(s: seq<MemberWrap>) {
    forall i, j | 0 <= i < j < |s| :: !SameSlot(s[i], s[j])
  }

  lemma {:induction false} InsertIsSorted(x: MemberWrap, s: seq<MemberWrap>)
    requires Ordered(s)
    ensures Ordered(Insert(x, s)) && multiset(Insert(x, s)) == multiset{x} + multiset(s)
  {
    if s != [] {
      assert s == [s[0]] + s[1..];
      if KeyLe(x, s[0]) {
        forall j | 0 <= j < |s|
          ensures KeyLe(x, s[j])
        {
          if j > 0 {
            KeyLeTransitive(x, s[0], s[j]);
          }
        }
      } else {
        InsertIsSorted(x, s[1..]);
        KeyLeTotal(x, s[0]);
        var rest := Insert(x, s[1..]);
        forall j | 0 <= j < |rest|
          ensures KeyLe(s[0], rest[j])
        {
          assert rest[j] in multiset(rest);
          assert rest[j] == x || rest[j] in s[1..];
        }
      }
    }
  }

  lemma {:induction false} SortedIsSorted(s: seq<MemberWrap>)
    ensures Ordered(Sorted(s)) && multiset(Sorted(s)) == multiset(s)
  {
    if s != [] {
      SortedIsSorted(s[1..]);
      InsertIsSorted(s[0], Sorted(s[1..]));
      assert s == [s[0]] + s[1..];
    }
  }

  lemma {:induction false} InsertKeepsSlots(x: MemberWrap, s: seq<MemberWrap>)
    requires DistinctSlots(s) && forall y | y in s :: !SameSlot(x, y)
    ensures DistinctSlots(Insert(x, s)) && forall y | y in Insert(x, s) :: y == x || y in s
  {
    if s != [] && !KeyLe(x, s[0]) {
      InsertKeepsSlots(x, s[1..]);
      var rest := Insert(x, s[1..]);
      forall j | 0 <= j < |rest|
        ensures !SameSlot(s[0], rest[j])
      {
        assert rest[j] in rest;
        if rest[j] == x {
          assert s[0] in s;
        } else {
          var k :| 0 <= k < |s[1..]| && s[1..][k] == rest[j];
          assert rest[j] == s[k + 1];
        }
      }
    }
  }

  lemma {:induction false} SortedKeepsSlots(s: seq<MemberWrap>)
    requires DistinctSlots(s)
    ensures DistinctSlots(Sorted(s)) && forall y | y in Sorted(s) :: y in s
  {
    if s != [] {
      SortedKeepsSlots(s[1..]);
      InsertKeepsSlots(s[0], Sorted(s[1..]));
    }
  }

  lemma HeadsAgree(a: seq<MemberWrap>, b: seq<MemberWrap>)
    requires a != [] && b != [] && Ordered(a) && Ordered(b) && DistinctSlots(a)
    requires a[0] in b && b[0] in a
    ensures a[0] == b[0]
  {
    hide KeyLe;
    var i :| 0 <= i < |a| && a[i] == b[0];
    var j :| 0 <= j < |b| && b[j] == a[0];
    KeyLeTotal(a[0], a[0]);
    assert KeyLe(a[0], b[0]) && KeyLe(b[0], a[0]);
    KeyLeTotal(a[0], b[0]);
  }

  /** With no slot repeated, a set of wraps has one sorted listing. */
  lemma {:induction false} OrderedIsUnique(a: seq<MemberWrap>, b: seq<MemberWrap>)
    requires Ordered(a) && Ordered(b) && multiset(a) == multiset(b) && DistinctSlots(a)
    ensures a == b
    decreases |a|
  {
    hide KeyLe, SameSlot;
    assert |a| == |multiset(a)| && |b| == |multiset(b)|;
    if a != [] {
      assert a[0] in multiset(b) && b[0] in multiset(a);
      HeadsAgree(a, b);
      TailMultiset(a);
      TailMultiset(b);
      OrderedIsUnique(a[1..], b[1..]);
      assert a == [a[0]] + a[1..] && b == [b[0]] + b[1..];
    }
  }

  lemma TailMultiset(s: seq<MemberWrap>)
    requires s != []
    ensures multiset(s[1..]) == multiset(s) - multiset{s[0]}
  {
    assert s == [s[0]] + s[1..];
  }

  function EntryBytes(sha256: Hash, w: MemberWrap): Bytes {
    w.memberId.bytes + w.kexKeyId + sha256(w.wrap)
  }

  function EntriesBytes(sha256: Hash, wraps: seq<MemberWrap>, n: nat): Bytes
    requires n <= |wraps|
  {
    if n == 0 then [] else EntriesBytes(sha256, wraps, n - 1) + EntryBytes(sha256, wraps[n - 1])
  }

  predicate WrapShape(w: MemberWrap) {
    |w.wrap| == KEYWRAP_BYTES && |w.kexKeyId| == AUTHOR_KEY_ID_BYTES
  }

  predicate DigestShape(epoch: nat, wraps: seq<MemberWrap>, escrowWrap: Bytes) {
    && |escrowWrap| == EPOCH_KEY_ESCROW_WRAP_BYTES
    && epoch <= MAX_KEY_EPOCH
    && |wraps| < 0x1_0000_0000
    && forall w | w in wraps :: WrapShape(w)
  }

  /** Everything the digest hashes. */
  function Preimage(sha256: Hash, epoch: nat, wraps: seq<MemberWrap>, escrowWrap: Bytes): Bytes {
    var sorted := Sorted(wraps);
    KEYWRAP_DIGEST_DOMAIN + BigEndian(epoch, 4) + BigEndian(|wraps|, 4)
    + EntriesBytes(sha256, sorted, |sorted|) + sha256(escrowWrap)
  }

  function Digest(sha256: Hash, epoch: nat, wraps: seq<MemberWrap>, escrowWrap: Bytes): Bytes {
    sha256(Preimage(sha256, epoch, wraps, escrowWrap))
  }

  /** Feeds a running digest exactly the preimage of the set; only a misshapen set is refused. */
  method KeywrapDigest(sha256: Hash, epoch: nat, memberWraps: seq<MemberWrap>, escrowWrap: Bytes)
    returns (digest: Result<Bytes, KeyWrapError>)
    ensures digest.Success? <==> DigestShape(epoch, memberWraps, escrowWrap)
    ensures digest.Success? ==> digest.value == Digest(sha256, epoch, memberWraps, escrowWrap)
  {
    hide Sorted, Ascii, BigEndian;
    SortedShape(memberWraps);
    if |escrowWrap| != EPOCH_KEY_ESCROW_WRAP_BYTES {
      return Failure(MalformedKeyWrap);
    }
    if epoch > MAX_KEY_EPOCH {
      return Failure(EpochOutOfRange);
    }
    if |memberWraps| >= 0x1_0000_0000 {
      return Failure(TooManyWraps);
    }
    var fed := KEYWRAP_DIGEST_DOMAIN + BigEndian(epoch, 4) + BigEndian(|memberWraps|, 4);
    ghost var header := fed;
    var sorted := Sorted(memberWraps);
    for i := 0 to |sorted|
      invariant fed == header + EntriesBytes(sha256, sorted, i)
      invariant forall j | 0 <= j < i :: WrapShape(sorted[j])
    {
      var w := sorted[i];
      if !WrapShape(w) {
        assert w in memberWraps;
        return Failure(MalformedKeyWrap);
      }
      fed := fed + w.memberId.bytes + w.kexKeyId + sha256(w.wrap);
    }
    fed := fed + sha256(escrowWrap);
    forall w | w in memberWraps
      ensures WrapShape(w)
    {
      assert w in sorted;
    }
    assert fed == Preimage(sha256, epoch, memberWraps, escrowWrap);
    return Success(sha256(fed));
  }

  /** The preimage is a function of the set: no upload order can change it. */
  lemma PreimageIgnoresOrder(sha256: Hash, epoch: nat, a: seq<MemberWrap>, b: seq<MemberWrap>, escrowWrap: Bytes)
    requires multiset(a) == multiset(b) && DistinctSlots(a)
    ensures Preimage(sha256, epoch, a, escrowWrap) == Preimage(sha256, epoch, b, escrowWrap)
  {
    SortedIsSorted(a);
    SortedIsSorted(b);
    SortedKeepsSlots(a);
    OrderedIsUnique(Sorted(a), Sorted(b));
    assert |a| == |multiset(a)| && |b| == |multiset(b)|;
  }

  /** No two of these strings share a hash. */
  ghost predicate CollisionFree(sha256: Hash, strings: set<Bytes>) {
    forall a, b | a in strings && b in strings && sha256(a) == sha256(b) :: a == b
  }

  function WrapStrings(wraps: seq<MemberWrap>): set<Bytes> {
    set w | w in wraps :: w.wrap
  }

  lemma {:induction false} EntriesWidth(sha256: Hash, wraps: seq<MemberWrap>, n: nat)
    requires HashWidth(sha256) && n <= |wraps| && forall w | w in wraps :: WrapShape(w)
    ensures |EntriesBytes(sha256, wraps, n)| == 56 * n
  {
    if n > 0 {
      EntriesWidth(sha256, wraps, n - 1);
      assert wraps[n - 1] in wraps;
      assert |EntryBytes(sha256, wraps[n - 1])| == 56;
    }
  }

  lemma {:induction false} EntriesInjective(sha256: Hash, a: seq<MemberWrap>, b: seq<MemberWrap>, n: nat)
    requires HashWidth(sha256) && CollisionFree(sha256, WrapStrings(a) + WrapStrings(b))
    requires n <= |a| && n <= |b|
    requires (forall w | w in a :: WrapShape(w)) && (forall w | w in b :: WrapShape(w))
    requires EntriesBytes(sha256, a, n) == EntriesBytes(sha256, b, n)
    ensures a[..n] == b[..n]
  {
    if n > 0 {
      EntriesWidth(sha256, a, n - 1);
      EntriesWidth(sha256, b, n - 1);
      var x, y := a[n - 1], b[n - 1];
      ConcatInjective(EntriesBytes(sha256, a, n - 1), EntryBytes(sha256, x), EntriesBytes(sha256, b, n - 1),
        EntryBytes(sha256, y));
      ConcatInjective(x.memberId.bytes + x.kexKeyId, sha256(x.wrap), y.memberId.bytes + y.kexKeyId, sha256(y.wrap));
      ConcatInjective(x.memberId.bytes, x.kexKeyId, y.memberId.bytes, y.kexKeyId);
      assert x.wrap in WrapStrings(a) && y.wrap in WrapStrings(b);
      EntriesInjective(sha256, a, b, n - 1);
      assert a[..n] == a[..n - 1] + [x] && b[..n] == b[..n - 1] + [y];
    }
  }

  /** Equal preimages come from one epoch, one set of wraps and one escrow wrap. */
  lemma PreimageIsInjective(
    sha256: Hash, e1: nat, a: seq<MemberWrap>, escrow1: Bytes, e2: nat, b: seq<MemberWrap>, escrow2: Bytes)
    requires HashWidth(sha256) && CollisionFree(sha256, WrapStrings(a) + WrapStrings(b) + {escrow1, escrow2})
    requires DigestShape(e1, a, escrow1) && DigestShape(e2, b, escrow2)
    requires Preimage(sha256, e1, a, escrow1) == Preimage(sha256, e2, b, escrow2)
    ensures e1 == e2 && multiset(a) == multiset(b) && escrow1 == escrow2
  {
    hide BigEndian, Ascii, EntriesBytes, Sorted, DigestShape;
    var s, t := Sorted(a), Sorted(b);
    ShapeBounds(e1, a, escrow1);
    ShapeBounds(e2, b, escrow2);
    SortedShape(a);
    SortedShape(b);
    var ea, eb := EntriesBytes(sha256, s, |s|), EntriesBytes(sha256, t, |t|);
    var head := KEYWRAP_DIGEST_DOMAIN;
    var xa, xb := BigEndian(e1, 4), BigEndian(e2, 4);
    var na, nb := BigEndian(|a|, 4), BigEndian(|b|, 4);
    EntriesWidth(sha256, s, |s|);
    EntriesWidth(sha256, t, |t|);
    assert (head + xa + na) + (ea + sha256(escrow1)) == (head + xb + nb) + (eb + sha256(escrow2)) by {
      assert (head + xa + na) + (ea + sha256(escrow1)) == Preimage(sha256, e1, a, escrow1);
      assert (head + xb + nb) + (eb + sha256(escrow2)) == Preimage(sha256, e2, b, escrow2);
    }
    ConcatInjective(head + xa + na, ea + sha256(escrow1), head + xb + nb, eb + sha256(escrow2));
    ConcatInjective(head + xa, na, head + xb, nb);
    ConcatInjective(head, xa, head, xb);
    EpochBytesInjective(e1, e2);
    EpochBytesInjective(|a|, |b|);
    ConcatInjective(ea, sha256(escrow1), eb, sha256(escrow2));
    EntriesInjective(sha256, s, t, |s|);
    assert s[..|s|] == s && t[..|t|] == t;
  }

  lemma ShapeBounds(epoch: nat, wraps: seq<MemberWrap>, escrowWrap: Bytes)
    requires DigestShape(epoch, wraps, escrowWrap)
    ensures epoch <= MAX_KEY_EPOCH && |wraps| <= MAX_KEY_EPOCH && forall w | w in wraps :: WrapShape(w)
  {
  }

  lemma SortedShape(wraps: seq<MemberWrap>)
    ensures multiset(Sorted(wraps)) == multiset(wraps) && |Sorted(wraps)| == |wraps|
    ensures WrapStrings(Sorted(wraps)) == WrapStrings(wraps)
    ensures forall w :: w in Sorted(wraps) <==> w in wraps
  {
    SortedIsSorted(wraps);
    var s := Sorted(wraps);
    assert |s| == |multiset(s)| && |wraps| == |multiset(wraps)|;
    assert forall w :: w in s <==> w in multiset(s);
    assert forall w :: w in wraps <==> w in multiset(wraps);
  }

  // --- The bytes on the wire ---

  /** `a` comes first in lexicographic order: it is a prefix, or smaller at the first difference. */
  lemma {:induction false} BytesLeExactly(a: Bytes, b: Bytes)
    ensures BytesLe(a, b) <==>
              a <= b || exists k | 0 <= k < |a| && k < |b| :: a[..k] == b[..k] && a[k] < b[k]
  {
    if a != [] && b != [] {
      BytesLeExactly(a[1..], b[1..]);
      assert a == [a[0]] + a[1..] && b == [b[0]] + b[1..];
      if a[0] < b[0] {
        assert a[..0] == b[..0];
      } else if a[0] == b[0] {
        if k :| 0 <= k < |a[1..]| && k < |b[1..]| && a[1..][..k] == b[1..][..k] && a[1..][k] < b[1..][k] {
          assert a[..k + 1] == [a[0]] + a[1..][..k] && b[..k + 1] == [b[0]] + b[1..][..k];
        }
        if k :| 0 <= k < |a| && k < |b| && a[..k] == b[..k] && a[k] < b[k] {
          assert a[1..][..k - 1] == a[..k][1..] && b[1..][..k - 1] == b[..k][1..];
        }
      } else {
        DifferAtOnce(a, b);
      }
    }
  }

  lemma DifferAtOnce(a: Bytes, b: Bytes)
    requires a != [] && b != [] && a[0] > b[0]
    ensures !(a <= b) && forall k | 0 <= k < |a| && k < |b| && a[..k] == b[..k] :: a[k] >= b[k]
  {
    forall k | 0 <= k < |a| && k < |b| && a[..k] == b[..k]
      ensures a[k] >= b[k]
    {
      if k > 0 {
        SameHead(a, b, k);
        assert false;
      }
    }
  }

  lemma SameHead(a: Bytes, b: Bytes, k: nat)
    requires 0 < k <= |a| && k <= |b| && a[..k] == b[..k]
    ensures a[0] == b[0]
  {
    assert a[..k][0] == b[..k][0];
  }

  lemma {:induction false} EntryAt(sha256: Hash, wraps: seq<MemberWrap>, n: nat, i: nat)
    requires HashWidth(sha256) && i < n <= |wraps| && forall w | w in wraps :: WrapShape(w)
    ensures |EntriesBytes(sha256, wraps, n)| == 56 * n
    ensures EntriesBytes(sha256, wraps, n)[56 * i..56 * i + 56] == EntryBytes(sha256, wraps[i])
  {
    hide HashWidth, EntryBytes;
    EntriesWidth(sha256, wraps, n);
    EntriesWidth(sha256, wraps, n - 1);
    if i < n - 1 {
      EntryAt(sha256, wraps, n - 1, i);
    }
  }

  /** One entry: the Member's id, the id of its key, and the hash of its wrap. */
  lemma EntryLayout(sha256: Hash, w: MemberWrap)
    requires HashWidth(sha256) && WrapShape(w)
    ensures var e := EntryBytes(sha256, w);
            |e| == 56 && e[..16] == w.memberId.bytes && e[16..24] == w.kexKeyId && e[24..] == sha256(w.wrap)
  {
  }

  /**
   The preimage, byte by byte: the domain, the epoch and the count in four octets each, the entries in order of Member
   id and key id, and the hash of the escrow wrap.
   */
  lemma PreimageLayout(sha256: Hash, epoch: nat, wraps: seq<MemberWrap>, escrowWrap: Bytes)
    requires HashWidth(sha256) && DigestShape(epoch, wraps, escrowWrap)
    ensures var p, d := Preimage(sha256, epoch, wraps, escrowWrap), |KEYWRAP_DIGEST_DOMAIN|;
            var n, sorted := |wraps|, Sorted(wraps);
            && multiset(sorted) == multiset(wraps) && Ordered(sorted) && |sorted| == n
            && |p| == d + 8 + 56 * n + 32
            && p[..d] == KEYWRAP_DIGEST_DOMAIN && Value(p[d..d + 4]) == epoch && Value(p[d + 4..d + 8]) == n
            && (forall i | 0 <= i < n :: p[d + 8 + 56 * i..d + 8 + 56 * i + 56] == EntryBytes(sha256, sorted[i]))
            && p[d + 8 + 56 * n..] == sha256(escrowWrap)
  {
    hide BigEndian, Value, Sorted, EntriesBytes, EntryBytes, Ordered;
    var p, d, n, sorted := Preimage(sha256, epoch, wraps, escrowWrap), |KEYWRAP_DIGEST_DOMAIN|, |wraps|, Sorted(wraps);
    SortedIsSorted(wraps);
    SortedShape(wraps);
    EntriesWidth(sha256, sorted, n);
    var entries := EntriesBytes(sha256, sorted, n);
    Pow256Widths();
    ValueOfBigEndian(epoch, 4);
    ValueOfBigEndian(n, 4);
    assert p[d..d + 4] == BigEndian(epoch, 4) && p[d + 4..d + 8] == BigEndian(n, 4);
    assert p[d + 8..d + 8 + 56 * n] == entries;
    forall i | 0 <= i < n
      ensures p[d + 8 + 56 * i..d + 8 + 56 * i + 56] == EntryBytes(sha256, sorted[i])
    {
      EntryAt(sha256, sorted, n, i);
      assert p[d + 8 + 56 * i..d + 8 + 56 * i + 56] == entries[56 * i..56 * i + 56];
    }
  }

  /** The info string, byte by byte. */
  lemma KeywrapInfoLayout(epk: Bytes, workspaceId: Uuid, epoch: nat, memberId: Uuid, kexKeyId: Bytes)
    ensures KeywrapInfo(epk, workspaceId, epoch, memberId, kexKeyId).Success?
       <==> |epk| == 32 && |kexKeyId| == 8 && epoch < 0x1_0000_0000
    ensures KeywrapInfo(epk, workspaceId, epoch, memberId, kexKeyId).Success? ==>
              var info, d := KeywrapInfo(epk, workspaceId, epoch, memberId, kexKeyId).value, |KEYWRAP_INFO_DOMAIN|;
              && |info| == d + 76 && info[..d] == KEYWRAP_INFO_DOMAIN && info[d..d + 32] == epk
              && info[d + 32..d + 48] == workspaceId.bytes && Value(info[d + 48..d + 52]) == epoch
              && info[d + 52..d + 68] == memberId.bytes && info[d + 68..] == kexKeyId
  {
    hide BigEndian, Value;
    if KeywrapInfo(epk, workspaceId, epoch, memberId, kexKeyId).Success? {
      var info, d := KeywrapInfo(epk, workspaceId, epoch, memberId, kexKeyId).value, |KEYWRAP_INFO_DOMAIN|;
      Pow256Widths();
      ValueOfBigEndian(epoch, 4);
      assert info[d + 48..d + 52] == BigEndian(epoch, 4);
    }
  }
}
