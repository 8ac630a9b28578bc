/** HMAC-SHA-256 (section 2 of RFC 2104) and the first block of PBKDF2 (section 5.2 of RFC 8018). */
module HmacSpec {
  import opened Bits
  import opened Sha256Spec

  function XorBytes(x: seq<Byte>, y: seq<Byte>): (r: seq<Byte>)
    requires |x| == |y|
    ensures |r| == |x|
  {
    seq(|x|, i requires 0 <= i < |x| => XorByte(x[i], y[i]))
  }

  function Repeat(b: Byte, n: nat): (r: seq<Byte>)
    ensures |r| == n
  {
    seq(n, _ => b)
  }

  /** Keys longer than a block are hashed first; every key is then extended with zeros to a block. */
  function KeyBlock(key: seq<Byte>): (r: seq<Byte>)
    ensures |r| == 64
  {
    var k := if |key| > 64 then Digest(key) else key;
    k + Repeat(0, 64 - |k|)
  }

  /** H(K XOR opad, H(K XOR ipad, text)). */
  function Hmac(key: seq<Byte>, text: seq<Byte>): (r: seq<Byte>)
    ensures |r| == 32
  {
    var k := KeyBlock(key);
    Digest(XorBytes(k, Repeat(0x5c, 64)) + Digest(XorBytes(k, Repeat(0x36, 64)) + text))
  }

  /** U_j of the first block: U_1 = PRF(P, S || INT(1)), U_j = PRF(P, U_(j-1)). */
  function U(password: seq<Byte>, salt: seq<Byte>, j: nat): (r: seq<Byte>)
    requires j >= 1
    ensures |r| == 32
  {
    if j == 1 then Hmac(password, salt + [0, 0, 0, 1]) else Hmac(password, U(password, salt, j - 1))
  }

  /** T_1 = U_1 xor U_2 xor ... xor U_c. */
  function T1(password: seq<Byte>, salt: seq<Byte>, c: nat): (r: seq<Byte>)
    requires c >= 1
    ensures |r| == 32
  {
    if c == 1 then U(password, salt, 1) else XorBytes(T1(password, salt, c - 1), U(password, salt, c))
  }
}

module Hmac {
  import opened Bits
  import opened Sha256Spec
  import opened Sha256Stream
  import opened HmacSpec
  import opened LittleEndian
  import opened Slices

  /** `a[i] ^= b[i]` over the whole array. */
  method XorInto(a: array<Byte>, b: seq<Byte>)
    requires a.Length == |b|
    modifies a
    ensures a[..] == XorBytes(old(a[..]), b)
  {
    for i := 0 to a.Length
      invariant forall j :: 0 <= j < i ==> a[j] == XorByte(old(a[j]), b[j])
      invariant forall j :: i <= j < a.Length ==> a[j] == old(a[j])
    {
      a[i] := XorByte(a[i], b[i]);
    }
  }

  method DigestOf(data: seq<Byte>) returns (digest: seq<Byte>)
    ensures digest == Digest(data)
  {
    var hasher := new Sha256();
    hasher.Update(data);
    assert hasher.message == data;
    digest := hasher.Finalize();
  }

  method MakeKeyBlock(key: seq<Byte>) returns (keyBlock: array<Byte>)
    ensures fresh(keyBlock) && keyBlock[..] == KeyBlock(key)
  {
    keyBlock := new Byte[64](_ => 0);
    if |key| > 64 {
      var digest := DigestOf(key);
      CopyInto(keyBlock, 0, digest);
    } else {
      CopyInto(keyBlock, 0, key);
    }
  }

  /** Hashes a prefix and then a list of parts, one `Update` each. */
  method DigestParts(prefix: seq<Byte>, parts: seq<seq<Byte>>) returns (digest: seq<Byte>)
    ensures digest == Digest(prefix + Flatten(parts))
  {
    var hasher := new Sha256();
    hasher.Update(prefix);
    ghost var given := prefix;
    for i := 0 to |parts|
      invariant hasher.Valid() && fresh(hasher) && fresh(hasher.state) && fresh(hasher.buffer)
      invariant hasher.message == given == prefix + Flatten(parts[..i])
    {
      FlattenNext(prefix, parts, i);
      given := given + parts[i];
      hasher.Update(parts[i]);
    }
    assert parts[..|parts|] == parts;
    digest := hasher.Finalize();
  }

  lemma FlattenNext(prefix: seq<Byte>, parts: seq<seq<Byte>>, i: nat)
    requires i < |parts|
    ensures prefix + Flatten(parts[..i + 1]) == (prefix + Flatten(parts[..i])) + parts[i]
  {
    assert parts[..i + 1][..i] == parts[..i];
  }

  method HmacSha256(key: seq<Byte>, parts: seq<seq<Byte>>) returns (result: seq<Byte>)
    ensures result == Hmac(key, Flatten(parts))
  {
    var keyBlock := MakeKeyBlock(key);
    var innerPad := Pad(0x36, keyBlock[..]);
    var outerPad := Pad(0x5c, keyBlock[..]);
    var innerHash := DigestParts(innerPad[..], parts);
    FlattenOne(innerHash);
    result := DigestParts(outerPad[..], [innerHash]);
  }

  method Pad(value: Byte, keyBlock: seq<Byte>) returns (pad: array<Byte>)
    requires |keyBlock| == 64
    ensures pad[..] == XorBytes(keyBlock, Repeat(value, 64))
  {
    pad := new Byte[64](_ => value);
    assert pad[..] == Repeat(value, 64);
    XorInto(pad, keyBlock);
    XorCommutes(keyBlock, Repeat(value, 64));
  }

  method FirstU(password: seq<Byte>, salt: seq<Byte>) returns (u: seq<Byte>)
    ensures u == U(password, salt, 1)
  {
    FlattenTwo(salt, [0, 0, 0, 1]);
    u := HmacSha256(password, [salt, [0, 0, 0, 1]]);
  }

  method NextU(password: seq<Byte>, ghost salt: seq<Byte>, ghost j: nat, previous: seq<Byte>) returns (u: seq<Byte>)
    requires j >= 1 && previous == U(password, salt, j)
    ensures u == U(password, salt, j + 1)
  {
    FlattenOne(previous);
    u := HmacSha256(password, [previous]);
  }

  method AddU(t: array<Byte>, u: seq<Byte>, ghost password: seq<Byte>, ghost salt: seq<Byte>, ghost j: nat)
    requires j >= 1 && t[..] == T1(password, salt, j) && u == U(password, salt, j + 1)
    modifies t
    ensures t[..] == T1(password, salt, j + 1)
  {
    XorInto(t, u);
  }

  /** The kernel derives a single 32-byte block, so block number 1 is the only one. */
  method Pbkdf2HmacSha256(password: seq<Byte>, salt: seq<Byte>, rounds: nat) returns (result: seq<Byte>)
    ensures result == T1(password, salt, if rounds == 0 then 1 else rounds)
  {
    var count := if rounds < 1 then 1 else rounds;
    var u, t := FirstT(password, salt);
    MoreRounds(password, salt, count, u, t);
    result := t[..];
  }

  method FirstT(password: seq<Byte>, salt: seq<Byte>) returns (u: seq<Byte>, t: array<Byte>)
    ensures fresh(t) && u == U(password, salt, 1) && t[..] == T1(password, salt, 1)
  {
    u := FirstU(password, salt);
    t := new Byte[32];
    CopyInto(t, 0, u);
    assert t[..] == u;
  }

  method MoreRounds(password: seq<Byte>, ghost salt: seq<Byte>, count: nat, first: seq<Byte>, t: array<Byte>)
    requires count >= 1 && first == U(password, salt, 1) && t[..] == T1(password, salt, 1)
    modifies t
    ensures t[..] == T1(password, salt, count)
  {
    var u := first;
    for i := 1 to count
      invariant u == U(password, salt, i)
      invariant t[..] == T1(password, salt, i)
    {
      u := NextU(password, salt, i, u);
      AddU(t, u, password, salt, i);
    }
  }

  /** What `StorageNonce` authenticates: a label and three fixed-width fields. */
  function NonceText(cfc: seq<Byte>, generation: nat, domain: nat): seq<Byte>
    requires |cfc| == 16 && generation < 0x1_0000_0000_0000_0000 && domain < 0x1_0000_0000
  {
    NONCE_LABEL + cfc + Le64(generation) + Le32(domain)
  }

  // "ExpOS ExpFS nonce v1"
  const NONCE_LABEL: seq<Byte> :=
    [69, 120, 112, 79, 83, 32, 69, 120, 112, 70, 83, 32, 110, 111, 110, 99, 101, 32, 118, 49]

  method StorageNonce(key: seq<Byte>, cfc: seq<Byte>, generation: nat, domain: nat) returns (nonce: seq<Byte>)
    requires |cfc| == 16 && generation < 0x1_0000_0000_0000_0000 && domain < 0x1_0000_0000
    ensures |nonce| == 24 && nonce == Hmac(key, NonceText(cfc, generation, domain))[..24]
  {
    var parts := [NONCE_LABEL, cfc, Le64(generation), Le32(domain)];
    assert Flatten(parts) == NonceText(cfc, generation, domain) by {
      FlattenTwo(NONCE_LABEL, cfc);
      assert parts[..3][..2] == [NONCE_LABEL, cfc];
    }
    var digest := HmacSha256(key, parts);
    nonce := digest[..24];
  }

  /** The framing is unambiguous: no two (CFC, generation, domain) triples are hashed as the same text. */
  lemma NonceTextIsInjective(cfc: seq<Byte>, generation: nat, domain: nat, cfc': seq<Byte>, generation': nat,
                             domain': nat)
    requires |cfc| == 16 && generation < 0x1_0000_0000_0000_0000 && domain < 0x1_0000_0000
    requires |cfc'| == 16 && generation' < 0x1_0000_0000_0000_0000 && domain' < 0x1_0000_0000
    requires NonceText(cfc, generation, domain) == NonceText(cfc', generation', domain')
    ensures cfc == cfc' && generation == generation' && domain == domain'
  {
    var t := NonceText(cfc, generation, domain);
    assert t[20..36] == cfc && t[36..44] == Le64(generation) && t[44..48] == Le32(domain);
    assert t[20..36] == cfc' && t[36..44] == Le64(generation') && t[44..48] == Le32(domain');
    Read64(t, 36, generation);
    Read64(t, 36, generation');
    Read32(t, 44, domain);
    Read32(t, 44, domain');
  }

  lemma {:induction false} XorBitsCommutes(x: nat, y: nat, n: nat)
    ensures XorBits(x, y, n) == XorBits(y, x, n)
  {
    if n > 0 {
      XorBitsCommutes(x / 2, y / 2, n - 1);
    }
  }

  lemma XorCommutes(x: seq<Byte>, y: seq<Byte>)
    requires |x| == |y|
    ensures XorBytes(x, y) == XorBytes(y, x)
  {
    forall i | 0 <= i < |x| ensures XorByte(x[i], y[i]) == XorByte(y[i], x[i]) {
      XorBitsCommutes(x[i], y[i], 8);
    }
  }
}
