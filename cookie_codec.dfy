/**
 * Sealing of the quote wall's cookies (`encrypt` and `decrypt` in
 * actions/quickie.go): IV ‖ CFB(plaintext ‖ SHA-256(plaintext)), written as
 * URL-safe base64, and the digest check on opening.
 *
 * AES, SHA-256 and base64 are library code. They enter the model as the
 * function-valued fields of `Primitives`, and only the laws a proof needs are
 * required of them. Cipher feedback mode (section 6.3 of NIST SP 800-38A)
 * is written out here over whatever block function AES computes, so that
 * decryption undoing encryption is proved rather than assumed.
 */
module CookieCodec {
  import opened Common
  import Numbers

  const BlockSize: nat := 16
  const DigestSize: nat := 32

  type Block = b: Bytes | |b| == BlockSize witness seq(16, _ => 0 as bv8)
  type Digest = d: Bytes | |d| == DigestSize witness seq(32, _ => 0 as bv8)

  /** The library calls the codec makes. */
  datatype Primitives = Primitives(
    /** One AES block encryption under a key. */
    aes: (Bytes, Block) -> Block,
    /** `sha256.Sum256`. */
    sha256: Bytes -> Digest,
    /** `base64.URLEncoding.EncodeToString`. */
    b64Encode: Bytes -> string,
    /** `base64.URLEncoding.DecodeString` with its error dropped: the bytes decoded. */
    b64Decode: string -> Bytes)

  /** Decoding undoes encoding. */
  ghost predicate Base64RoundTrip(p: Primitives) {
    forall b :: p.b64Decode(p.b64Encode(b)) == b
  }

  /** The alphabet of section 5 of RFC 4648, with the padding character. */
  predicate UrlSafe(c: char) {
    ('A' <= c <= 'Z') || ('a' <= c <= 'z') || ('0' <= c <= '9') || c == '-' || c == '_' || c == '='
  }

  /** Encoded text uses the URL-safe alphabet only. */
  ghost predicate Base64Alphabet(p: Primitives) {
    forall b, i :: 0 <= i < |p.b64Encode(b)| ==> UrlSafe(p.b64Encode(b)[i])
  }

  /** `aes.NewCipher` accepts AES-128, AES-192 and AES-256 keys only. */
  predicate ValidAesKey(key: Bytes) {
    |key| == 16 || |key| == 24 || |key| == 32
  }

  /** The text of `aes.KeySizeError`. */
  function KeySizeError(n: nat): string {
    "crypto/aes: invalid key size " + Numbers.IntToString(n)
  }

  const SignatureError: string := "Signature failed verification,"

  /** The key used when a fresh UUID cannot be marshalled: the 13 ASCII bytes of "reallyweakkey". */
  const FallbackKey: Bytes := [0x72, 0x65, 0x61, 0x6c, 0x6c, 0x79, 0x77, 0x65, 0x61, 0x6b, 0x6b, 0x65, 0x79]

  lemma FallbackKeyRejected()
    ensures |FallbackKey| == 13 && !ValidAesKey(FallbackKey)
  {
  }

  /** Byte-wise exclusive or of `a` with the first `|a|` bytes of `k`. */
  function Xor(a: Bytes, k: Bytes): (r: Bytes)
    requires |a| <= |k|
    ensures |r| == |a|
  {
    seq(|a|, i requires 0 <= i < |a| => a[i] ^ k[i])
  }

  lemma XorTwice(a: Bytes, k: Bytes)
    requires |a| <= |k|
    ensures Xor(Xor(a, k), k) == a
  {
    assert forall i :: 0 <= i < |a| ==> (a[i] ^ k[i]) ^ k[i] == a[i];
  }

  /**
   * CFB encryption with shift register `reg`: each block of plaintext is
   * xored with the encryption of the previous ciphertext block (of the IV
   * at first). The last block may be partial.
   */
  function CfbEncrypt(p: Primitives, key: Bytes, reg: Block, plain: Bytes): (c: Bytes)
    ensures |c| == |plain|
    decreases |plain|
  {
    if |plain| <= BlockSize then Xor(plain, p.aes(key, reg))
    else
      var head: Block := Xor(plain[..BlockSize], p.aes(key, reg));
      head + CfbEncrypt(p, key, head, plain[BlockSize..])
  }

  /** CFB decryption: the same key stream, fed back from the ciphertext. */
  function CfbDecrypt(p: Primitives, key: Bytes, reg: Block, c: Bytes): (plain: Bytes)
    ensures |plain| == |c|
    decreases |c|
  {
    if |c| <= BlockSize then Xor(c, p.aes(key, reg))
    else Xor(c[..BlockSize], p.aes(key, reg)) + CfbDecrypt(p, key, c[..BlockSize], c[BlockSize..])
  }

  /** Decryption with the same key and IV undoes encryption, for any block function. */
  lemma {:induction false} CfbRoundTrip(p: Primitives, key: Bytes, reg: Block, plain: Bytes)
    ensures CfbDecrypt(p, key, reg, CfbEncrypt(p, key, reg, plain)) == plain
    decreases |plain|
  {
    var k := p.aes(key, reg);
    if |plain| <= BlockSize {
      XorTwice(plain, k);
    } else {
      var head: Block := Xor(plain[..BlockSize], k);
      var c := CfbEncrypt(p, key, reg, plain);
      assert c[..BlockSize] == head && c[BlockSize..] == CfbEncrypt(p, key, head, plain[BlockSize..]);
      XorTwice(plain[..BlockSize], k);
      CfbRoundTrip(p, key, head, plain[BlockSize..]);
      assert plain == plain[..BlockSize] + plain[BlockSize..];
    }
  }

  /** CFB is a stream: encrypting `a ‖ b` begins with the encryption of `a`. */
  lemma {:induction false} CfbPrefix(p: Primitives, key: Bytes, reg: Block, a: Bytes, b: Bytes)
    ensures CfbEncrypt(p, key, reg, a + b)[..|a|] == CfbEncrypt(p, key, reg, a)
    decreases |a|
  {
    var k := p.aes(key, reg);
    if |a| <= BlockSize {
      if |a + b| > BlockSize {
        assert (a + b)[..BlockSize][..|a|] == a;
      }
    } else {
      assert (a + b)[..BlockSize] == a[..BlockSize];
      assert (a + b)[BlockSize..] == a[BlockSize..] + b;
      var head: Block := Xor(a[..BlockSize], k);
      CfbPrefix(p, key, head, a[BlockSize..], b);
    }
  }

  /** The bytes `encrypt` hands to base64: IV, then the one CFB stream over plaintext and digest. */
  function Seal(p: Primitives, key: Bytes, iv: Block, plain: Bytes): Bytes {
    iv + CfbEncrypt(p, key, iv, plain + p.sha256(plain))
  }

  /**
   * The sealed layout: 16 + |plaintext| + 32 bytes, IV first, then the
   * plaintext's encryption, which is exactly CFB of the plaintext alone.
   */
  lemma SealLayout(p: Primitives, key: Bytes, iv: Block, plain: Bytes)
    ensures |Seal(p, key, iv, plain)| == BlockSize + |plain| + DigestSize
    ensures Seal(p, key, iv, plain)[..BlockSize] == iv
    ensures Seal(p, key, iv, plain)[BlockSize..BlockSize + |plain|] == CfbEncrypt(p, key, iv, plain)
  {
    var s := Seal(p, key, iv, plain);
    var body := CfbEncrypt(p, key, iv, plain + p.sha256(plain));
    CfbPrefix(p, key, iv, plain, p.sha256(plain));
    assert s[BlockSize..BlockSize + |plain|] == body[..|plain|];
  }

  /** Writes `src` into `buf` from offset `off`; the rest of `buf` is left as it was. */
  method CopyInto(buf: array<byte>, off: nat, src: Bytes)
    requires off + |src| <= buf.Length
    modifies buf
    ensures buf[..] == old(buf[..off]) + src + old(buf[off + |src|..])
  {
    var j := 0;
    while j < |src|
      invariant 0 <= j <= |src|
      invariant forall k :: 0 <= k < off ==> buf[k] == old(buf[k])
      invariant forall k :: 0 <= k < j ==> buf[off + k] == src[k]
      invariant forall k :: off + j <= k < buf.Length ==> buf[k] == old(buf[k])
    {
      buf[off + j] := src[j];
      j := j + 1;
    }
    ghost var want := old(buf[..off]) + src + old(buf[off + |src|..]);
    forall k | 0 <= k < buf.Length
      ensures buf[k] == want[k]
    {
      if k < off {
        assert want[k] == old(buf[k]);
      } else if k < off + |src| {
        assert want[k] == src[k - off];
      } else {
        assert want[k] == old(buf[k]);
      }
    }
    assert buf[..] == want;
  }

  /**
   * `encrypt(key, plaintext)`. `iv` stands for the bytes `rand.Read` draws.
   * A key AES refuses is the only error; otherwise the result is the base64
   * text of the sealed bytes, written into one buffer of
   * 16 + |plaintext| + 32 bytes.
   */
  method Encrypt(p: Primitives, key: Bytes, plain: Bytes, iv: Block) returns (r: Result<string>)
    ensures !ValidAesKey(key) ==> r == Err(KeySizeError(|key|))
    ensures ValidAesKey(key) ==> r == Ok(p.b64Encode(Seal(p, key, iv, plain)))
  {
    if !ValidAesKey(key) {
      return Err(KeySizeError(|key|));
    }
    var buf := new byte[BlockSize + |plain| + DigestSize];
    CopyInto(buf, 0, iv);
    var sha := p.sha256(plain);
    // one XORKeyStream call per piece, continuing the same key stream
    var stream := CfbEncrypt(p, key, iv, plain + sha);
    assert buf[..BlockSize] == iv;
    CopyInto(buf, BlockSize, stream[..|plain|]);
    assert buf[..BlockSize + |plain|] == iv + stream[..|plain|];
    CopyInto(buf, BlockSize + |plain|, stream[|plain|..]);
    assert buf[..] == iv + stream[..|plain|] + stream[|plain|..];
    assert stream[..|plain|] + stream[|plain|..] == stream;
    assert buf[..] == Seal(p, key, iv, plain);
    r := Ok(p.b64Encode(buf[..]));
  }

  /**
   * Whether `decrypt` can run without a slice panic: once the key is
   * accepted, the decoded text is either shorter than one block or long
   * enough to hold IV and digest.
   */
  predicate DecryptDefined(p: Primitives, key: Bytes, text: string) {
    ValidAesKey(key) ==> |p.b64Decode(text)| < BlockSize || |p.b64Decode(text)| >= BlockSize + DigestSize
  }

  /** What `decrypt` recovers before the digest check: the message and its trailing 32 bytes. */
  function Opened(p: Primitives, key: Bytes, c: Bytes): (r: (Bytes, Bytes))
    requires |c| >= BlockSize + DigestSize
    ensures |r.0| == |c| - BlockSize - DigestSize && |r.1| == DigestSize
  {
    var body := CfbDecrypt(p, key, c[..BlockSize], c[BlockSize..]);
    (body[..|body| - DigestSize], body[|body| - DigestSize..])
  }

  /**
   * `decrypt(key, text)`. A base64 error is ignored; a key AES refuses is an
   * error; decoded text shorter than one block yields an empty message with
   * no error; otherwise the message is returned only when the SHA-256 of the
   * decrypted message equals the decrypted trailing 32 bytes.
   */
  function Decrypt(p: Primitives, key: Bytes, text: string): (r: Result<Bytes>)
    requires DecryptDefined(p, key, text)
  {
    var c := p.b64Decode(text);
    if !ValidAesKey(key) then Err(KeySizeError(|key|))
    else if |c| < BlockSize then Ok([])
    else
      var (msg, tag) := Opened(p, key, c);
      if p.sha256(msg) != tag then Err(SignatureError) else Ok(msg)
  }

  /** `decrypt(key, encrypt(key, p)) == p`. */
  lemma DecryptSeal(p: Primitives, key: Bytes, iv: Block, plain: Bytes)
    requires Base64RoundTrip(p) && ValidAesKey(key)
    ensures DecryptDefined(p, key, p.b64Encode(Seal(p, key, iv, plain)))
    ensures Decrypt(p, key, p.b64Encode(Seal(p, key, iv, plain))) == Ok(plain)
  {
    var s := Seal(p, key, iv, plain);
    var sha := p.sha256(plain);
    assert p.b64Decode(p.b64Encode(s)) == s;
    assert s[..BlockSize] == iv && s[BlockSize..] == CfbEncrypt(p, key, iv, plain + sha);
    CfbRoundTrip(p, key, iv, plain + sha);
    assert (plain + sha)[..|plain|] == plain;
  }

  /**
   * With an accepted key and text long enough to hold a digest, `decrypt`
   * succeeds exactly when the recomputed digest matches, and then returns
   * the decrypted message.
   */
  lemma DecryptChecksDigest(p: Primitives, key: Bytes, text: string)
    requires ValidAesKey(key) && |p.b64Decode(text)| >= BlockSize + DigestSize
    ensures var (msg, tag) := Opened(p, key, p.b64Decode(text));
      (Decrypt(p, key, text).Ok? <==> p.sha256(msg) == tag)
      && (Decrypt(p, key, text).Ok? ==> Decrypt(p, key, text).value == msg)
      && (Decrypt(p, key, text).Err? ==> Decrypt(p, key, text).msg == SignatureError)
  {
  }

  /** Decoded text shorter than one block opens to an empty message without an error. */
  lemma DecryptShortText(p: Primitives, key: Bytes, text: string)
    requires ValidAesKey(key) && |p.b64Decode(text)| < BlockSize
    ensures Decrypt(p, key, text) == Ok([])
  {
  }

  /** A refused key is reported whatever the text. */
  lemma DecryptBadKey(p: Primitives, key: Bytes, text: string)
    requires !ValidAesKey(key)
    ensures Decrypt(p, key, text) == Err(KeySizeError(|key|))
  {
  }
}
