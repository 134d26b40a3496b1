/**
 * Symbolic models of the two cryptographic primitives the server uses.
 *
 * The algorithms themselves (HS512 JSON Web Tokens, AES-256-GCM) are not
 * modelled. A token or a ciphertext is a term that records how it was made;
 * verification and decryption succeed exactly when the term was made with
 * the key that is presented. This is the usual Dolev-Yao reading: nobody can
 * produce a signed term or a ciphertext for a key they do not hold, so a
 * forged or tampered value is simply a different term.
 */
module Crypto {
  import opened Wrappers

  // ---------------------------------------------------------------------
  // HMAC keys and the signed `state` token

  /** A 512-bit HMAC key from crypto.generateKey('hmac'); only its identity matters. */
  datatype HmacKey = HmacKey(id: nat)

  /** The login `state` payload `{ts, ip, ua}`; `ua` is undefined when the request had no User-Agent. */
  datatype StatePayload = StatePayload(ts: int, ip: string, ua: Option<string>)

  /**
   * A value presented as a JSON Web Token: either one produced by `Sign`
   * (payload, signing key, issued-at and expiry in seconds) or any other text.
   */
  datatype Jwt =
    | Signed(payload: StatePayload, key: HmacKey, iat: int, exp: int)
    | Forged(text: string)

  /** jwt.sign(payload, key, {expiresIn}) at clock second `nowSec`. */
  function Sign(payload: StatePayload, key: HmacKey, nowSec: int, expiresIn: nat): (t: Jwt)
    ensures t.Signed? && t.payload == payload && t.key == key
    ensures t.exp - t.iat == expiresIn
  {
    Signed(payload, key, nowSec, nowSec + expiresIn)
  }

  /**
   * jwt.verify(token, key, {maxAge}) at clock second `nowSec`: the token must
   * be present, signed with `key`, not past its `exp`, and younger than
   * `maxAge` seconds; anything else throws (None here).
   */
  function Verify(token: Option<Jwt>, key: HmacKey, nowSec: int, maxAge: nat): Option<StatePayload> {
    match token
    case Some(Signed(p, k, iat, exp)) =>
      if k == key && nowSec < exp && nowSec < iat + maxAge then Some(p) else None
    case _ => None
  }

  /** Verification gives back the payload exactly when the token was signed with that key and is still fresh. */
  lemma VerifySign(payload: StatePayload, signer: HmacKey, key: HmacKey, iatSec: int, expiresIn: nat, nowSec: int, maxAge: nat)
    ensures Verify(Some(Sign(payload, signer, iatSec, expiresIn)), key, nowSec, maxAge)
         == if key == signer && nowSec < iatSec + expiresIn && nowSec < iatSec + maxAge then Some(payload) else None
  {
  }

  /** Whatever verifies came from `Sign` with that very key. */
  lemma VerifyOnlySigned(token: Option<Jwt>, key: HmacKey, nowSec: int, maxAge: nat)
    requires Verify(token, key, nowSec, maxAge).Some?
    ensures token.Some? && token.value.Signed? && token.value.key == key
    ensures Verify(token, key, nowSec, maxAge).value == token.value.payload
    ensures nowSec < token.value.iat + maxAge
  {
  }

  // ---------------------------------------------------------------------
  // AES-256-GCM for the stored refresh token

  /** The 32-byte refresh-token encryption key (a secret). */
  datatype AesKey = AesKey(id: nat)

  /** A 16-byte random initialisation vector (crypto.randomBytes(16)). */
  datatype Iv = Iv(id: nat)

  datatype CipherText = CipherText(key: AesKey, iv: Iv, plain: string)

  datatype AuthTag = AuthTag(key: AesKey, iv: Iv, plain: string)

  /** The triple aesEncrypt returns: `{iv, cipherText, authTag}`. */
  datatype Sealed = Sealed(iv: Iv, cipherText: CipherText, authTag: AuthTag)

  /** aesEncrypt(plaintext, key) with the random `iv` made a parameter. */
  function Encrypt(plain: string, key: AesKey, iv: Iv): (s: Sealed)
    ensures s.iv == iv
  {
    Sealed(iv, CipherText(key, iv, plain), AuthTag(key, iv, plain))
  }

  /** aesDecrypt: the plaintext, or None where decipher.final throws because the tag does not check. */
  function Decrypt(c: CipherText, key: AesKey, iv: Iv, tag: AuthTag): Option<string> {
    if c.key == key && c.iv == iv && tag == AuthTag(key, iv, c.plain) then Some(c.plain) else None
  }

  /**
   * Decrypting what was encrypted, with the same key, iv and tag, gives the
   * plaintext back; any other key, iv or tag fails.
   */
  lemma DecryptEncrypt(plain: string, key: AesKey, iv: Iv)
    ensures var s := Encrypt(plain, key, iv);
            Decrypt(s.cipherText, key, s.iv, s.authTag) == Some(plain)
    ensures forall k, v, t :: Decrypt(Encrypt(plain, key, iv).cipherText, k, v, t).Some? ==>
              k == key && v == iv && t == Encrypt(plain, key, iv).authTag
  {
  }

  /**
   * Decryption fails closed: whatever decrypts is exactly the output of
   * `Encrypt` for that plaintext, key and iv, so any other ciphertext or tag
   * (a tampered one) is rejected instead of yielding altered plaintext.
   */
  lemma DecryptOnlyGenuine(c: CipherText, key: AesKey, iv: Iv, tag: AuthTag)
    requires Decrypt(c, key, iv, tag).Some?
    ensures Encrypt(Decrypt(c, key, iv, tag).value, key, iv) == Sealed(iv, c, tag)
  {
  }
}
