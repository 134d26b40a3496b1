/**
 * The OAuth2 `state` parameter of the server (Server/server.js): the pair of
 * HMAC keys rotated every ten minutes, the signed `{ts, ip, ua}` payload the
 * login route issues, and the verification the callback performs with a
 * `reduceRight` over both keys.
 *
 * Clocks are parameters: `nowMs` is `Date.now()`; jsonwebtoken works in whole
 * seconds, `nowMs / 1000`.
 */
module OAuthState {
  import opened Wrappers
  import opened Text
  import opened Crypto

  /** `expiresIn` given to jwt.sign on login: nine minutes. */
  const SIGN_EXPIRES_IN: nat := 9 * 60
  /** `maxAge` given to jwt.verify in the callback: three minutes. */
  const VERIFY_MAX_AGE: nat := 3 * 60
  /** The rotation period of the key pair, in milliseconds. */
  const ROTATION_PERIOD_MS: nat := 600000

  /** The whole-second clock jsonwebtoken uses. */
  function Seconds(nowMs: int): int {
    nowMs / 1000
  }

  /**
   * The key pair after one rotation: slot 1 moves to slot 0 and the fresh key
   * takes slot 1; when key generation fails the pair stays as it was.
   */
  function Rotated(keys: seq<HmacKey>, generated: Option<HmacKey>): (r: seq<HmacKey>)
    requires |keys| == 2
    ensures |r| == 2
    ensures generated.None? ==> r == keys
    ensures generated.Some? ==> r[0] == keys[1] && r[1] == generated.value
  {
    match generated
    case None => keys
    case Some(key) => [keys[1], key]
  }

  /** `gauthHmacKey`: the array of the two current HMAC keys, oldest first. */
  class KeyPair {
    var keys: seq<HmacKey>

    ghost predicate Valid()
      reads this
    {
      |keys| == 2
    }

    /** The two keys generated at start-up, in the order their callbacks pushed them. */
    constructor (first: HmacKey, second: HmacKey)
      ensures Valid() && keys == [first, second]
    {
      keys := [first, second];
    }

    /** The key new state tokens are signed with: the last slot. */
    function Newest(): (k: HmacKey)
      reads this
      requires Valid()
      ensures k in keys
    {
      keys[|keys| - 1]
    }

    /** One tick of the ten-minute timer; `generated` is the key crypto.generateKey produced, None on error. */
    method Rotate(generated: Option<HmacKey>)
      requires Valid()
      modifies this
      ensures Valid()
      ensures keys == Rotated(old(keys), generated)
    {
      if generated.Some? {
        keys := [keys[1], generated.value];
      }
    }
  }

  // ---------------------------------------------------------------------
  // Issuing the state on login

  /** The state token the login route signs: `{ts: Date.now(), ip, ua}` under the newest key, valid nine minutes. */
  function IssueState(keys: seq<HmacKey>, nowMs: int, ip: string, ua: Option<string>): (t: Jwt)
    requires |keys| >= 1
    ensures t.Signed? && t.payload == StatePayload(nowMs, ip, ua)
    ensures t.key == keys[|keys| - 1]
    ensures t.exp == Seconds(nowMs) + SIGN_EXPIRES_IN
  {
    Sign(StatePayload(nowMs, ip, ua), keys[|keys| - 1], Seconds(nowMs), SIGN_EXPIRES_IN)
  }

  /** AUTH_SCOPES: the four scopes joined by spaces. */
  const AUTH_SCOPES: string := Join(["openid",
                                     "https://www.googleapis.com/auth/userinfo.email",
                                     "https://www.googleapis.com/auth/userinfo.profile",
                                     "https://www.googleapis.com/auth/drive.file"], ' ')

  /** The query of the Google authorization URI the login route builds, in parameter order. */
  datatype AuthQuery = AuthQuery(
    clientId: string,
    redirectUri: string,
    responseType: string,
    accessType: string,
    scope: string,
    prompt: string,
    state: Jwt)

  function LoginQuery(keys: seq<HmacKey>, clientId: string, redirectUri: string, nowMs: int, ip: string, ua: Option<string>): (q: AuthQuery)
    requires |keys| >= 1
    ensures q.responseType == "code" && q.accessType == "offline" && q.prompt == "consent"
    ensures q.scope == AUTH_SCOPES && q.clientId == clientId && q.redirectUri == redirectUri
    ensures VerifyState(keys, Some(q.state), Seconds(nowMs)) == Some(StatePayload(nowMs, ip, ua))
  {
    var state := IssueState(keys, nowMs, ip, ua);
    FreshStateVerifies(keys, nowMs, ip, ua);
    AuthQuery(clientId, redirectUri, "code", "offline", AUTH_SCOPES, "consent", state)
  }

  /** `/login.html`, followed by `?` and the original query only when that query is not empty. */
  function LoginPageTarget(query: string): (target: string)
    ensures |target| >= 11 && target[..11] == "/login.html"
    ensures |target| == 11 <==> query == ""
    ensures query != "" ==> target[11] == '?' && target[12..] == query
  {
    "/login.html" + (if |query| > 0 then "?" else "") + query
  }

  // ---------------------------------------------------------------------
  // Verifying the state in the callback

  /**
   * `gauthHmacKey.reduceRight(...)` starting from null: the keys are tried
   * from the last to the first, each successful verification replacing the
   * accumulator and each failure keeping it, so the first key's result wins.
   */
  function VerifyState(keys: seq<HmacKey>, token: Option<Jwt>, nowSec: int): Option<StatePayload>
    decreases |keys|
  {
    if keys == [] then None
    else
      var acc := VerifyState(keys[1..], token, nowSec);
      var attempt := Verify(token, keys[0], nowSec, VERIFY_MAX_AGE);
      if attempt.Some? then attempt else acc
  }

  /**
   * The fold gives a payload exactly when the token verifies under at least
   * one key, and the payload is then the one that was signed.
   */
  lemma {:induction false} VerifyStateSpec(keys: seq<HmacKey>, token: Option<Jwt>, nowSec: int)
    ensures VerifyState(keys, token, nowSec).Some?
        <==> exists i :: 0 <= i < |keys| && Verify(token, keys[i], nowSec, VERIFY_MAX_AGE).Some?
    ensures VerifyState(keys, token, nowSec).Some? ==>
              token.Some? && token.value.Signed? && token.value.key in keys &&
              VerifyState(keys, token, nowSec).value == token.value.payload
    decreases |keys|
  {
    if keys != [] {
      VerifyStateSpec(keys[1..], token, nowSec);
      var attempt := Verify(token, keys[0], nowSec, VERIFY_MAX_AGE);
      if attempt.Some? {
        VerifyOnlySigned(token, keys[0], nowSec, VERIFY_MAX_AGE);
      } else {
        if VerifyState(keys, token, nowSec).Some? {
          var i :| 0 <= i < |keys[1..]| && Verify(token, keys[1..][i], nowSec, VERIFY_MAX_AGE).Some?;
          assert keys[i + 1] == keys[1..][i];
        }
        if exists i :: 0 <= i < |keys| && Verify(token, keys[i], nowSec, VERIFY_MAX_AGE).Some? {
          var i :| 0 <= i < |keys| && Verify(token, keys[i], nowSec, VERIFY_MAX_AGE).Some?;
          assert i != 0;
          assert keys[1..][i - 1] == keys[i];
        }
      }
    }
  }

  /** A state verifies when it was signed with a key of the pair, is not expired and is younger than three minutes. */
  lemma StateAccepted(keys: seq<HmacKey>, token: Jwt, nowSec: int)
    requires token.Signed? && token.key in keys
    requires nowSec < token.exp && nowSec < token.iat + VERIFY_MAX_AGE
    ensures VerifyState(keys, Some(token), nowSec) == Some(token.payload)
  {
    var i :| 0 <= i < |keys| && keys[i] == token.key;
    assert Verify(Some(token), keys[i], nowSec, VERIFY_MAX_AGE).Some?;
    VerifyStateSpec(keys, Some(token), nowSec);
  }

  /** A state is refused once three minutes have passed since it was issued, under any keys. */
  lemma StaleStateRejected(keys: seq<HmacKey>, token: Jwt, nowSec: int)
    requires token.Signed? && nowSec >= token.iat + VERIFY_MAX_AGE
    ensures VerifyState(keys, Some(token), nowSec) == None
  {
    VerifyStateSpec(keys, Some(token), nowSec);
  }

  /** A state signed with a key outside the pair, or not produced by jwt.sign, is refused. */
  lemma ForeignStateRejected(keys: seq<HmacKey>, token: Jwt, nowSec: int)
    requires token.Forged? || token.key !in keys
    ensures VerifyState(keys, Some(token), nowSec) == None
  {
    VerifyStateSpec(keys, Some(token), nowSec);
  }

  /** A state checked in the same second it was issued verifies to the payload that was signed. */
  lemma FreshStateVerifies(keys: seq<HmacKey>, nowMs: int, ip: string, ua: Option<string>)
    requires |keys| >= 1
    ensures VerifyState(keys, Some(IssueState(keys, nowMs, ip, ua)), Seconds(nowMs)) == Some(StatePayload(nowMs, ip, ua))
  {
    StateAccepted(keys, IssueState(keys, nowMs, ip, ua), Seconds(nowMs));
  }

  /** A state issued just before a rotation still verifies after it, for the rest of its three minutes. */
  lemma StateSurvivesOneRotation(keys: seq<HmacKey>, generated: Option<HmacKey>, issuedMs: int, nowSec: int, ip: string, ua: Option<string>)
    requires |keys| == 2
    requires Seconds(issuedMs) <= nowSec < Seconds(issuedMs) + VERIFY_MAX_AGE
    ensures VerifyState(Rotated(keys, generated), Some(IssueState(keys, issuedMs, ip, ua)), nowSec)
         == Some(StatePayload(issuedMs, ip, ua))
  {
    var token := IssueState(keys, issuedMs, ip, ua);
    assert token.key in Rotated(keys, generated);
    StateAccepted(Rotated(keys, generated), token, nowSec);
  }

  /** After two successful rotations with keys other than the signer, a state issued before them is refused. */
  lemma StateDiesAfterTwoRotations(keys: seq<HmacKey>, g1: HmacKey, g2: HmacKey, issuedMs: int, nowSec: int, ip: string, ua: Option<string>)
    requires |keys| == 2
    requires g1 != keys[1] && g2 != keys[1]
    ensures VerifyState(Rotated(Rotated(keys, Some(g1)), Some(g2)), Some(IssueState(keys, issuedMs, ip, ua)), nowSec) == None
  {
    var after := Rotated(Rotated(keys, Some(g1)), Some(g2));
    assert after == [g1, g2];
    ForeignStateRejected(after, IssueState(keys, issuedMs, ip, ua), nowSec);
  }

  /** The callback's binding check: the verified payload must carry the caller's ip and User-Agent (both absent counts as equal). */
  predicate StateMatches(payload: Option<StatePayload>, ip: string, ua: Option<string>) {
    payload.Some? && payload.value.ip == ip && payload.value.ua == ua
  }

  /** A state issued to one client is refused to a request with another ip or User-Agent. */
  lemma StateBoundToClient(keys: seq<HmacKey>, issuedMs: int, nowSec: int, ip: string, ua: Option<string>, ip2: string, ua2: Option<string>)
    requires |keys| >= 1
    ensures StateMatches(VerifyState(keys, Some(IssueState(keys, issuedMs, ip, ua)), nowSec), ip2, ua2)
        ==> ip2 == ip && ua2 == ua && nowSec < Seconds(issuedMs) + VERIFY_MAX_AGE
  {
    var token := IssueState(keys, issuedMs, ip, ua);
    VerifyStateSpec(keys, Some(token), nowSec);
    if VerifyState(keys, Some(token), nowSec).Some? {
      var i :| 0 <= i < |keys| && Verify(Some(token), keys[i], nowSec, VERIFY_MAX_AGE).Some?;
      VerifyOnlySigned(Some(token), keys[i], nowSec, VERIFY_MAX_AGE);
    }
  }

  /** A driver of the key pair: the state issued now survives the next tick and is gone after two successful ones. */
  method RotationLifetime(first: HmacKey, second: HmacKey, g1: HmacKey, g2: HmacKey, issuedMs: int, ip: string, ua: Option<string>)
      returns (afterOne: Option<StatePayload>, afterTwo: Option<StatePayload>)
    requires g1 != second && g2 != second
    ensures afterOne == Some(StatePayload(issuedMs, ip, ua))
    ensures afterTwo == None
  {
    var pair := new KeyPair(first, second);
    var state := IssueState(pair.keys, issuedMs, ip, ua);
    var keys0 := pair.keys;
    pair.Rotate(Some(g1));
    StateSurvivesOneRotation(keys0, Some(g1), issuedMs, Seconds(issuedMs), ip, ua);
    afterOne := VerifyState(pair.keys, Some(state), Seconds(issuedMs));
    pair.Rotate(Some(g2));
    StateDiesAfterTwoRotations(keys0, g1, g2, issuedMs, Seconds(issuedMs), ip, ua);
    afterTwo := VerifyState(pair.keys, Some(state), Seconds(issuedMs));
  }
}
