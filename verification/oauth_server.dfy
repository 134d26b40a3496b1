/**
 * The request handlers of the server (Server/server.js): the OAuth2 redirect
 * callback, the user-record update it schedules, `/oauth/google/access_token`
 * and `/api/v1/transaction`.
 *
 * Everything a handler awaits from the outside world is a parameter: the
 * token endpoint's JSON answer, the stored user document, the refresh grant,
 * whether the Sheets append reported an error, and the clock. A handler's
 * result records the HTTP answer and the calls it made.
 */
module OAuthServer {
  import opened Wrappers
  import opened Text
  import opened Crypto
  import opened OAuthState
  import SheetsApi

  /** How a handler ends. `Threw` is an exception escaping the async handler: no answer is sent. */
  datatype Reply =
    | Status(code: int)
    | Redirect(code: int, target: Target)
    | Threw

  datatype Target =
    | LoginWithQuery   // '/login?' + the callback's own query string
    | IndexHtml        // '/index.html'

  // ---------------------------------------------------------------------
  // The OAuth2 callback

  /**
   * The `id_token` field of the token endpoint's answer: a JWT whose payload
   * may carry an `email` claim, or text that is not a JWT.
   */
  datatype IdToken = IdJwt(email: Option<string>) | Opaque(text: string)

  /** The JSON the token endpoint answers with; an error answer has none of these fields. */
  datatype TokenResponse = TokenResponse(
    accessToken: Option<string>,
    idToken: Option<IdToken>,
    refreshToken: Option<string>,
    expiresIn: Option<int>)

  /** What the callback reads from the request. */
  datatype CallbackRequest = CallbackRequest(
    error: Option<string>,
    state: Option<Jwt>,
    code: Option<string>,
    ip: string,
    userAgent: Option<string>)

  /**
   * The two session cookies, with the same `maxAge`. `res.cookie` stores
   * `String(value)`, so a missing access token is stored as the text
   * "undefined".
   */
  datatype SessionCookies = SessionCookies(accessToken: string, idToken: Option<IdToken>, maxAgeMs: int)

  /** The record write the callback schedules after answering: user `email` gets `refreshToken` at time `now`. */
  datatype LoginWrite = LoginWrite(email: string, refreshToken: string, now: int)

  datatype CallbackOutcome = CallbackOutcome(
    reply: Reply,
    exchangedCode: bool,         // the authorization code was posted to the token endpoint
    write: Option<LoginWrite>,
    cookies: Option<SessionCookies>)

  /**
   * `jwt.decode(response?.id_token ?? "").email`: None where decode returns
   * null (a missing or non-JWT id_token), so that reading `.email` throws.
   */
  function DecodedEmail(idToken: Option<IdToken>): (r: Option<Option<string>>)
    ensures r.Some? <==> idToken.Some? && idToken.value.IdJwt?
  {
    match idToken
    case Some(IdJwt(email)) => Some(email)
    case _ => None
  }

  /** `1000 * (expires_in - 10)`: the cookies expire ten seconds before the access token does. */
  function CookieMaxAge(expiresIn: Option<int>): (ms: Option<int>)
    ensures ms.Some? <==> expiresIn.Some?
    ensures ms.Some? ==> ms.value + 10000 == 1000 * expiresIn.value
  {
    match expiresIn
    case Some(e) => Some(1000 * (e - 10))
    case None => None
  }

  /**
   * The callback from line 131 on: the state check, the code exchange, the
   * email and refresh-token guards, the scheduled write and the cookies.
   * `response` is what the token endpoint answers to the exchange. Without
   * `expires_in` the cookie's `maxAge` is NaN, which `res.cookie` rejects by
   * throwing: the write is already scheduled, but no cookie and no 307 go out.
   */
  function CallbackChain(keys: seq<HmacKey>, req: CallbackRequest, nowMs: int, response: TokenResponse): CallbackOutcome {
    var payload := VerifyState(keys, req.state, Seconds(nowMs));
    if !StateMatches(payload, req.ip, req.userAgent) then
      CallbackOutcome(Status(401), false, None, None)
    else
      match DecodedEmail(response.idToken)
      case None => CallbackOutcome(Threw, true, None, None)
      case Some(email) =>
        if !Truthy(email) then CallbackOutcome(Status(401), true, None, None)
        else if !Truthy(response.refreshToken) then CallbackOutcome(Status(401), true, None, None)
        else
          var write := LoginWrite(email.value, response.refreshToken.value, nowMs);
          match CookieMaxAge(response.expiresIn)
          case None => CallbackOutcome(Threw, true, Some(write), None)
          case Some(maxAge) =>
            CallbackOutcome(
              Redirect(307, IndexHtml), true, Some(write),
              Some(SessionCookies(response.accessToken.GetOr("undefined"), response.idToken, maxAge)))
  }

  /**
   * The whole callback. An `error` parameter sends the 307 to the login page
   * but does not return: the chain still runs, and whatever it tries to send
   * afterwards throws because the answer is already out, so no cookie is set
   * while the scheduled write, if any, still happens.
   */
  function Callback(keys: seq<HmacKey>, req: CallbackRequest, nowMs: int, response: TokenResponse): (out: CallbackOutcome)
    ensures Truthy(req.error) ==> out.reply == Redirect(307, LoginWithQuery) && out.cookies.None?
    ensures !Truthy(req.error) ==> out == CallbackChain(keys, req, nowMs, response)
    ensures out.write == CallbackChain(keys, req, nowMs, response).write
  {
    var chain := CallbackChain(keys, req, nowMs, response);
    if Truthy(req.error) then chain.(reply := Redirect(307, LoginWithQuery), cookies := None)
    else chain
  }

  /**
   * The callback logs the user in exactly when there is no error, the state
   * is bound to the caller, and the answer carries an email, a refresh token
   * and an `expires_in`.
   */
  lemma CallbackSucceedsExactly(keys: seq<HmacKey>, req: CallbackRequest, nowMs: int, response: TokenResponse)
    ensures Callback(keys, req, nowMs, response).reply == Redirect(307, IndexHtml)
        <==> !Truthy(req.error) && StateMatches(VerifyState(keys, req.state, Seconds(nowMs)), req.ip, req.userAgent)
             && DecodedEmail(response.idToken).Some? && Truthy(DecodedEmail(response.idToken).value)
             && Truthy(response.refreshToken) && response.expiresIn.Some?
  {
  }

  /** An answer without `expires_in` passes every guard yet throws at the first cookie: the write is scheduled, no cookie is set and no redirect is sent. */
  lemma MissingExpiryThrows(keys: seq<HmacKey>, req: CallbackRequest, nowMs: int, response: TokenResponse)
    requires !Truthy(req.error) && StateMatches(VerifyState(keys, req.state, Seconds(nowMs)), req.ip, req.userAgent)
    requires DecodedEmail(response.idToken).Some? && Truthy(DecodedEmail(response.idToken).value)
    requires Truthy(response.refreshToken) && response.expiresIn.None?
    ensures var out := Callback(keys, req, nowMs, response);
            out.reply == Threw && out.cookies.None?
            && out.write == Some(LoginWrite(DecodedEmail(response.idToken).value.value, response.refreshToken.value, nowMs))
  {
  }

  /** A state that does not verify, or was issued to another ip or User-Agent, is answered 401 before the code is exchanged. */
  lemma CallbackRejectsBadState(keys: seq<HmacKey>, req: CallbackRequest, nowMs: int, response: TokenResponse)
    requires !Truthy(req.error)
    requires !StateMatches(VerifyState(keys, req.state, Seconds(nowMs)), req.ip, req.userAgent)
    ensures Callback(keys, req, nowMs, response) == CallbackOutcome(Status(401), false, None, None)
  {
  }

  /** Nothing is written unless the state, the email and the refresh token all checked out, and then the written token is the one received. */
  lemma CallbackWritesOnlyAfterGuards(keys: seq<HmacKey>, req: CallbackRequest, nowMs: int, response: TokenResponse)
    ensures var out := Callback(keys, req, nowMs, response);
            out.write.Some? ==>
              StateMatches(VerifyState(keys, req.state, Seconds(nowMs)), req.ip, req.userAgent)
              && out.exchangedCode
              && DecodedEmail(response.idToken) == Some(Some(out.write.value.email)) && out.write.value.email != ""
              && response.refreshToken == Some(out.write.value.refreshToken) && out.write.value.refreshToken != ""
              && out.write.value.now == nowMs
  {
  }

  /** A login started from a client completes when its callback arrives within three minutes from the same client. */
  lemma LoginRoundTrip(keys: seq<HmacKey>, issuedMs: int, nowMs: int, ip: string, ua: Option<string>,
                       code: Option<string>, response: TokenResponse, email: string, refreshToken: string)
    requires |keys| >= 1
    requires Seconds(issuedMs) <= Seconds(nowMs) < Seconds(issuedMs) + VERIFY_MAX_AGE
    requires response.idToken == Some(IdJwt(Some(email))) && email != ""
    requires response.refreshToken == Some(refreshToken) && refreshToken != ""
    requires response.expiresIn.Some?
    ensures var req := CallbackRequest(None, Some(IssueState(keys, issuedMs, ip, ua)), code, ip, ua);
            var out := Callback(keys, req, nowMs, response);
            out.reply == Redirect(307, IndexHtml) && out.write == Some(LoginWrite(email, refreshToken, nowMs))
            && out.cookies == Some(SessionCookies(response.accessToken.GetOr("undefined"), response.idToken,
                                                  1000 * (response.expiresIn.value - 10)))
  {
    var token := IssueState(keys, issuedMs, ip, ua);
    assert token.key in keys;
    StateAccepted(keys, token, Seconds(nowMs));
  }

  /** An error parameter still answers with the login redirect, yet a valid rest of the request still schedules the write. */
  lemma ErrorDoesNotStopTheChain(keys: seq<HmacKey>, issuedMs: int, ip: string, ua: Option<string>, error: string,
                                  response: TokenResponse, email: string, refreshToken: string)
    requires |keys| >= 1 && error != ""
    requires response.idToken == Some(IdJwt(Some(email))) && email != ""
    requires response.refreshToken == Some(refreshToken) && refreshToken != ""
    ensures var req := CallbackRequest(Some(error), Some(IssueState(keys, issuedMs, ip, ua)), None, ip, ua);
            var out := Callback(keys, req, issuedMs, response);
            out.reply == Redirect(307, LoginWithQuery) && out.write == Some(LoginWrite(email, refreshToken, issuedMs))
  {
    FreshStateVerifies(keys, issuedMs, ip, ua);
  }

  // ---------------------------------------------------------------------
  // The user record in the `users` collection

  /** One entry of `auth.access_tokens`. */
  datatype AccessTokenEntry = AccessTokenEntry(token: string)

  /** `auth` of a user document; the refresh-token fields are absent until a login stores one. */
  datatype AuthFields = AuthFields(
    accessTokens: seq<AccessTokenEntry>,
    refreshToken: Option<CipherText>,
    refreshTokenIv: Option<Iv>,
    refreshTokenAuthTag: Option<AuthTag>,
    refreshTokenT: Option<int>)

  datatype UserDoc = UserDoc(auth: AuthFields, registerTime: Option<int>, version: Option<string>)

  /** The document a first login starts from. */
  function NewUserDoc(now: int): (d: UserDoc)
    ensures d.auth.accessTokens == [] && d.registerTime == Some(now) && d.version == Some("1")
    ensures d.auth.refreshToken.None? && d.auth.refreshTokenIv.None? && d.auth.refreshTokenAuthTag.None? && d.auth.refreshTokenT.None?
  {
    UserDoc(AuthFields([], None, None, None, None), Some(now), Some("1"))
  }

  /**
   * The effect of the callback's `update` on a document: with a truthy refresh
   * token, its encryption (under a fresh `iv`) and the time replace the four
   * refresh-token fields; nothing else changes.
   */
  function UpdatedDoc(d: UserDoc, refreshToken: Option<string>, key: AesKey, iv: Iv, now: int): (r: UserDoc)
    ensures r.registerTime == d.registerTime && r.version == d.version && r.auth.accessTokens == d.auth.accessTokens
    ensures !Truthy(refreshToken) ==> r == d
    ensures Truthy(refreshToken) ==>
              r.auth.refreshToken.Some? && r.auth.refreshTokenIv == Some(iv) && r.auth.refreshTokenAuthTag.Some?
              && r.auth.refreshTokenT == Some(now)
              && Decrypt(r.auth.refreshToken.value, key, iv, r.auth.refreshTokenAuthTag.value) == refreshToken
  {
    if Truthy(refreshToken) then
      var sealed := Encrypt(refreshToken.value, key, iv);
      DecryptEncrypt(refreshToken.value, key, iv);
      d.(auth := d.auth.(refreshToken := Some(sealed.cipherText), refreshTokenIv := Some(sealed.iv),
                         refreshTokenAuthTag := Some(sealed.authTag), refreshTokenT := Some(now)))
    else d
  }

  /** The `data` object the callback fills in and hands to `docRef.set`. */
  class UserData {
    var accessTokens: seq<AccessTokenEntry>
    var refreshToken: Option<CipherText>
    var refreshTokenIv: Option<Iv>
    var refreshTokenAuthTag: Option<AuthTag>
    var refreshTokenT: Option<int>
    var registerTime: Option<int>
    var version: Option<string>

    function Snapshot(): UserDoc
      reads this
    {
      UserDoc(AuthFields(accessTokens, refreshToken, refreshTokenIv, refreshTokenAuthTag, refreshTokenT), registerTime, version)
    }

    /** `doc.data()` of a stored document. */
    constructor FromDoc(d: UserDoc)
      ensures Snapshot() == d
    {
      accessTokens := d.auth.accessTokens;
      refreshToken := d.auth.refreshToken;
      refreshTokenIv := d.auth.refreshTokenIv;
      refreshTokenAuthTag := d.auth.refreshTokenAuthTag;
      refreshTokenT := d.auth.refreshTokenT;
      registerTime := d.registerTime;
      version := d.version;
    }

    /** `update(data)`: encrypts the refresh token into the four auth fields, when it is truthy. */
    method Update(newRefreshToken: Option<string>, key: AesKey, iv: Iv, now: int)
      modifies this
      ensures Snapshot() == UpdatedDoc(old(Snapshot()), newRefreshToken, key, iv, now)
    {
      if Truthy(newRefreshToken) {
        var sealed := Encrypt(newRefreshToken.value, key, iv);
        refreshToken := Some(sealed.cipherText);
        refreshTokenIv := Some(sealed.iv);
        refreshTokenAuthTag := Some(sealed.authTag);
        refreshTokenT := Some(now);
      }
    }
  }

  /** The calls the scheduled write makes, in order. */
  datatype StoreCall =
    | Revoke(token: Option<CipherText>)   // revokeToken(data.auth.refresh_token)
    | DocSet(email: string, doc: UserDoc)

  /**
   * The write scheduled by the callback: an existing user's stored refresh
   * token is revoked first and the updated document set afterwards; a new
   * user gets a fresh document. The revoke receives the stored ciphertext, not
   * the token it encrypts.
   */
  method PersistLogin(stored: Option<UserDoc>, write: LoginWrite, key: AesKey, iv: Iv) returns (calls: seq<StoreCall>)
    ensures stored.None? ==> calls == [DocSet(write.email, UpdatedDoc(NewUserDoc(write.now), Some(write.refreshToken), key, iv, write.now))]
    ensures stored.Some? ==> calls == [Revoke(stored.value.auth.refreshToken),
                                       DocSet(write.email, UpdatedDoc(stored.value, Some(write.refreshToken), key, iv, write.now))]
  {
    var data := new UserData.FromDoc(NewUserDoc(write.now));
    calls := [];
    if stored.Some? {
      data := new UserData.FromDoc(stored.value);
      calls := calls + [Revoke(data.refreshToken)];
    }
    data.Update(Some(write.refreshToken), key, iv, write.now);
    calls := calls + [DocSet(write.email, data.Snapshot())];
  }

  /** The document the write sets: the effect `PersistLogin` ends with. */
  function PersistedDoc(stored: Option<UserDoc>, write: LoginWrite, key: AesKey, iv: Iv): UserDoc {
    UpdatedDoc(if stored.Some? then stored.value else NewUserDoc(write.now), Some(write.refreshToken), key, iv, write.now)
  }

  /**
   * After a login the stored fields decrypt to the refresh token received;
   * the access tokens, registration time and version are those of the stored
   * document (empty, the login time and "1" for a new user).
   */
  lemma PersistedDocSpec(stored: Option<UserDoc>, write: LoginWrite, key: AesKey, iv: Iv)
    requires write.refreshToken != ""
    ensures var d := PersistedDoc(stored, write, key, iv);
            d.auth.refreshToken.Some? && d.auth.refreshTokenIv == Some(iv) && d.auth.refreshTokenAuthTag.Some?
            && Decrypt(d.auth.refreshToken.value, key, iv, d.auth.refreshTokenAuthTag.value) == Some(write.refreshToken)
            && d.auth.refreshTokenT == Some(write.now)
            && (stored.Some? ==> d.auth.accessTokens == stored.value.auth.accessTokens
                                 && d.registerTime == stored.value.registerTime && d.version == stored.value.version)
            && (stored.None? ==> d.auth.accessTokens == [] && d.registerTime == Some(write.now) && d.version == Some("1"))
  {
  }

  // ---------------------------------------------------------------------
  // GET /oauth/google/access_token

  datatype AccessTokenReply = Token(accessToken: string) | Unauthorized

  /** The access-token cookie is returned as JSON when truthy; otherwise 401 with an error body. */
  function AccessTokenEndpoint(cookie: Option<string>): (r: AccessTokenReply)
    ensures r.Token? <==> Truthy(cookie)
    ensures r.Token? ==> Some(r.accessToken) == cookie
  {
    if Truthy(cookie) then Token(cookie.value) else Unauthorized
  }

  /**
   * After a successful callback, the endpoint hands back the access token
   * obtained from the exchange; an answer without one left the text
   * "undefined" in the cookie, which is handed back too, and an empty one
   * is refused.
   */
  lemma AccessTokenAfterLogin(keys: seq<HmacKey>, req: CallbackRequest, nowMs: int, response: TokenResponse)
    requires Callback(keys, req, nowMs, response).reply == Redirect(307, IndexHtml)
    ensures Callback(keys, req, nowMs, response).cookies.Some?
    ensures var cookie := Some(Callback(keys, req, nowMs, response).cookies.value.accessToken);
            (Truthy(response.accessToken) ==> AccessTokenEndpoint(cookie) == Token(response.accessToken.value))
            && (response.accessToken.None? ==> AccessTokenEndpoint(cookie) == Token("undefined"))
            && (response.accessToken == Some("") ==> AccessTokenEndpoint(cookie) == Unauthorized)
  {
  }

  // ---------------------------------------------------------------------
  // POST /api/v1/transaction

  /** `req.body.transaction`; any field may be missing. */
  datatype TransactionBody = TransactionBody(
    time: Option<string>,
    amount: Option<string>,
    category: Option<string>,
    name: Option<string>,
    merchant: Option<string>,
    paymentMethod: Option<string>,
    location: Option<string>,
    latitude: Option<string>,
    longitude: Option<string>,
    description: Option<string>)

  datatype TransactionRequest = TransactionRequest(
    authorization: Option<string>,
    email: Option<string>,
    transaction: Option<TransactionBody>,
    spreadsheetId: Option<string>)

  datatype TransactionOutcome = TransactionOutcome(
    reply: Reply,
    refreshedWith: Option<string>,              // the refresh token sent to the token endpoint
    append: Option<SheetsApi.AppendRequest>)    // the Sheets append that was sent

  /** A stored ciphertext is truthy when its hex text is not empty, that is when it encrypts a non-empty token. */
  predicate TruthyCipher(c: Option<CipherText>) {
    c.Some? && c.value.plain != ""
  }

  predicate HasAccessToken(entries: seq<AccessTokenEntry>, token: string) {
    exists k :: 0 <= k < |entries| && entries[k].token == token
  }

  /**
   * The row appended for a transaction, in schema order: the time text (the
   * body's own when truthy, else the current time), the amount reduced to
   * `[0-9.-]`, and the other eight fields as given.
   */
  function TransactionRow(t: TransactionBody, amount: string, nowText: string, timeText: string -> string): (row: seq<Option<string>>)
    ensures |row| == 10
    ensures row[0] == Some(if Truthy(t.time) then timeText(t.time.value) else nowText)
    ensures row[1] == Some(KeepOnly(amount, MONEY_CHARS))
    ensures row[2..] == [t.category, t.name, t.merchant, t.paymentMethod, t.location, t.latitude, t.longitude, t.description]
  {
    [Some(if Truthy(t.time) then timeText(t.time.value) else nowText), Some(KeepOnly(amount, MONEY_CHARS)),
     t.category, t.name, t.merchant, t.paymentMethod, t.location, t.latitude, t.longitude, t.description]
  }

  /**
   * The handler as a ladder. `stored` is the user document (None when it does
   * not exist), `refresh` the access token the refresh grant returns for a
   * refresh token, `appendFails` whether the append reported an error,
   * `nowText` and `timeText` the Date-to-string conversions.
   */
  function HandleTransaction(req: TransactionRequest, stored: Option<UserDoc>, key: AesKey,
                             refresh: string -> Option<string>, appendFails: bool,
                             nowText: string, timeText: string -> string): TransactionOutcome
  {
    if !Truthy(req.email) || !Truthy(req.authorization) || req.transaction.None? then
      TransactionOutcome(Status(400), None, None)
    else if stored.None? then
      TransactionOutcome(Status(403), None, None)
    else
      var auth := stored.value.auth;
      if !HasAccessToken(auth.accessTokens, req.authorization.value) then
        TransactionOutcome(Status(403), None, None)
      else if !TruthyCipher(auth.refreshToken) || auth.refreshTokenIv.None? then
        TransactionOutcome(Status(403), None, None)
      else if auth.refreshTokenAuthTag.None? then
        TransactionOutcome(Threw, None, None)              // Buffer.from(undefined) throws
      else
        match Decrypt(auth.refreshToken.value, key, auth.refreshTokenIv.value, auth.refreshTokenAuthTag.value)
        case None => TransactionOutcome(Threw, None, None)  // decipher.final rejects the tag
        case Some(refreshToken) =>
          var accessToken := refresh(refreshToken);
          if !Truthy(accessToken) then
            TransactionOutcome(Status(401), Some(refreshToken), None)
          else if req.transaction.value.amount.None? then
            TransactionOutcome(Threw, Some(refreshToken), None)   // undefined.replace throws
          else
            var t := req.transaction.value;
            var row := TransactionRow(t, t.amount.value, nowText, timeText);
            var append := SheetsApi.AddRow(accessToken.value, req.spreadsheetId.GetOr("undefined"), "transactions", row);
            TransactionOutcome(if appendFails then Status(500) else Status(200), Some(refreshToken), Some(append))
  }

  /**
   * The ladder's order: 400 exactly when an input is missing; with inputs
   * present, 403 for a missing document, an unknown access token or missing
   * refresh-token fields; the refresh grant only after those; the append
   * only after a truthy access token; 200 or 500 only from the append.
   */
  lemma TransactionLadder(req: TransactionRequest, stored: Option<UserDoc>, key: AesKey,
                          refresh: string -> Option<string>, appendFails: bool, nowText: string, timeText: string -> string)
    ensures var out := HandleTransaction(req, stored, key, refresh, appendFails, nowText, timeText);
            var inputs := Truthy(req.email) && Truthy(req.authorization) && req.transaction.Some?;
            (out.reply == Status(400) <==> !inputs)
            && (inputs && stored.None? ==> out.reply == Status(403))
            && (inputs && stored.Some? && !HasAccessToken(stored.value.auth.accessTokens, req.authorization.value) ==> out.reply == Status(403))
            && ((inputs && stored.Some? && HasAccessToken(stored.value.auth.accessTokens, req.authorization.value)
                 && (!TruthyCipher(stored.value.auth.refreshToken) || stored.value.auth.refreshTokenIv.None?))
                ==> out.reply == Status(403))
            && (out.refreshedWith.Some? ==>
                  inputs && stored.Some? && HasAccessToken(stored.value.auth.accessTokens, req.authorization.value)
                  && TruthyCipher(stored.value.auth.refreshToken) && stored.value.auth.refreshTokenIv.Some?
                  && stored.value.auth.refreshTokenAuthTag.Some?
                  && Decrypt(stored.value.auth.refreshToken.value, key, stored.value.auth.refreshTokenIv.value,
                             stored.value.auth.refreshTokenAuthTag.value) == out.refreshedWith)
            && (out.reply == Status(401) <==> out.refreshedWith.Some? && !Truthy(refresh(out.refreshedWith.value)))
            && (out.append.Some? <==> out.reply == Status(200) || out.reply == Status(500))
            && (out.append.Some? ==> out.refreshedWith.Some? && Some(out.append.value.accessToken) == refresh(out.refreshedWith.value)
                                     && (out.reply == Status(500) <==> appendFails))
  {
  }

  /**
   * The ladder's far end: with every guard passed, the stored refresh token
   * decrypting, the refresh grant answering an access token and an amount
   * present, the row is appended and the answer is 500 exactly when the
   * append reports an error, 200 otherwise.
   */
  lemma TransactionSucceeds(req: TransactionRequest, d: UserDoc, key: AesKey,
                            refresh: string -> Option<string>, appendFails: bool, nowText: string, timeText: string -> string)
    requires Truthy(req.email) && Truthy(req.authorization) && req.transaction.Some? && req.transaction.value.amount.Some?
    requires HasAccessToken(d.auth.accessTokens, req.authorization.value)
    requires TruthyCipher(d.auth.refreshToken) && d.auth.refreshTokenIv.Some? && d.auth.refreshTokenAuthTag.Some?
    requires Decrypt(d.auth.refreshToken.value, key, d.auth.refreshTokenIv.value, d.auth.refreshTokenAuthTag.value).Some?
    requires Truthy(refresh(Decrypt(d.auth.refreshToken.value, key, d.auth.refreshTokenIv.value, d.auth.refreshTokenAuthTag.value).value))
    ensures var out := HandleTransaction(req, Some(d), key, refresh, appendFails, nowText, timeText);
            out.append.Some? && out.reply == (if appendFails then Status(500) else Status(200))
            && out.refreshedWith == Decrypt(d.auth.refreshToken.value, key, d.auth.refreshTokenIv.value, d.auth.refreshTokenAuthTag.value)
  {
  }

  /** What a successful call appends: one ten-cell row into columns A:J of `transactions`, amount filtered. */
  lemma TransactionAppend(req: TransactionRequest, stored: Option<UserDoc>, key: AesKey,
                          refresh: string -> Option<string>, appendFails: bool, nowText: string, timeText: string -> string)
    ensures var out := HandleTransaction(req, stored, key, refresh, appendFails, nowText, timeText);
            out.append.Some? ==>
              var a := out.append.value;
              a.range == "'transactions'!A:J" && |a.values| == 1 && |a.values[0]| == 10
              && a.values[0][1] == Some(KeepOnly(req.transaction.value.amount.value, MONEY_CHARS))
              && a.spreadsheetId == req.spreadsheetId.GetOr("undefined")
  {
    var out := HandleTransaction(req, stored, key, refresh, appendFails, nowText, timeText);
    if out.append.Some? {
      var t := req.transaction.value;
      var row := TransactionRow(t, t.amount.value, nowText, timeText);
      var accessToken := out.append.value.accessToken;
      assert out.append.value == SheetsApi.AddRow(accessToken, req.spreadsheetId.GetOr("undefined"), "transactions", row);
      SheetsApi.TenColumnRange("transactions");
    }
  }

  /**
   * The document a first login creates has no access tokens, so
   * `/api/v1/transaction` refuses every complete post for it with 403, and
   * an incomplete one with 400, without reaching the refresh grant.
   */
  lemma FreshUserCannotPost(write: LoginWrite, key: AesKey, iv: Iv, req: TransactionRequest,
                            refresh: string -> Option<string>, appendFails: bool, nowText: string, timeText: string -> string)
    ensures var out := HandleTransaction(req, Some(PersistedDoc(None, write, key, iv)), key, refresh, appendFails, nowText, timeText);
            out.reply == (if Truthy(req.email) && Truthy(req.authorization) && req.transaction.Some? then Status(403) else Status(400))
            && out.refreshedWith.None? && out.append.None?
  {
  }

  /** With an access token on record, the refresh grant receives exactly the refresh token the last login stored. */
  lemma RefreshUsesStoredToken(stored: Option<UserDoc>, write: LoginWrite, key: AesKey, iv: Iv, req: TransactionRequest,
                               refresh: string -> Option<string>, appendFails: bool, nowText: string, timeText: string -> string)
    requires write.refreshToken != ""
    requires Truthy(req.email) && Truthy(req.authorization) && req.transaction.Some?
    requires HasAccessToken(PersistedDoc(stored, write, key, iv).auth.accessTokens, req.authorization.value)
    ensures HandleTransaction(req, Some(PersistedDoc(stored, write, key, iv)), key, refresh, appendFails, nowText, timeText).refreshedWith
         == Some(write.refreshToken)
  {
    PersistedDocSpec(stored, write, key, iv);
  }

  /** A stored token encrypted under another key, or with a tampered tag, makes the handler throw before the refresh grant. */
  lemma WrongKeyThrows(req: TransactionRequest, d: UserDoc, key: AesKey,
                       refresh: string -> Option<string>, appendFails: bool, nowText: string, timeText: string -> string)
    requires Truthy(req.email) && Truthy(req.authorization) && req.transaction.Some?
    requires HasAccessToken(d.auth.accessTokens, req.authorization.value)
    requires TruthyCipher(d.auth.refreshToken) && d.auth.refreshTokenIv.Some? && d.auth.refreshTokenAuthTag.Some?
    requires d.auth.refreshToken.value.key != key
    ensures HandleTransaction(req, Some(d), key, refresh, appendFails, nowText, timeText) == TransactionOutcome(Threw, None, None)
  {
  }
}
