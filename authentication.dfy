/**
 * Redemption of refresh tokens by the JWT refresh strategy.
 *
 * A refresh token whose signature and expiry have already been checked arrives as a
 * payload. The strategy redeems it against the server-side set of live refresh
 * sessions: an unknown token id fails with TokenNotExists; a live one is deleted
 * (so each token is redeemed at most once) and the user named by the token's
 * subject is loaded.
 */
module Authentication {
  import opened Wrappers

  type UserId = string
  type TokenId = string

  /** The user record the authentication service hands back. */
  datatype User = User(id: UserId, email: string, name: string)

  /** The verified claims of a refresh token: its subject and its session id. */
  datatype RefreshTokenPayload = RefreshTokenPayload(sub: UserId, tokenId: TokenId)

  datatype AuthError =
    | TokenNotExists(tokenId: TokenId)   // no live session carries this token id
    | UserNotFound(id: UserId)           // the token's subject names no user

  /** Loading a user by id: the user stored under `id`, or UserNotFound. */
  function FindUser(users: map<UserId, User>, id: UserId): (r: Result<User, AuthError>)
    ensures r.Success? <==> id in users
    ensures r.Success? ==> r.value == users[id]
    ensures r.Failure? ==> r.error == UserNotFound(id)
  {
    if id in users then Success(users[id]) else Failure(UserNotFound(id))
  }

  /** The live sessions after one redemption, and what the redemption returned. */
  datatype Redemption = Redemption(live: set<TokenId>, result: Result<User, AuthError>)

  /** True when a result got past the liveness check (it did not fail with TokenNotExists). */
  predicate PassedCheck(r: Result<User, AuthError>) {
    !(r.Failure? && r.error.TokenNotExists?)
  }

  /** One redemption of `payload` against the live sessions `live`, as a value. */
  function Redeem(live: set<TokenId>, users: map<UserId, User>, payload: RefreshTokenPayload): (r: Redemption)
    // the failure is TokenNotExists exactly when the token is not live
    ensures !PassedCheck(r.result) <==> payload.tokenId !in live
    ensures !PassedCheck(r.result) ==> r.result == Failure(TokenNotExists(payload.tokenId))
    // the failure path deletes nothing
    ensures payload.tokenId !in live ==> r.live == live
    // afterwards the token is dead, and it is the only session that died
    ensures payload.tokenId !in r.live
    ensures r.live <= live
    ensures forall t :: t in live && t != payload.tokenId ==> t in r.live
    // past the check, the result is the token's subject looked up among the users
    ensures payload.tokenId in live ==> r.result == FindUser(users, payload.sub)
  {
    if payload.tokenId !in live then
      Redemption(live, Failure(TokenNotExists(payload.tokenId)))
    else
      Redemption(live - {payload.tokenId}, FindUser(users, payload.sub))
  }

  /** The sessions left and the results, in order, after redeeming `payloads` one after another. */
  datatype Trace = Trace(live: set<TokenId>, results: seq<Result<User, AuthError>>)

  /** The token ids of a sequence of payloads. */
  function Presented(payloads: seq<RefreshTokenPayload>): set<TokenId> {
    set k | 0 <= k < |payloads| :: payloads[k].tokenId
  }

  function RedeemAll(live: set<TokenId>, users: map<UserId, User>, payloads: seq<RefreshTokenPayload>): (r: Trace)
    ensures |r.results| == |payloads|
    ensures r.live <= live
    ensures forall k :: 0 <= k < |payloads| ==> payloads[k].tokenId !in r.live
    // exactly the presented token ids leave the live set
    ensures r.live == live - Presented(payloads)
    decreases |payloads|
  {
    if payloads == [] then Trace(live, [])
    else
      var first := Redeem(live, users, payloads[0]);
      var rest := RedeemAll(first.live, users, payloads[1..]);
      assert forall k :: 1 <= k < |payloads| ==> payloads[k] == payloads[1..][k - 1];
      assert Presented(payloads) == {payloads[0].tokenId} + Presented(payloads[1..]);
      Trace(rest.live, [first.result] + rest.results)
  }

  /** Once a token id is not live, every later redemption of it fails with TokenNotExists. */
  lemma {:induction false} DeadTokenStaysDead(live: set<TokenId>, users: map<UserId, User>,
                                              payloads: seq<RefreshTokenPayload>, k: nat)
    requires k < |payloads|
    requires payloads[k].tokenId !in live
    ensures RedeemAll(live, users, payloads).results[k] == Failure(TokenNotExists(payloads[k].tokenId))
    decreases |payloads|
  {
    var first := Redeem(live, users, payloads[0]);
    if k > 0 {
      assert payloads[k] == payloads[1..][k - 1];
      DeadTokenStaysDead(first.live, users, payloads[1..], k - 1);
    }
  }

  /**
   * No replay: among any sequence of redemptions, once one redemption of a token id
   * has got past the liveness check, every later one with the same token id fails.
   */
  lemma {:induction false} NoReplay(live: set<TokenId>, users: map<UserId, User>,
                                    payloads: seq<RefreshTokenPayload>, i: nat, j: nat)
    requires i < j < |payloads|
    requires payloads[i].tokenId == payloads[j].tokenId
    requires PassedCheck(RedeemAll(live, users, payloads).results[i])
    ensures RedeemAll(live, users, payloads).results[j] == Failure(TokenNotExists(payloads[j].tokenId))
    decreases |payloads|
  {
    var first := Redeem(live, users, payloads[0]);
    assert payloads[j] == payloads[1..][j - 1];
    if i == 0 {
      DeadTokenStaysDead(first.live, users, payloads[1..], j - 1);
    } else {
      assert payloads[i] == payloads[1..][i - 1];
      NoReplay(first.live, users, payloads[1..], i - 1, j - 1);
    }
  }

  /**
   * The first redemption of a live token id gets past the liveness check, however many
   * redemptions of other token ids come before it.
   */
  lemma {:induction false} FirstRedemptionPasses(live: set<TokenId>, users: map<UserId, User>,
                                                 payloads: seq<RefreshTokenPayload>, k: nat)
    requires k < |payloads|
    requires payloads[k].tokenId in live
    requires forall m :: 0 <= m < k ==> payloads[m].tokenId != payloads[k].tokenId
    ensures RedeemAll(live, users, payloads).results[k] == FindUser(users, payloads[k].sub)
    decreases |payloads|
  {
    var first := Redeem(live, users, payloads[0]);
    if k > 0 {
      assert payloads[k] == payloads[1..][k - 1];
      forall m | 0 <= m < k - 1 ensures payloads[1..][m].tokenId != payloads[1..][k - 1].tokenId {
        assert payloads[1..][m] == payloads[m + 1];
      }
      FirstRedemptionPasses(first.live, users, payloads[1..], k - 1);
    }
  }

  /** The store of live refresh sessions, one token id per issued and unredeemed refresh token. */
  class RefreshTokenService {
    var sessions: set<TokenId>

    constructor (live: set<TokenId>)
      ensures sessions == live
    {
      sessions := live;
    }

    /** Whether a session with this token id is live. */
    method IsExists(tokenId: TokenId) returns (isLive: bool)
      ensures isLive <==> tokenId in sessions
    {
      isLive := tokenId in sessions;
    }

    /** Deletes the session with this token id; a no-op when there is none. */
    method DeleteRefreshSession(tokenId: TokenId)
      modifies this
      ensures sessions == old(sessions) - {tokenId}
    {
      sessions := sessions - {tokenId};
    }
  }

  /** The part of the authentication service the strategy uses: loading a user by id. */
  class AuthenticationService {
    var users: map<UserId, User>

    constructor (users: map<UserId, User>)
      ensures this.users == users
    {
      this.users := users;
    }

    method GetUser(id: UserId) returns (r: Result<User, AuthError>)
      ensures r == FindUser(users, id)
    {
      r := FindUser(users, id);
    }
  }

  class JwtRefreshStrategy {
    const authService: AuthenticationService
    const refreshTokenService: RefreshTokenService

    constructor (authService: AuthenticationService, refreshTokenService: RefreshTokenService)
      ensures this.authService == authService && this.refreshTokenService == refreshTokenService
    {
      this.authService := authService;
      this.refreshTokenService := refreshTokenService;
    }

    /**
     * Redeems a verified refresh-token payload: the check, then the deletion, then the
     * user lookup, in that order. A missing user is reported after the session is gone.
     */
    method Validate(payload: RefreshTokenPayload) returns (r: Result<User, AuthError>)
      modifies refreshTokenService
      ensures Redemption(refreshTokenService.sessions, r)
           == Redeem(old(refreshTokenService.sessions), authService.users, payload)
    {
      var live := refreshTokenService.IsExists(payload.tokenId);
      if !live {
        return Failure(TokenNotExists(payload.tokenId));
      }
      refreshTokenService.DeleteRefreshSession(payload.tokenId);
      r := authService.GetUser(payload.sub);
    }

    /** Presenting the same payload twice: the second call always fails with TokenNotExists. */
    method ValidateTwice(payload: RefreshTokenPayload) returns (first: Result<User, AuthError>, second: Result<User, AuthError>)
      modifies refreshTokenService
      ensures second == Failure(TokenNotExists(payload.tokenId))
      ensures first == Redeem(old(refreshTokenService.sessions), authService.users, payload).result
      ensures refreshTokenService.sessions == old(refreshTokenService.sessions) - {payload.tokenId}
    {
      first := Validate(payload);
      second := Validate(payload);
    }
  }
}
