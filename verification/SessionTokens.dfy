/** Login tokens: issue, validation, revocation.

    A token is taken as an injective image of its claims. Time is counted in nanoseconds; the dates in
    the claims (section 4.1 of RFC 7519) are whole seconds. */
module SessionTokens {
  import opened Wrappers

  const SECOND := 1_000_000_000

  const JOB_CONTROL := "job-control"

  const ISSUER := "monitoring-backend"

  datatype UserInfo = UserInfo(roles: seq<string>, username: string)

  datatype Claims = Claims(user: UserInfo, expiresAt: int, issuedAt: int, issuer: string)

  /** A text offered as a token: one with a valid signature over claims, or anything else. */
  datatype Token = Signed(claims: Claims) | Invalid(text: string)

  datatype Lifetimes = Lifetimes(session: int, api: int)

  /** `NewNumericDate`: towards the epoch by less than a second. */
  function WholeSeconds(t: nat): nat {
    t - t % SECOND
  }

  function Lifetime(l: Lifetimes, user: UserInfo): int {
    if JOB_CONTROL in user.roles then l.api else l.session
  }

  /** The token `GenerateJWT` makes at time `now`. */
  function Issued(l: Lifetimes, user: UserInfo, now: nat): Token
    requires now + Lifetime(l, user) >= 0
  {
    Signed(Claims(user, WholeSeconds(now + Lifetime(l, user)), WholeSeconds(now), ISSUER))
  }

  /** The time-based claims: not before the issue date, strictly before the expiry date. */
  predicate InTime(c: Claims, now: int) {
    c.issuedAt <= now < c.expiresAt
  }

  class AuthManager {
    const lifetimes: Lifetimes
    var sessions: map<string, Token>   // table user_sessions of the store
    ghost var history: seq<Event>

    ghost predicate Valid()
      reads this
    {
      && WellFormed(lifetimes, history)
      && (forall u :: (if u in sessions then Some(sessions[u]) else None) == Live(lifetimes, history, u))
    }

    constructor (lifetimes: Lifetimes)
      ensures Valid() && history == [] && this.lifetimes == lifetimes
    {
      this.lifetimes := lifetimes;
      sessions := map[];
      history := [];
    }

    method GenerateJWT(user: UserInfo, now: nat) returns (token: Token)
      requires Valid() && now + Lifetime(lifetimes, user) >= 0
      modifies this
      ensures Valid() && history == old(history) + [Login(user, now)]
      ensures token == Issued(lifetimes, user, now)
      ensures token.Signed? && token.claims.user == user && token.claims.issuer == "monitoring-backend"
      ensures token.claims.issuedAt % 1_000_000_000 == 0
      ensures token.claims.issuedAt <= now < token.claims.issuedAt + 1_000_000_000
      ensures
        var end := now + if "job-control" in user.roles then lifetimes.api else lifetimes.session;
        && token.claims.expiresAt % 1_000_000_000 == 0
        && token.claims.expiresAt <= end < token.claims.expiresAt + 1_000_000_000
    {
      var lifeTime := lifetimes.session;
      if JOB_CONTROL in user.roles {
        lifeTime := lifetimes.api;
      }
      var claims := Claims(user, WholeSeconds(now + lifeTime), WholeSeconds(now), ISSUER);
      token := Signed(claims);
      sessions := sessions[user.username := token];
      history := history + [Login(user, now)];
      assert history[..|history| - 1] == old(history);
    }

    method Logout(username: string)
      requires Valid()
      modifies this
      ensures Valid() && history == old(history) + [LoggedOut(username)]
    {
      sessions := sessions - {username};
      history := history + [LoggedOut(username)];
      assert history[..|history| - 1] == old(history);
    }

    method Validate(token: Token, now: int) returns (user: Result<UserInfo>)
      requires Valid()
      ensures user.Ok? <==> Accepts(lifetimes, history, token, now)
      ensures user.Ok? ==> token.Signed? && user.value == token.claims.user
      ensures user.Ok? ==> exists i :: LastLogin(history, i, user.value.username) && history[i].user == user.value
    {
      if token.Invalid? || !InTime(token.claims, now) {
        return Err;
      }
      var claims := token.claims;
      if claims.issuer != ISSUER {
        return Err;
      }
      if claims.user.username !in sessions || sessions[claims.user.username] != token {
        return Err;
      }
      user := Ok(claims.user);
      AcceptedUser(lifetimes, history, token, now);
    }
  }

  // --------------------------------------------------------------- history

  datatype Event = Login(user: UserInfo, at: nat) | LoggedOut(username: string)

  ghost predicate WellFormed(l: Lifetimes, h: seq<Event>) {
    forall i | 0 <= i < |h| && h[i].Login? :: h[i].at + Lifetime(l, h[i].user) >= 0
  }

  /** The token the store has for user `u`. */
  ghost function Live(l: Lifetimes, h: seq<Event>, u: string): Option<Token>
    requires WellFormed(l, h)
  {
    if h == [] then None
    else
      var e := h[|h| - 1];
      if e.Login? && e.user.username == u then Some(Issued(l, e.user, e.at))
      else if e == LoggedOut(u) then None
      else Live(l, h[..|h| - 1], u)
  }

  ghost predicate Accepts(l: Lifetimes, h: seq<Event>, token: Token, now: int)
    requires WellFormed(l, h)
  {
    token.Signed? && InTime(token.claims, now) && token.claims.issuer == ISSUER
    && Live(l, h, token.claims.user.username) == Some(token)
  }

  /** Event `i` is a login of `u` that no later login or logout of `u` follows. */
  ghost predicate LastLogin(h: seq<Event>, i: int, u: string) {
    0 <= i < |h| && h[i].Login? && h[i].user.username == u
    && forall k | i < k < |h| :: h[k] != LoggedOut(u) && !(h[k].Login? && h[k].user.username == u)
  }

  lemma {:induction false} LiveIsLastLogin(l: Lifetimes, h: seq<Event>, u: string)
    requires WellFormed(l, h)
    ensures Live(l, h, u).Some? <==> exists i :: LastLogin(h, i, u)
    ensures forall i | LastLogin(h, i, u) :: Live(l, h, u) == Some(Issued(l, h[i].user, h[i].at))
  {
    if h != [] {
      var init, e := h[..|h| - 1], h[|h| - 1];
      LiveIsLastLogin(l, init, u);
      if e.Login? && e.user.username == u {
        assert LastLogin(h, |h| - 1, u);
      } else if e != LoggedOut(u) {
        forall i
          ensures LastLogin(h, i, u) <==> LastLogin(init, i, u)
        {
          SameLastLogin(h, i, u);
        }
      } else {
        forall i
          ensures !LastLogin(h, i, u)
        {
          assert h[|h| - 1] == LoggedOut(u);
        }
      }
    }
  }

  lemma SameLastLogin(h: seq<Event>, i: int, u: string)
    requires h != [] && h[|h| - 1] != LoggedOut(u) && !(h[|h| - 1].Login? && h[|h| - 1].user.username == u)
    ensures LastLogin(h, i, u) <==> LastLogin(h[..|h| - 1], i, u)
  {
    var init := h[..|h| - 1];
    assert forall k | 0 <= k < |init| :: init[k] == h[k];
  }

  /** In every history a token is accepted at time `now` exactly when it is the one made by the last
      login of its user, no logout of that user followed, and `now` lies within its dates. No token that
      was never issued is accepted. */
  lemma AcceptedIff(l: Lifetimes, h: seq<Event>, token: Token, now: int)
    requires WellFormed(l, h)
    ensures Accepts(l, h, token, now) <==>
            exists i :: 0 <= i < |h| && h[i].Login? && LastLogin(h, i, h[i].user.username)
                        && token == Issued(l, h[i].user, h[i].at) && InTime(token.claims, now)
  {
    if token.Signed? {
      LiveIsLastLogin(l, h, token.claims.user.username);
    }
    if Accepts(l, h, token, now) {
      var u := token.claims.user.username;
      var i :| LastLogin(h, i, u);
      assert token == Issued(l, h[i].user, h[i].at);
    }
  }

  /** Whoever is accepted is the user, with the roles, of the last login under that name. */
  lemma AcceptedUser(l: Lifetimes, h: seq<Event>, token: Token, now: int)
    requires WellFormed(l, h) && Accepts(l, h, token, now)
    ensures exists i :: LastLogin(h, i, token.claims.user.username) && h[i].user == token.claims.user
  {
    AcceptedIff(l, h, token, now);
  }

  /** How long a token works, seen from the clock: from the moment it is made, and no longer than its
      lifetime, of which rounding to seconds takes away less than one second. */
  lemma ValidForItsLifetime(l: Lifetimes, user: UserInfo, at: nat, now: int)
    requires at + Lifetime(l, user) >= 0 && now >= at
    ensures
      var c := Issued(l, user, at).claims;
      && (now <= at + Lifetime(l, user) - SECOND ==> InTime(c, now))
      && (InTime(c, now) ==> now < at + Lifetime(l, user))
  {
  }

  lemma WholeSecondsIff(a: nat, b: nat)
    ensures WholeSeconds(a) == WholeSeconds(b) <==> a / SECOND == b / SECOND
  {
    assert WholeSeconds(a) == SECOND * (a / SECOND) && WholeSeconds(b) == SECOND * (b / SECOND);
  }

  /** Two logins make the same text exactly when they are for the same user with the same roles, and both
      dates fall into the same seconds. */
  lemma SameTokenIff(l: Lifetimes, a: UserInfo, at: nat, b: UserInfo, later: nat)
    requires at + Lifetime(l, a) >= 0 && later + Lifetime(l, b) >= 0
    ensures Issued(l, a, at) == Issued(l, b, later) <==>
            a == b && at / SECOND == later / SECOND
            && (at + Lifetime(l, a)) / SECOND == (later + Lifetime(l, b)) / SECOND
  {
    WholeSecondsIff(at, later);
    WholeSecondsIff(at + Lifetime(l, a), later + Lifetime(l, b));
  }

  lemma EarlierToken(l: Lifetimes, h: seq<Event>, i: nat, j: nat, now: int)
    requires WellFormed(l, h) && i < j < |h| && h[i].Login? && h[j].Login?
    requires h[i].user.username == h[j].user.username && LastLogin(h, j, h[j].user.username)
    requires InTime(Issued(l, h[i].user, h[i].at).claims, now)
    ensures Accepts(l, h, Issued(l, h[i].user, h[i].at), now) <==>
            Issued(l, h[i].user, h[i].at) == Issued(l, h[j].user, h[j].at)
  {
    LiveIsLastLogin(l, h, h[j].user.username);
  }

  /** A new login revokes every earlier token of the user, unless both carry the same claims and so are
      the same text. Any events may lie between the two logins, and any of other users after them. */
  lemma LoginRevokesIff(l: Lifetimes, h: seq<Event>, i: nat, j: nat, now: int)
    requires WellFormed(l, h) && i < j < |h| && h[i].Login? && h[j].Login?
    requires h[i].user.username == h[j].user.username && LastLogin(h, j, h[j].user.username)
    requires InTime(Issued(l, h[i].user, h[i].at).claims, now)
    ensures Accepts(l, h, Issued(l, h[i].user, h[i].at), now) <==>
            h[i].user == h[j].user && h[i].at / SECOND == h[j].at / SECOND
            && (h[i].at + Lifetime(l, h[i].user)) / SECOND == (h[j].at + Lifetime(l, h[j].user)) / SECOND
  {
    EarlierToken(l, h, i, j, now);
    SameTokenIff(l, h[i].user, h[i].at, h[j].user, h[j].at);
  }

  /** After a logout no token of the user is accepted until the user logs in again. */
  lemma LogoutRevokesAll(l: Lifetimes, h: seq<Event>, i: nat, token: Token, now: int)
    requires WellFormed(l, h) && i < |h| && token.Signed? && h[i] == LoggedOut(token.claims.user.username)
    requires forall k | i < k < |h| && h[k].Login? :: h[k].user.username != token.claims.user.username
    ensures !Accepts(l, h, token, now)
  {
    var u := token.claims.user.username;
    LiveIsLastLogin(l, h, u);
    forall k
      ensures !LastLogin(h, k, u)
    {
      assert h[i] == LoggedOut(u);
    }
  }
}
