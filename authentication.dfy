/**
 * RequireAuthentication of server/auth/requireauthentication.go: the guard
 * chain in front of every protected route. The identity fetcher, the JSON
 * decoder, the user-data fetcher and the authorization strategy are
 * collaborators given as functions; the chain's result is either one
 * rejection (status and body) or the hand-over of the principal to the next
 * handler, together with the collaborator calls it made, in order.
 */
module Authentication {
  import opened Wrappers
  import opened Text
  import opened Users
  import opened Http
  import opened Strategy

  newtype byte = b: int | 0 <= b < 256

  const StatusBadRequest := 400
  const StatusUnauthorized := 401
  const StatusInternalServerError := 500

  const MalformedHeaderMessage := "Malformed authorization header or token"
  const UserIdErrorMessage := "UserID error"
  const EmailNotVerifiedMessage := "Unauthorized - email not verified"
  const DeniedByPolicyMessage := "Unauthorized - denied by policy"

  /** What the identity fetcher hands back: a body, and whether it also reported an error. */
  datatype IdentityReply = IdentityReply(body: seq<byte>, failed: bool)

  /** The functions the chain is built from. */
  datatype Collaborators = Collaborators(
    authorize: AuthorizationStrategy,
    fetchIdentity: string -> IdentityReply,           // bearer token -> user-info body
    decode: seq<byte> -> Option<UserIdentity>,        // json.Unmarshal; None on a decode error
    fetchUserData: UserIdentity -> Option<User>)      // fills the principal; None on an error

  /** One call the chain makes to a collaborator or to the next handler. */
  datatype Call =
    | FetchIdentity(token: string)
    | FetchUserData(identity: UserIdentity)
    | Authorize(user: User)
    | Next(user: User)

  /** The single terminal response: an error written by ReturnError, or the request passed on. */
  datatype Outcome = Rejected(status: int, message: string) | Forwarded(user: User)

  // ---------------------------------------------------------------------
  // The Authorization header

  /**
   * The token in an Authorization value: the value split on the substring
   * "Bearer" must give exactly two pieces; the token is the second piece
   * with its white space trimmed.
   */
  function BearerTokenOf(authorization: string): (t: Option<string>)
    ensures !Contains(authorization, "Bearer") ==> t.None?
    ensures t.Some? ==> t.value == [] || (!IsSpace(t.value[0]) && !IsSpace(t.value[|t.value| - 1]))
  {
    var pieces := Split(authorization, "Bearer");
    if |pieces| != 2 then None else Some(TrimSpace(pieces[1]))
  }

  /** The token of the request's Authorization header, if it has one. */
  function BearerToken(r: Request): (t: Option<string>)
    ensures t.Some? ==> Contains(HeaderGet(r.header, "Authorization"), "Bearer")
  {
    BearerTokenOf(HeaderGet(r.header, "Authorization"))
  }

  /** A request without an Authorization header carries no token. */
  lemma MissingHeaderHasNoToken(r: Request)
    requires "Authorization" !in r.header
    ensures BearerToken(r) == None
  {
    assert HeaderGet(r.header, "Authorization") == "";
    assert !Contains("", "Bearer");
  }

  /** Two occurrences of "Bearer" can never overlap. */
  lemma BearerDoesNotOverlap(s: string, i: nat, j: nat)
    requires OccursAt(s, "Bearer", i) && OccursAt(s, "Bearer", j) && i < j
    ensures i + 6 <= j
  {
    if j < i + 6 {
      NoInnerB(s, i, j);
    }
  }

  /** Inside an occurrence of "Bearer", only its first letter is a 'B'. */
  lemma NoInnerB(s: string, i: nat, j: nat)
    requires OccursAt(s, "Bearer", i) && i < j < i + 6
    ensures s[j] != 'B'
  {
    assert s[j] == s[i..i + 6][j - i];
  }

  /** "Bearer" occurs in `h` at `i` and nowhere else. */
  predicate OccursOnlyAt(h: string, i: nat) {
    OccursAt(h, "Bearer", i) && forall j: nat | j <= |h| :: OccursAt(h, "Bearer", j) ==> j == i
  }

  /** When "Bearer" occurs once, the token is what follows it, trimmed. */
  lemma SingleBearerGivesToken(h: string, i: nat)
    requires OccursOnlyAt(h, i)
    ensures BearerTokenOf(h) == Some(TrimSpace(h[i + 6..]))
  {
    var first := IndexOf(h, "Bearer");
    assert first.Some? by { assert Contains(h, "Bearer"); }
    assert first.value == i;
    var rest := h[i + 6..];
    SplitAt(h, "Bearer", i);
    forall j: nat | j <= |rest| && OccursAt(rest, "Bearer", j) ensures false {
      OccursAtDrop(h, "Bearer", i + 6, j);
    }
    assert IndexOf(rest, "Bearer").None?;
    assert Split(rest, "Bearer") == [rest];
  }

  /** The first occurrence, with none after it, is the only one. */
  lemma FirstAndLastBearer(h: string, i: nat)
    requires OccursAt(h, "Bearer", i)
    requires forall j: nat :: j < i ==> !OccursAt(h, "Bearer", j)
    requires !Contains(h[i + 6..], "Bearer")
    ensures OccursOnlyAt(h, i)
  {
    forall j: nat | j <= |h| && OccursAt(h, "Bearer", j) ensures j == i {
      if i < j {
        BearerDoesNotOverlap(h, i, j);
        OccursAtDrop(h, "Bearer", i + 6, j - i - 6);
      }
    }
  }

  /** A token is found only when "Bearer" occurs exactly once in the value. */
  lemma TokenNeedsSingleBearer(h: string)
    requires BearerTokenOf(h).Some?
    ensures exists i: nat :: OccursOnlyAt(h, i)
  {
    var first := IndexOf(h, "Bearer");
    assert first.Some?;
    var i := first.value;
    SplitAt(h, "Bearer", i);
    FirstAndLastBearer(h, i);
  }

  // ---------------------------------------------------------------------
  // The chain as a state machine

  /** How far a request has come through the chain. */
  datatype Stage =
    | Start
    | HeaderParsed(token: string)
    | IdentityResolved(identity: UserIdentity)
    | PermissionsLoaded(user: User)
    | VerificationChecked(user: User)
    | Authorized(user: User)

  function Rank(s: Stage): nat {
    match s
    case Start => 5
    case HeaderParsed(_) => 4
    case IdentityResolved(_) => 3
    case PermissionsLoaded(_) => 2
    case VerificationChecked(_) => 1
    case Authorized(_) => 0
  }

  /** One transition: advance to a later stage, or halt with a rejection; with the calls made. */
  datatype Transition =
    | Advance(next: Stage, calls: seq<Call>)
    | Halt(status: int, message: string, calls: seq<Call>)

  /** The transition out of every non-final stage; each makes at most one call and moves forward. */
  function Step(c: Collaborators, r: Request, s: Stage): (t: Transition)
    requires !s.Authorized?
    ensures |t.calls| <= 1
    ensures t.Advance? ==> Rank(t.next) < Rank(s)
    ensures t.Halt? ==> t.status in {StatusBadRequest, StatusUnauthorized, StatusInternalServerError}
  {
    match s
    case Start =>
      (match BearerToken(r)
       case None => Halt(StatusBadRequest, MalformedHeaderMessage, [])
       case Some(token) => Advance(HeaderParsed(token), []))
    case HeaderParsed(token) =>
      (match c.decode(c.fetchIdentity(token).body)
       case None => Halt(StatusInternalServerError, UserIdErrorMessage, [FetchIdentity(token)])
       case Some(identity) => Advance(IdentityResolved(identity), [FetchIdentity(token)]))
    case IdentityResolved(identity) =>
      (match c.fetchUserData(identity)
       case None => Halt(StatusInternalServerError, UserIdErrorMessage, [FetchUserData(identity)])
       case Some(user) => Advance(PermissionsLoaded(user), [FetchUserData(identity)]))
    case PermissionsLoaded(user) =>
      if user.identity.emailVerified then Advance(VerificationChecked(user), [])
      else Halt(StatusUnauthorized, EmailNotVerifiedMessage, [])
    case VerificationChecked(user) =>
      if c.authorize(user, r).Permit? then Advance(Authorized(user), [Authorize(user)])
      else Halt(StatusUnauthorized, DeniedByPolicyMessage, [Authorize(user)])
  }

  /**
   * Runs the chain from stage `s` to its single terminal outcome: a
   * rejection carries one of the three statuses the handler writes; a
   * forwarded request ends with the call of the next handler on its
   * principal; no stage makes more than one call.
   */
  function Run(c: Collaborators, r: Request, s: Stage): (res: (Outcome, seq<Call>))
    ensures res.0.Rejected? ==> res.0.status in {StatusBadRequest, StatusUnauthorized, StatusInternalServerError}
    ensures res.0.Forwarded? ==> res.1 != [] && res.1[|res.1| - 1] == Next(res.0.user)
    ensures |res.1| <= Rank(s) + 1
    decreases Rank(s)
  {
    if s.Authorized? then (Forwarded(s.user), [Next(s.user)])
    else match Step(c, r, s)
      case Halt(status, message, calls) => (Rejected(status, message), calls)
      case Advance(next, calls) =>
        var (outcome, rest) := Run(c, r, next);
        (outcome, calls + rest)
  }

  /** The outcome of a request and the calls it causes. */
  function Authenticate(c: Collaborators, r: Request): (res: (Outcome, seq<Call>))
    ensures res.0.Rejected? ==> res.0.status in {StatusBadRequest, StatusUnauthorized, StatusInternalServerError}
    ensures res.0.Forwarded? ==> res.1 != [] && res.1[|res.1| - 1] == Next(res.0.user)
  {
    Run(c, r, Start)
  }

  /** How many times the next handler is called. */
  function NextCalls(calls: seq<Call>): nat {
    if calls == [] then 0 else (if calls[0].Next? then 1 else 0) + NextCalls(calls[1..])
  }

  lemma {:induction false} NextCallsAppend(a: seq<Call>, b: seq<Call>)
    ensures NextCalls(a + b) == NextCalls(a) + NextCalls(b)
  {
    if a == [] {
      assert a + b == b;
    } else {
      assert (a + b)[0] == a[0] && (a + b)[1..] == a[1..] + b;
      NextCallsAppend(a[1..], b);
    }
  }

  /** A single transition never runs the next handler. */
  lemma StepDoesNotCallNext(c: Collaborators, r: Request, s: Stage)
    requires !s.Authorized?
    ensures NextCalls(Step(c, r, s).calls) == 0
  {
    var calls := Step(c, r, s).calls;
    if calls != [] {
      assert !calls[0].Next?;
      assert calls[1..] == [];
    }
  }

  /**
   * Exactly one terminal response: the next handler runs once, as the last
   * call, when the request is forwarded, and never when it is rejected.
   */
  lemma {:induction false} NextRunsOnceIffForwarded(c: Collaborators, r: Request, s: Stage)
    ensures var (outcome, calls) := Run(c, r, s);
      && NextCalls(calls) == (if outcome.Forwarded? then 1 else 0)
      && (outcome.Forwarded? ==> calls != [] && calls[|calls| - 1] == Next(outcome.user))
    decreases Rank(s)
  {
    if !s.Authorized? {
      var t := Step(c, r, s);
      StepDoesNotCallNext(c, r, s);
      if t.Advance? {
        NextRunsOnceIffForwarded(c, r, t.next);
        NextCallsAppend(t.calls, Run(c, r, t.next).1);
      }
    }
  }

  // ---------------------------------------------------------------------
  // The chain one stage at a time

  lemma RunFromVerificationChecked(c: Collaborators, r: Request, user: User)
    ensures Run(c, r, VerificationChecked(user)) ==
      if c.authorize(user, r).Permit? then (Forwarded(user), [Authorize(user), Next(user)])
      else (Rejected(StatusUnauthorized, DeniedByPolicyMessage), [Authorize(user)])
  {
    if c.authorize(user, r).Permit? {
      assert Run(c, r, Authorized(user)) == (Forwarded(user), [Next(user)]);
      assert [Authorize(user)] + [Next(user)] == [Authorize(user), Next(user)];
    }
  }

  lemma RunFromPermissionsLoaded(c: Collaborators, r: Request, user: User)
    ensures Run(c, r, PermissionsLoaded(user)) ==
      if user.identity.emailVerified then Run(c, r, VerificationChecked(user))
      else (Rejected(StatusUnauthorized, EmailNotVerifiedMessage), [])
  {
    if user.identity.emailVerified {
      assert [] + Run(c, r, VerificationChecked(user)).1 == Run(c, r, VerificationChecked(user)).1;
    }
  }

  lemma RunFromIdentityResolved(c: Collaborators, r: Request, identity: UserIdentity)
    ensures Run(c, r, IdentityResolved(identity)) ==
      match c.fetchUserData(identity)
      case None => (Rejected(StatusInternalServerError, UserIdErrorMessage), [FetchUserData(identity)])
      case Some(user) =>
        (Run(c, r, PermissionsLoaded(user)).0, [FetchUserData(identity)] + Run(c, r, PermissionsLoaded(user)).1)
  {
  }

  lemma RunFromHeaderParsed(c: Collaborators, r: Request, token: string)
    ensures Run(c, r, HeaderParsed(token)) ==
      match c.decode(c.fetchIdentity(token).body)
      case None => (Rejected(StatusInternalServerError, UserIdErrorMessage), [FetchIdentity(token)])
      case Some(identity) =>
        (Run(c, r, IdentityResolved(identity)).0, [FetchIdentity(token)] + Run(c, r, IdentityResolved(identity)).1)
  {
  }

  lemma AuthenticateFromStart(c: Collaborators, r: Request)
    ensures Authenticate(c, r) ==
      match BearerToken(r)
      case None => (Rejected(StatusBadRequest, MalformedHeaderMessage), [])
      case Some(token) => Run(c, r, HeaderParsed(token))
  {
    if BearerToken(r).Some? {
      var token := BearerToken(r).value;
      assert [] + Run(c, r, HeaderParsed(token)).1 == Run(c, r, HeaderParsed(token)).1;
    }
  }

  // ---------------------------------------------------------------------
  // The outcome of each guard

  /** A malformed or missing header: 400, and no collaborator is called. */
  lemma MalformedHeaderRejected(c: Collaborators, r: Request)
    requires BearerToken(r).None?
    ensures Authenticate(c, r) == (Rejected(StatusBadRequest, MalformedHeaderMessage), [])
  {
    AuthenticateFromStart(c, r);
  }

  /**
   * The identity fetcher receives the trimmed second piece of the header; a
   * body that does not decode gives 500 and the data fetcher is not called.
   */
  lemma UndecodableIdentityRejected(c: Collaborators, r: Request, token: string)
    requires BearerToken(r) == Some(token)
    requires c.decode(c.fetchIdentity(token).body).None?
    ensures Authenticate(c, r) == (Rejected(StatusInternalServerError, UserIdErrorMessage), [FetchIdentity(token)])
  {
    AuthenticateFromStart(c, r);
    RunFromHeaderParsed(c, r, token);
  }

  /** A data-fetcher error gives 500; neither the strategy nor the next handler runs. */
  lemma UserDataErrorRejected(c: Collaborators, r: Request, token: string, identity: UserIdentity)
    requires BearerToken(r) == Some(token)
    requires c.decode(c.fetchIdentity(token).body) == Some(identity)
    requires c.fetchUserData(identity).None?
    ensures Authenticate(c, r) ==
      (Rejected(StatusInternalServerError, UserIdErrorMessage), [FetchIdentity(token), FetchUserData(identity)])
  {
    AuthenticateFromStart(c, r);
    RunFromHeaderParsed(c, r, token);
    RunFromIdentityResolved(c, r, identity);
    assert [FetchIdentity(token)] + [FetchUserData(identity)] == [FetchIdentity(token), FetchUserData(identity)];
  }

  /**
   * The verified flag is read from the principal the data fetcher produced,
   * not from the decoded identity: when it is false the answer is 401 and
   * the strategy is never consulted, so even allow-all does not help.
   */
  lemma UnverifiedEmailRejected(c: Collaborators, r: Request, token: string, identity: UserIdentity, user: User)
    requires BearerToken(r) == Some(token)
    requires c.decode(c.fetchIdentity(token).body) == Some(identity)
    requires c.fetchUserData(identity) == Some(user)
    requires !user.identity.emailVerified
    ensures Authenticate(c, r) ==
      (Rejected(StatusUnauthorized, EmailNotVerifiedMessage), [FetchIdentity(token), FetchUserData(identity)])
  {
    AuthenticateFromStart(c, r);
    RunFromHeaderParsed(c, r, token);
    RunFromIdentityResolved(c, r, identity);
    RunFromPermissionsLoaded(c, r, user);
    assert [FetchIdentity(token)] + ([FetchUserData(identity)] + []) == [FetchIdentity(token), FetchUserData(identity)];
  }

  /** A strategy error gives 401 "denied by policy"; the next handler does not run. */
  lemma StrategyDenialRejected(c: Collaborators, r: Request, token: string, identity: UserIdentity, user: User)
    requires BearerToken(r) == Some(token)
    requires c.decode(c.fetchIdentity(token).body) == Some(identity)
    requires c.fetchUserData(identity) == Some(user)
    requires user.identity.emailVerified
    requires c.authorize(user, r).Deny?
    ensures Authenticate(c, r) ==
      (Rejected(StatusUnauthorized, DeniedByPolicyMessage),
       [FetchIdentity(token), FetchUserData(identity), Authorize(user)])
  {
    AuthenticateFromStart(c, r);
    RunFromHeaderParsed(c, r, token);
    RunFromIdentityResolved(c, r, identity);
    RunFromPermissionsLoaded(c, r, user);
    RunFromVerificationChecked(c, r, user);
    assert [FetchIdentity(token)] + ([FetchUserData(identity)] + [Authorize(user)])
      == [FetchIdentity(token), FetchUserData(identity), Authorize(user)];
  }

  /** When every guard passes, the principal from the data fetcher is handed to the next handler. */
  lemma AllGuardsPassForwarded(c: Collaborators, r: Request, token: string, identity: UserIdentity, user: User)
    requires BearerToken(r) == Some(token)
    requires c.decode(c.fetchIdentity(token).body) == Some(identity)
    requires c.fetchUserData(identity) == Some(user)
    requires user.identity.emailVerified
    requires c.authorize(user, r).Permit?
    ensures Authenticate(c, r) ==
      (Forwarded(user), [FetchIdentity(token), FetchUserData(identity), Authorize(user), Next(user)])
  {
    AuthenticateFromStart(c, r);
    RunFromHeaderParsed(c, r, token);
    RunFromIdentityResolved(c, r, identity);
    RunFromPermissionsLoaded(c, r, user);
    RunFromVerificationChecked(c, r, user);
    assert [FetchIdentity(token)] + ([FetchUserData(identity)] + [Authorize(user), Next(user)])
      == [FetchIdentity(token), FetchUserData(identity), Authorize(user), Next(user)];
  }

  /**
   * Conversely, a request is forwarded only when every guard passed, and
   * what is forwarded is the principal the data fetcher produced.
   */
  lemma ForwardedOnlyWhenAllGuardsPass(c: Collaborators, r: Request)
    requires Authenticate(c, r).0.Forwarded?
    ensures BearerToken(r).Some?
    ensures var identity := c.decode(c.fetchIdentity(BearerToken(r).value).body);
      && identity.Some?
      && c.fetchUserData(identity.value) == Some(Authenticate(c, r).0.user)
    ensures Authenticate(c, r).0.user.identity.emailVerified
    ensures c.authorize(Authenticate(c, r).0.user, r).Permit?
  {
    if BearerToken(r).None? {
      MalformedHeaderRejected(c, r);
    } else {
      var token := BearerToken(r).value;
      var identity := c.decode(c.fetchIdentity(token).body);
      if identity.None? {
        UndecodableIdentityRejected(c, r, token);
      } else {
        var user := c.fetchUserData(identity.value);
        if user.None? {
          UserDataErrorRejected(c, r, token, identity.value);
        } else if !user.value.identity.emailVerified {
          UnverifiedEmailRejected(c, r, token, identity.value, user.value);
        } else if c.authorize(user.value, r).Deny? {
          StrategyDenialRejected(c, r, token, identity.value, user.value);
        } else {
          AllGuardsPassForwarded(c, r, token, identity.value, user.value);
        }
      }
    }
  }

  /** The error the identity fetcher reports is ignored: only its body matters. */
  lemma IdentityFetchErrorIgnored(c: Collaborators, r: Request, failed: string -> bool)
    ensures var c' := c.(fetchIdentity := (t: string) => IdentityReply(c.fetchIdentity(t).body, failed(t)));
      Authenticate(c', r) == Authenticate(c, r)
  {
    var c' := c.(fetchIdentity := (t: string) => IdentityReply(c.fetchIdentity(t).body, failed(t)));
    AuthenticateFromStart(c, r);
    AuthenticateFromStart(c', r);
    if BearerToken(r).Some? {
      var token := BearerToken(r).value;
      RunFromHeaderParsed(c, r, token);
      RunFromHeaderParsed(c', r, token);
      assert c'.fetchIdentity(token).body == c.fetchIdentity(token).body;
      if c.decode(c.fetchIdentity(token).body).Some? {
        var identity := c.decode(c.fetchIdentity(token).body).value;
        RunFromIdentityResolved(c, r, identity);
        RunFromIdentityResolved(c', r, identity);
        if c.fetchUserData(identity).Some? {
          var user := c.fetchUserData(identity).value;
          RunFromPermissionsLoaded(c, r, user);
          RunFromPermissionsLoaded(c', r, user);
          RunFromVerificationChecked(c, r, user);
          RunFromVerificationChecked(c', r, user);
        }
      }
    }
  }

  // ---------------------------------------------------------------------
  // The handler as the source writes it

  /**
   * The handler RequireAuthentication wraps around `next`: the guards in
   * the fixed order header, identity decode, user data, verified e-mail,
   * strategy, each returning at once with its own rejection; on success the
   * principal is passed on. It behaves exactly as the state machine.
   */
  method RequireAuthentication(c: Collaborators, r: Request) returns (outcome: Outcome, calls: seq<Call>)
    ensures (outcome, calls) == Authenticate(c, r)
  {
    var authHeader := Split(HeaderGet(r.header, "Authorization"), "Bearer");
    if |authHeader| != 2 {
      MalformedHeaderRejected(c, r);
      return Rejected(StatusBadRequest, MalformedHeaderMessage), [];
    }
    var bearerToken := TrimSpace(authHeader[1]);
    outcome, calls := AuthenticateToken(c, r, bearerToken);
  }

  /** The guards after the header, for a request whose header yielded `bearerToken`. */
  method AuthenticateToken(c: Collaborators, r: Request, bearerToken: string) returns (outcome: Outcome, calls: seq<Call>)
    requires BearerToken(r) == Some(bearerToken)
    ensures (outcome, calls) == Authenticate(c, r)
  {
    var reply := c.fetchIdentity(bearerToken);
    var userIdentity := c.decode(reply.body);
    if userIdentity.None? {
      UndecodableIdentityRejected(c, r, bearerToken);
      return Rejected(StatusInternalServerError, UserIdErrorMessage), [FetchIdentity(bearerToken)];
    }
    var identity := userIdentity.value;
    var user := c.fetchUserData(identity);
    if user.None? {
      UserDataErrorRejected(c, r, bearerToken, identity);
      return Rejected(StatusInternalServerError, UserIdErrorMessage),
        [FetchIdentity(bearerToken), FetchUserData(identity)];
    }
    var u := user.value;
    if !u.identity.emailVerified {
      UnverifiedEmailRejected(c, r, bearerToken, identity, u);
      return Rejected(StatusUnauthorized, EmailNotVerifiedMessage),
        [FetchIdentity(bearerToken), FetchUserData(identity)];
    }
    var decision := c.authorize(u, r);
    if decision.Deny? {
      StrategyDenialRejected(c, r, bearerToken, identity, u);
      return Rejected(StatusUnauthorized, DeniedByPolicyMessage),
        [FetchIdentity(bearerToken), FetchUserData(identity), Authorize(u)];
    }
    AllGuardsPassForwarded(c, r, bearerToken, identity, u);
    return Forwarded(u), [FetchIdentity(bearerToken), FetchUserData(identity), Authorize(u), Next(u)];
  }
}
