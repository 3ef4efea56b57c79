/**
 * Authorization strategies of server/auth/strategy.go: the allow-all
 * strategy and the policy strategy, which normalises the request target to
 * a path and then evaluates the caller's deny and allow statements against
 * it. Action patterns are regular expressions; their matching is an oracle.
 */
module Strategy {
  import opened Wrappers
  import opened Text
  import opened Users
  import opened Http

  /** What regexp.MatchString(pattern, path) reports: a match, no match, or a pattern that does not compile. */
  datatype MatchResult = Matched | NoMatch | MatchError

  /** Regular-expression matching of an action pattern against a path: (pattern, path) -> result. */
  type Matcher = (string, string) -> MatchResult

  /** Why a strategy refused; the pipeline reports all of them alike. */
  datatype StrategyError =
    | PathNotExtracted   // "matches < 2 or matches 1 is empty"
    | DeniedByPolicy     // "Denied by policy"
    | NoMatchInPolicy    // "No match in policy"

  /** A strategy's answer: nil error, or an error. */
  datatype Decision = Permit | Deny(reason: StrategyError)

  /** The shape every strategy has: it sees the principal and the request. */
  type AuthorizationStrategy = (User, Request) -> Decision

  /** The allow-all strategy never refuses, whoever asks for whatever. */
  function AllowAllAuthorizationStrategy(user: User, r: Request): (d: Decision)
    ensures d == Permit
  {
    Permit
  }

  // ---------------------------------------------------------------------
  // Path extraction

  /**
   * The PATH group of the regular expression `^(?P<PATH>[^?]*)\??.*$` over
   * `ep`, or None when the expression does not match. In Go's RE2 the
   * negated class `[^?]` matches a newline while `.` does not and `$` is the
   * end of the text, so the match fails exactly when a newline follows a
   * question mark; otherwise the group is everything before the first `?`.
   */
  function PathSubmatch(ep: string): (g: Option<string>)
    ensures g.Some? ==> g.value <= ep && '?' !in g.value
    ensures g.Some? ==> g.value == ep || ep[|g.value|] == '?'
    ensures g.None? <==> exists q, n :: 0 <= q < n < |ep| && ep[q] == '?' && ep[n] == '\n'
  {
    match IndexOfChar(ep, '?')
    case None => Some(ep)
    case Some(q) =>
      QueryFollowedByNewline(ep, q);
      if '\n' in ep[q + 1..] then None else Some(ep[..q])
  }

  /** With `q` the first question mark, a newline after it is a newline after some question mark. */
  lemma QueryFollowedByNewline(ep: string, q: nat)
    requires q < |ep| && ep[q] == '?' && '?' !in ep[..q]
    ensures '\n' in ep[q + 1..] <==> exists q', n :: 0 <= q' < n < |ep| && ep[q'] == '?' && ep[n] == '\n'
  {
    if '\n' in ep[q + 1..] {
      var m :| 0 <= m < |ep[q + 1..]| && ep[q + 1..][m] == '\n';
      assert ep[q + 1 + m] == '\n';
    }
    if exists q', n :: 0 <= q' < n < |ep| && ep[q'] == '?' && ep[n] == '\n' {
      var q', n :| 0 <= q' < n < |ep| && ep[q'] == '?' && ep[n] == '\n';
      assert ep[q + 1..][n - q - 1] == '\n';
    }
  }

  /**
   * The path the policy strategy evaluates: the request target with
   * `apiPrefix` removed when it is a prefix, cut before the first `?`, and
   * trimmed of white space. An empty result, or a target the path expression
   * does not match, yields None. A path never holds `?`, never starts or
   * ends with white space, and is never empty.
   */
  function ExtractPath(apiPrefix: string, requestURI: string): (p: Option<string>)
    ensures p.Some? ==> p.value != [] && '?' !in p.value
    ensures p.Some? ==> !IsSpace(p.value[0]) && !IsSpace(p.value[|p.value| - 1])
  {
    var ep := TrimPrefix(requestURI, apiPrefix);
    match PathSubmatch(ep)
    case None => None
    case Some(group) => TrimmedPath(group)
  }

  /** The PATH group trimmed of white space, or None when nothing is left. */
  function TrimmedPath(group: string): (p: Option<string>)
    requires '?' !in group
    ensures p.Some? ==> p.value != [] && '?' !in p.value
    ensures p.Some? ==> !IsSpace(p.value[0]) && !IsSpace(p.value[|p.value| - 1])
  {
    var path := TrimSpace(group);
    if |path| == 0 then None
    else
      assert '?' !in path by {
        TrimSpaceKeepsCharacters(group);
      }
      Some(path)
  }

  /** An empty request target never yields a path. */
  lemma EmptyTargetHasNoPath(apiPrefix: string)
    ensures ExtractPath(apiPrefix, "") == None
  {
  }

  /** A target that is only the prefix, possibly with a query, yields no path. */
  lemma BarePrefixHasNoPath(apiPrefix: string, query: string)
    ensures ExtractPath(apiPrefix, apiPrefix + "?" + query) == None
  {
    var uri := apiPrefix + "?" + query;
    assert apiPrefix <= uri;
    assert TrimPrefix(uri, apiPrefix) == "?" + query;
    assert IndexOfChar("?" + query, '?') == Some(0);
  }

  /**
   * Normalisation is idempotent: a normalised path that the prefix does not
   * strip again normalises to itself.
   */
  lemma ExtractPathIdempotent(apiPrefix: string, requestURI: string, p: string)
    requires ExtractPath(apiPrefix, requestURI) == Some(p)
    requires TrimPrefix(p, apiPrefix) == p
    ensures ExtractPath(apiPrefix, p) == Some(p)
  {
    CleanPathExtracted(apiPrefix, p);
  }

  /** A path in normal form that the prefix does not strip is extracted as it is. */
  lemma CleanPathExtracted(apiPrefix: string, p: string)
    requires p != [] && '?' !in p && !IsSpace(p[0]) && !IsSpace(p[|p| - 1])
    requires TrimPrefix(p, apiPrefix) == p
    ensures ExtractPath(apiPrefix, p) == Some(p)
  {
    assert PathSubmatch(p) == Some(p);
    TrimSpaceOfUnpadded(p);
  }

  // ---------------------------------------------------------------------
  // Policy evaluation

  /** A deny statement hits when one of its actions matches the path or fails to compile. */
  predicate DenyStatementHit(matcher: Matcher, s: Statement, path: string) {
    exists k :: 0 <= k < |s.actions| && matcher(s.actions[k], path) != NoMatch
  }

  /** An allow statement hits when one of its actions matches the path cleanly. */
  predicate AllowStatementHit(matcher: Matcher, s: Statement, path: string) {
    exists k :: 0 <= k < |s.actions| && matcher(s.actions[k], path) == Matched
  }

  predicate PermissionDenies(matcher: Matcher, p: Permission, path: string) {
    exists j :: 0 <= j < |p.denys| && DenyStatementHit(matcher, p.denys[j], path)
  }

  predicate PermissionAllows(matcher: Matcher, p: Permission, path: string) {
    exists j :: 0 <= j < |p.allows| && AllowStatementHit(matcher, p.allows[j], path)
  }

  /** Some deny statement of some permission hits. */
  predicate AnyDeny(matcher: Matcher, ps: seq<Permission>, path: string) {
    exists i :: 0 <= i < |ps| && PermissionDenies(matcher, ps[i], path)
  }

  /** Some allow statement of some permission hits. */
  predicate AnyAllow(matcher: Matcher, ps: seq<Permission>, path: string) {
    exists i :: 0 <= i < |ps| && PermissionAllows(matcher, ps[i], path)
  }

  /**
   * Deny-overrides, default-deny evaluation: a deny hit anywhere is final,
   * otherwise an allow hit anywhere permits, otherwise the request is denied
   * by default. It never answers with the path-extraction error.
   */
  function Evaluate(matcher: Matcher, ps: seq<Permission>, path: string): (d: Decision)
    ensures d == Permit <==> !AnyDeny(matcher, ps, path) && AnyAllow(matcher, ps, path)
    ensures d == Deny(DeniedByPolicy) <==> AnyDeny(matcher, ps, path)
    ensures d != Deny(PathNotExtracted)
  {
    if AnyDeny(matcher, ps, path) then Deny(DeniedByPolicy)
    else if AnyAllow(matcher, ps, path) then Permit
    else Deny(NoMatchInPolicy)
  }

  /** The policy strategy's verdict for a principal and a request. */
  function PolicyDecision(apiPrefix: string, matcher: Matcher, user: User, r: Request): (d: Decision)
    ensures d == Deny(PathNotExtracted) <==> ExtractPath(apiPrefix, r.requestURI).None?
  {
    match ExtractPath(apiPrefix, r.requestURI)
    case None => Deny(PathNotExtracted)
    case Some(path) => Evaluate(matcher, user.permissions, path)
  }

  /** PolicyAuthorizationStrategy(apiPrefix) as a strategy value. */
  function PolicyStrategy(apiPrefix: string, matcher: Matcher): AuthorizationStrategy {
    (user: User, r: Request) => PolicyDecision(apiPrefix, matcher, user, r)
  }

  /**
   * The policy strategy as the source runs it: extract the path, or refuse
   * when there is none, then walk the permissions.
   */
  method PolicyAuthorizationStrategy(apiPrefix: string, matcher: Matcher, user: User, r: Request)
    returns (d: Decision)
    ensures d == PolicyDecision(apiPrefix, matcher, user, r)
  {
    var ep := TrimPrefix(r.requestURI, apiPrefix);
    var matches := PathSubmatch(ep);
    if matches.None? || |TrimSpace(matches.value)| == 0 {
      return Deny(PathNotExtracted);
    }
    var path := TrimSpace(matches.value);
    d := EvaluatePermissions(matcher, user.permissions, path);
  }

  /**
   * The triple loop of the policy strategy: each permission's deny
   * statements before its allow statements, returning on the first deny hit
   * and remembering whether any allow hit. Its verdict is exactly the
   * deny-overrides, default-deny decision.
   */
  method EvaluatePermissions(matcher: Matcher, ps: seq<Permission>, path: string) returns (d: Decision)
    ensures d == Evaluate(matcher, ps, path)
  {
    var allowPolicyMatched := false;
    for i := 0 to |ps|
      invariant forall i' :: 0 <= i' < i ==> !PermissionDenies(matcher, ps[i'], path)
      invariant allowPolicyMatched <==> exists i' :: 0 <= i' < i && PermissionAllows(matcher, ps[i'], path)
    {
      var p := ps[i];
      for j := 0 to |p.denys|
        invariant forall j' :: 0 <= j' < j ==> !DenyStatementHit(matcher, p.denys[j'], path)
      {
        var deny := p.denys[j];
        for k := 0 to |deny.actions|
          invariant forall k' :: 0 <= k' < k ==> matcher(deny.actions[k'], path) == NoMatch
        {
          if matcher(deny.actions[k], path) != NoMatch {
            assert DenyStatementHit(matcher, p.denys[j], path);
            assert PermissionDenies(matcher, ps[i], path);
            return Deny(DeniedByPolicy);
          }
        }
      }
      ghost var before := allowPolicyMatched;
      for j := 0 to |p.allows|
        invariant allowPolicyMatched <==>
          (before || exists j' :: 0 <= j' < j && AllowStatementHit(matcher, p.allows[j'], path))
      {
        var allow := p.allows[j];
        for k := 0 to |allow.actions|
          invariant allowPolicyMatched <==>
            (|| before
             || (exists j' :: 0 <= j' < j && AllowStatementHit(matcher, p.allows[j'], path))
             || (exists k' :: 0 <= k' < k && matcher(allow.actions[k'], path) == Matched))
        {
          if matcher(allow.actions[k], path) == Matched {
            allowPolicyMatched := true;
          }
        }
      }
    }
    if allowPolicyMatched {
      return Permit;
    } else {
      return Deny(NoMatchInPolicy);
    }
  }

  // ---------------------------------------------------------------------
  // Properties of the decision

  /** The policy strategy permits exactly when a path is extracted, nothing denies it and something allows it. */
  lemma PermitIff(apiPrefix: string, matcher: Matcher, user: User, r: Request)
    ensures var p := ExtractPath(apiPrefix, r.requestURI);
      PolicyDecision(apiPrefix, matcher, user, r) == Permit <==>
        p.Some? && !AnyDeny(matcher, user.permissions, p.value) && AnyAllow(matcher, user.permissions, p.value)
  {
  }

  /**
   * A deny action that matches, or that does not compile, in any statement of
   * any permission denies the request, whatever the allow statements say.
   */
  lemma DenyOverridesAllow(matcher: Matcher, ps: seq<Permission>, path: string, i: nat, j: nat, k: nat)
    requires i < |ps| && j < |ps[i].denys| && k < |ps[i].denys[j].actions|
    requires matcher(ps[i].denys[j].actions[k], path) != NoMatch
    ensures Evaluate(matcher, ps, path) == Deny(DeniedByPolicy)
  {
    assert DenyStatementHit(matcher, ps[i].denys[j], path);
    assert PermissionDenies(matcher, ps[i], path);
  }

  /** Without an allow hit the request is denied, with or without a deny hit. */
  lemma DefaultDeny(matcher: Matcher, ps: seq<Permission>, path: string)
    requires forall i, j, k :: 0 <= i < |ps| && 0 <= j < |ps[i].allows| && 0 <= k < |ps[i].allows[j].actions|
               ==> matcher(ps[i].allows[j].actions[k], path) != Matched
    ensures Evaluate(matcher, ps, path).Deny?
  {
  }

  /** Zero permissions: denied by default. */
  lemma NoPermissionsDenied(matcher: Matcher, path: string)
    ensures Evaluate(matcher, [], path) == Deny(NoMatchInPolicy)
  {
  }

  /** Statements without actions (including empty ones) are inert: denied by default. */
  lemma EmptyActionsDenied(matcher: Matcher, ps: seq<Permission>, path: string)
    requires forall i, j :: 0 <= i < |ps| && 0 <= j < |ps[i].denys| ==> ps[i].denys[j].actions == []
    requires forall i, j :: 0 <= i < |ps| && 0 <= j < |ps[i].allows| ==> ps[i].allows[j].actions == []
    ensures Evaluate(matcher, ps, path) == Deny(NoMatchInPolicy)
  {
  }

  /** An allow pattern that does not compile counts as no match: adding one changes nothing. */
  lemma MalformedAllowIgnored(matcher: Matcher, ps: seq<Permission>, path: string, a: string, resources: seq<string>)
    requires matcher(a, path) == MatchError
    ensures Evaluate(matcher, ps + [Permission([], [Statement([a], resources)])], path) == Evaluate(matcher, ps, path)
  {
    var qs := ps + [Permission([], [Statement([a], resources)])];
    assert !PermissionDenies(matcher, qs[|ps|], path);
    assert !PermissionAllows(matcher, qs[|ps|], path);
    assert forall i :: 0 <= i < |ps| ==> qs[i] == ps[i];
  }

  /** A deny pattern that does not compile denies: adding one denies every request. */
  lemma MalformedDenyDenies(matcher: Matcher, ps: seq<Permission>, path: string, a: string, resources: seq<string>)
    requires matcher(a, path) == MatchError
    ensures Evaluate(matcher, ps + [Permission([Statement([a], resources)], [])], path) == Deny(DeniedByPolicy)
  {
    var qs := ps + [Permission([Statement([a], resources)], [])];
    DenyOverridesAllow(matcher, qs, path, |ps|, 0, 0);
  }

  /** The decision depends only on which permissions are held, not on their order. */
  lemma OrderIrrelevant(matcher: Matcher, ps: seq<Permission>, qs: seq<Permission>, path: string)
    requires multiset(ps) == multiset(qs)
    ensures Evaluate(matcher, ps, path) == Evaluate(matcher, qs, path)
  {
    assert forall p :: p in ps <==> p in qs by {
      forall p ensures p in ps <==> p in qs {
        assert p in ps <==> p in multiset(ps);
        assert p in qs <==> p in multiset(qs);
      }
    }
    MembershipDecides(matcher, ps, path);
    MembershipDecides(matcher, qs, path);
  }

  /** The hits of a permission list, stated by membership instead of by position. */
  lemma MembershipDecides(matcher: Matcher, ps: seq<Permission>, path: string)
    ensures AnyDeny(matcher, ps, path) <==> exists p :: p in ps && PermissionDenies(matcher, p, path)
    ensures AnyAllow(matcher, ps, path) <==> exists p :: p in ps && PermissionAllows(matcher, p, path)
  {
  }

  /** Every statement with its resources emptied. */
  function ClearResources(ps: seq<Permission>): (qs: seq<Permission>)
    ensures |qs| == |ps|
  {
    seq(|ps|, i requires 0 <= i < |ps| =>
      Permission(ClearStatements(ps[i].denys), ClearStatements(ps[i].allows)))
  }

  function ClearStatements(ss: seq<Statement>): (ts: seq<Statement>)
    ensures |ts| == |ss|
    ensures forall j :: 0 <= j < |ss| ==> ts[j].actions == ss[j].actions
  {
    seq(|ss|, j requires 0 <= j < |ss| => Statement(ss[j].actions, []))
  }

  /** Resources are never read: erasing every one of them leaves the decision as it was. */
  lemma ResourcesIgnored(matcher: Matcher, ps: seq<Permission>, path: string)
    ensures Evaluate(matcher, ClearResources(ps), path) == Evaluate(matcher, ps, path)
  {
    var qs := ClearResources(ps);
    forall i | 0 <= i < |ps|
      ensures PermissionDenies(matcher, qs[i], path) == PermissionDenies(matcher, ps[i], path)
      ensures PermissionAllows(matcher, qs[i], path) == PermissionAllows(matcher, ps[i], path)
    {
      assert qs[i].denys == ClearStatements(ps[i].denys);
      assert qs[i].allows == ClearStatements(ps[i].allows);
      forall j | 0 <= j < |ps[i].denys|
        ensures DenyStatementHit(matcher, qs[i].denys[j], path) == DenyStatementHit(matcher, ps[i].denys[j], path)
      {
        assert qs[i].denys[j].actions == ps[i].denys[j].actions;
      }
      forall j | 0 <= j < |ps[i].allows|
        ensures AllowStatementHit(matcher, qs[i].allows[j], path) == AllowStatementHit(matcher, ps[i].allows[j], path)
      {
        assert qs[i].allows[j].actions == ps[i].allows[j].actions;
      }
    }
  }

  // ---------------------------------------------------------------------
  // Worked requests

  /**
   * A target made of the prefix, a clean path and a newline-free query is
   * evaluated as that path.
   */
  lemma PrefixAndQueryStripped(apiPrefix: string, path: string, query: string)
    requires path != [] && '?' !in path && !IsSpace(path[0]) && !IsSpace(path[|path| - 1])
    requires '\n' !in query
    ensures ExtractPath(apiPrefix, apiPrefix + path + "?" + query) == Some(path)
  {
    var uri := apiPrefix + path + "?" + query;
    assert apiPrefix <= uri;
    var ep := TrimPrefix(uri, apiPrefix);
    assert ep == path + "?" + query;
    assert ep[|path|] == '?' && ep[..|path|] == path;
    assert IndexOfChar(ep, '?') == Some(|path|);
    assert ep[|path| + 1..] == query;
    TrimSpaceOfUnpadded(path);
  }

  /**
   * A request such as "/api/ping?foo=bar" under prefix "/api" with the
   * allow pattern "^/ping$", for any prefix, path and query: an allow
   * pattern matching the path permits the request.
   */
  lemma PrefixedQueryTargetPermitted(apiPrefix: string, path: string, query: string,
                                     matcher: Matcher, allow: string, user: User, header: map<string, seq<string>>)
    requires path != [] && '?' !in path && !IsSpace(path[0]) && !IsSpace(path[|path| - 1])
    requires '\n' !in query
    requires matcher(allow, path) == Matched
    requires user.permissions == [Permission([], [Statement([allow], [".*"])])]
    ensures PolicyDecision(apiPrefix, matcher, user, Request(header, apiPrefix + path + "?" + query)) == Permit
  {
    PrefixAndQueryStripped(apiPrefix, path, query);
    SingleAllowPermits(matcher, allow, path, user.permissions[0]);
  }

  /** A lone permission whose one allow action matches permits. */
  lemma SingleAllowPermits(matcher: Matcher, allow: string, path: string, p: Permission)
    requires matcher(allow, path) == Matched
    requires p == Permission([], [Statement([allow], [".*"])])
    ensures Evaluate(matcher, [p], path) == Permit
  {
    assert matcher(p.allows[0].actions[0], path) == Matched;
    assert PermissionAllows(matcher, [p][0], path);
  }

  /** An allow in the first permission is overridden by a deny of the same path in the second. */
  lemma LaterDenyOverridesEarlierAllow(matcher: Matcher, pattern: string)
    requires matcher(pattern, "/ping") == Matched
    ensures Evaluate(matcher, [Permission([], [Statement([pattern], [])]),
                             Permission([Statement([pattern], [])], [])], "/ping") == Deny(DeniedByPolicy)
  {
    var ps := [Permission([], [Statement([pattern], [])]), Permission([Statement([pattern], [])], [])];
    DenyOverridesAllow(matcher, ps, "/ping", 1, 0, 0);
  }
}
