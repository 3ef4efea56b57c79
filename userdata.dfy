/**
 * userDataFetcher of server/main.go: fills the principal of an identity
 * from three tables (a user's directly attached policy names and groups,
 * the policy groups, the policies). The store's lookups and the attribute
 * decoding are given as functions; the guard order, the aggregation of
 * policy names, their de-duplication and the assembly of the principal are
 * modelled.
 */
module UserData {
  import opened Wrappers
  import opened Users
  import opened StringSet
  import opened Http
  import opened Strategy
  import opened Authentication

  /** The record of the user-to-policies table. */
  datatype UserPolicyNames = UserPolicyNames(policyNames: seq<string>, userId: string, policyGroups: seq<string>)

  /** The record of the policy-groups table. */
  datatype PolicyGroup = PolicyGroup(name: string, policyNames: seq<string>)

  /** The record of the policies table; only `permissions` reaches the principal. */
  datatype PermsWithMeta = PermsWithMeta(name: string, createdAt: int, updatedAt: int, description: string,
                                         permissions: Permission)

  /** One stored item after attribute decoding. */
  datatype Decoded<T> = Decoded(value: T) | Undecodable

  /** Why the fetcher gave up, one reason per early return. */
  datatype StoreError =
    | EmptyUserId
    | GetItemFailed
    | RecordUndecodable
    | GroupBatchFailed
    | GroupUndecodable
    | PolicyBatchFailed
    | PolicyUndecodable

  /**
   * The three lookups. A batch lookup takes the key names and answers with
   * its response tables, each a sequence of items; None is a failed call.
   */
  datatype Store = Store(
    getUserPolicyNames: string -> Option<Decoded<UserPolicyNames>>,
    batchGetGroups: seq<string> -> Option<seq<seq<Decoded<PolicyGroup>>>>,
    batchGetPolicies: seq<string> -> Option<seq<seq<Decoded<PermsWithMeta>>>>)

  // ---------------------------------------------------------------------
  // Walking the response tables

  /** The items of all tables, table after table. */
  function Flatten<T>(tables: seq<seq<T>>): seq<T> {
    if tables == [] then [] else Flatten(tables[..|tables| - 1]) + tables[|tables| - 1]
  }

  lemma FlattenSnoc<T>(tables: seq<seq<T>>, n: nat)
    requires n < |tables|
    ensures Flatten(tables[..n + 1]) == Flatten(tables[..n]) + tables[n]
  {
    assert tables[..n + 1][..n] == tables[..n];
  }

  /** Every item of every table is an item of the flattened sequence. */
  lemma {:induction false} FlattenHas<T>(tables: seq<seq<T>>, t: nat, k: nat)
    requires t < |tables| && k < |tables[t]|
    ensures exists i :: 0 <= i < |Flatten(tables)| && Flatten(tables)[i] == tables[t][k]
  {
    var init := tables[..|tables| - 1];
    if t == |tables| - 1 {
      assert Flatten(tables)[|Flatten(init)| + k] == tables[t][k];
    } else {
      FlattenHas(init, t, k);
      var i :| 0 <= i < |Flatten(init)| && Flatten(init)[i] == init[t][k];
      assert Flatten(tables)[i] == tables[t][k];
    }
  }

  /**
   * The items' contributions `f(v)` appended in order, or None as soon as
   * one item does not decode; None exactly when some item does not decode.
   */
  function Gather<T, U>(items: seq<Decoded<T>>, f: T -> seq<U>): (r: Option<seq<U>>)
    ensures r.None? <==> exists i :: 0 <= i < |items| && items[i].Undecodable?
  {
    if items == [] then Some([])
    else
      var init := items[..|items| - 1];
      assert forall i :: 0 <= i < |init| ==> init[i] == items[i];
      match Gather(init, f)
      case None => None
      case Some(acc) =>
        match items[|items| - 1]
        case Undecodable => None
        case Decoded(v) => Some(acc + f(v))
  }

  lemma GatherSnoc<T, U>(items: seq<Decoded<T>>, x: Decoded<T>, f: T -> seq<U>)
    ensures Gather(items + [x], f) ==
      match Gather(items, f)
      case None => None
      case Some(acc) => if x.Undecodable? then None else Some(acc + f(x.value))
  {
    assert (items + [x])[..|items|] == items;
  }

  /**
   * When every item decodes, what is gathered is exactly the contributions
   * of the items: each element comes from some item, and every item's
   * contribution is there.
   */
  lemma {:induction false} GatherMembership<T, U>(items: seq<Decoded<T>>, f: T -> seq<U>)
    requires Gather(items, f).Some?
    ensures forall x :: x in Gather(items, f).value <==>
      exists i :: 0 <= i < |items| && x in f(items[i].value)
  {
    if items != [] {
      var init := items[..|items| - 1];
      GatherMembership(init, f);
      assert forall i :: 0 <= i < |init| ==> init[i] == items[i];
    }
  }

  /** Gathering two runs of items is gathering each and appending. */
  lemma {:induction false} GatherAppend<T, U>(a: seq<Decoded<T>>, b: seq<Decoded<T>>, f: T -> seq<U>)
    ensures Gather(a + b, f) ==
      match Gather(a, f)
      case None => None
      case Some(x) =>
        match Gather(b, f)
        case None => None
        case Some(y) => Some(x + y)
    decreases |b|
  {
    if b == [] {
      assert a + b == a;
      if Gather(a, f).Some? {
        assert Gather(a, f).value + [] == Gather(a, f).value;
      }
    } else {
      var b' := b[..|b| - 1];
      var last := b[|b| - 1];
      GatherAppend(a, b', f);
      assert a + b == (a + b') + [last];
      GatherSnoc(a + b', last, f);
      GatherSnoc(b', last, f);
      assert b == b' + [last];
      var ga, gb := Gather(a, f), Gather(b', f);
      if ga.Some? && gb.Some? && last.Decoded? {
        assert ga.value + (gb.value + f(last.value)) == (ga.value + gb.value) + f(last.value);
      }
    }
  }

  /**
   * The nested loops over the response tables: starting from `acc`, append
   * the contribution of every item, table by table; an item that does not
   * decode ends the walk with an error.
   */
  method AppendDecoded<T, U>(tables: seq<seq<Decoded<T>>>, acc: seq<U>, f: T -> seq<U>) returns (r: Option<seq<U>>)
    ensures r == match Gather(Flatten(tables), f)
                 case None => None
                 case Some(gathered) => Some(acc + gathered)
  {
    var out := acc;
    for t := 0 to |tables|
      invariant Gather(Flatten(tables[..t]), f).Some?
      invariant out == acc + Gather(Flatten(tables[..t]), f).value
    {
      var next := AppendItems(tables[t], out, f);
      FlattenSnoc(tables, t);
      GatherAppend(Flatten(tables[..t]), tables[t], f);
      if next.None? {
        var k :| 0 <= k < |tables[t]| && tables[t][k].Undecodable?;
        FlattenHas(tables, t, k);
        return None;
      }
      out := next.value;
    }
    assert tables[..|tables|] == tables;
    return Some(out);
  }

  /** The inner loop: one table's items appended to `acc`. */
  method AppendItems<T, U>(items: seq<Decoded<T>>, acc: seq<U>, f: T -> seq<U>) returns (r: Option<seq<U>>)
    ensures r == match Gather(items, f)
                 case None => None
                 case Some(gathered) => Some(acc + gathered)
  {
    var out := acc;
    for k := 0 to |items|
      invariant Gather(items[..k], f).Some?
      invariant out == acc + Gather(items[..k], f).value
    {
      var item := items[k];
      assert items[..k + 1] == items[..k] + [item];
      GatherSnoc(items[..k], item, f);
      if item.Undecodable? {
        assert items[..k + 1][k].Undecodable?;
        GatherAppend(items[..k + 1], items[k + 1..], f);
        assert items[..k + 1] + items[k + 1..] == items;
        return None;
      }
      out := out + f(item.value);
    }
    assert items[..|items|] == items;
    return Some(out);
  }

  // ---------------------------------------------------------------------
  // The fetcher

  /** What a group adds to the policy names. */
  function GroupPolicyNames(g: PolicyGroup): seq<string> {
    g.policyNames
  }

  /** What a policy adds to the principal. */
  function PolicyPermissions(p: PermsWithMeta): seq<Permission> {
    [p.permissions]
  }

  /** One permission per policy item, in the order of the items. */
  lemma {:induction false} GatherPermissions(items: seq<Decoded<PermsWithMeta>>)
    requires Gather(items, PolicyPermissions).Some?
    ensures var r := Gather(items, PolicyPermissions).value;
      |r| == |items| && forall i :: 0 <= i < |items| ==> r[i] == items[i].value.permissions
  {
    if items != [] {
      var init := items[..|items| - 1];
      GatherPermissions(init);
      assert forall i :: 0 <= i < |init| ==> init[i] == items[i];
    }
  }

  /** The user's record, or the reason it could not be read. */
  function Record(store: Store, identity: UserIdentity): Result<UserPolicyNames, StoreError> {
    if identity.userId == "" then Failure(EmptyUserId)
    else match store.getUserPolicyNames(identity.userId)
      case None => Failure(GetItemFailed)
      case Some(Undecodable) => Failure(RecordUndecodable)
      case Some(Decoded(record)) => Success(record)
  }

  /**
   * The policy names the fetcher asks the policies table for: the directly
   * attached names followed by the names of every group, de-duplicated.
   */
  function PolicyQuery(store: Store, identity: UserIdentity): (q: Result<seq<string>, StoreError>)
    ensures identity.userId == "" ==> q == Failure(EmptyUserId)
    ensures q.Success? ==> NoDuplicates(q.value)
  {
    match Record(store, identity)
    case Failure(e) => Failure(e)
    case Success(record) =>
      match store.batchGetGroups(record.policyGroups)
      case None => Failure(GroupBatchFailed)
      case Some(groupTables) =>
        match Gather(Flatten(groupTables), GroupPolicyNames)
        case None => Failure(GroupUndecodable)
        case Some(fromGroups) =>
          FirstOccurrencesNoDuplicates(record.policyNames + fromGroups);
          Success(FirstOccurrences(record.policyNames + fromGroups))
  }

  /** The principal for `identity`, or the reason the fetcher gave up. */
  function LoadUser(store: Store, identity: UserIdentity): (u: Result<User, StoreError>)
    ensures identity.userId == "" ==> u == Failure(EmptyUserId)
    ensures u.Success? ==> u.value.identity == identity && identity.userId != ""
  {
    match PolicyQuery(store, identity)
    case Failure(e) => Failure(e)
    case Success(names) =>
      match store.batchGetPolicies(names)
      case None => Failure(PolicyBatchFailed)
      case Some(policyTables) =>
        match Gather(Flatten(policyTables), PolicyPermissions)
        case None => Failure(PolicyUndecodable)
        case Some(permissions) => Success(User(identity, permissions))
  }

  /**
   * userDataFetcher: the guard on the user id, the record lookup, the group
   * lookup whose names are appended to the direct ones, toSet on the names,
   * the policy lookup, and the principal built from the identity and the
   * permissions found.
   */
  method UserDataFetcher(store: Store, identity: UserIdentity) returns (res: Result<User, StoreError>)
    ensures res == LoadUser(store, identity)
  {
    if identity.userId == "" {
      return Failure(EmptyUserId);
    }
    var directlyAttached := store.getUserPolicyNames(identity.userId);
    if directlyAttached.None? {
      return Failure(GetItemFailed);
    }
    if directlyAttached.value.Undecodable? {
      return Failure(RecordUndecodable);
    }
    var userPolicyNames := directlyAttached.value.value;
    var fromGroups := store.batchGetGroups(userPolicyNames.policyGroups);
    if fromGroups.None? {
      return Failure(GroupBatchFailed);
    }
    var policyNames := AppendDecoded(fromGroups.value, userPolicyNames.policyNames, GroupPolicyNames);
    if policyNames.None? {
      return Failure(GroupUndecodable);
    }
    var names := policyNames.value;
    var slice := new string[|names|](i requires 0 <= i < |names| => names[i]);
    assert slice[..] == names;
    var w := ToSet(slice);
    names := slice[..w];
    assert PolicyQuery(store, identity) == Success(names);
    var permissionsResult := store.batchGetPolicies(names);
    if permissionsResult.None? {
      return Failure(PolicyBatchFailed);
    }
    var authPermissions := AppendDecoded(permissionsResult.value, [], PolicyPermissions);
    if authPermissions.None? {
      return Failure(PolicyUndecodable);
    }
    var gathered := Gather(Flatten(permissionsResult.value), PolicyPermissions);
    assert gathered.Some? && authPermissions.value == [] + gathered.value == gathered.value;
    assert LoadUser(store, identity) == Success(User(identity, gathered.value));
    return Success(User(identity, authPermissions.value));
  }

  // ---------------------------------------------------------------------
  // What the fetcher promises

  /** An empty user id is refused before the store is consulted, whatever it holds. */
  lemma EmptyUserIdRefused(store: Store, other: Store, identity: UserIdentity)
    requires identity.userId == ""
    ensures LoadUser(store, identity) == Failure(EmptyUserId)
    ensures LoadUser(store, identity) == LoadUser(other, identity)
  {
  }

  /**
   * The names queried: no name twice; exactly the directly attached names
   * and the names of the groups; the direct names first, in their order.
   */
  lemma PolicyQueryNames(store: Store, identity: UserIdentity)
    requires PolicyQuery(store, identity).Success?
    ensures var names := PolicyQuery(store, identity).value;
      var record := Record(store, identity).value;
      var groups := Flatten(store.batchGetGroups(record.policyGroups).value);
      && NoDuplicates(names)
      && (forall x :: x in names <==>
            x in record.policyNames || exists i :: 0 <= i < |groups| && x in groups[i].value.policyNames)
      && FirstOccurrences(record.policyNames) <= names
  {
    var record := Record(store, identity).value;
    var groups := Flatten(store.batchGetGroups(record.policyGroups).value);
    var fromGroups := Gather(groups, GroupPolicyNames).value;
    FirstOccurrencesNoDuplicates(record.policyNames + fromGroups);
    GatherMembership(groups, GroupPolicyNames);
    FirstOccurrencesAppend(record.policyNames, fromGroups);
  }

  /**
   * A principal is produced only when every lookup succeeded and every item
   * decoded; it carries the identity it was asked for, and one permission
   * per policy item returned, in response order.
   */
  lemma LoadedUser(store: Store, identity: UserIdentity)
    requires LoadUser(store, identity).Success?
    ensures identity.userId != ""
    ensures LoadUser(store, identity).value.identity == identity
    ensures var policies := Flatten(store.batchGetPolicies(PolicyQuery(store, identity).value).value);
      var permissions := LoadUser(store, identity).value.permissions;
      && |permissions| == |policies|
      && forall i :: 0 <= i < |policies| ==> permissions[i] == policies[i].value.permissions
  {
    var policies := Flatten(store.batchGetPolicies(PolicyQuery(store, identity).value).value);
    GatherPermissions(policies);
  }

  /** The adapter the handler is given: a fetcher error becomes None. */
  function DataFetcher(store: Store): UserIdentity -> Option<User> {
    (identity: UserIdentity) =>
      match LoadUser(store, identity)
      case Success(user) => Some(user)
      case Failure(_) => None
  }

  /**
   * Through the handler, an identity whose user id is empty is answered
   * with 500 "UserID error"; the strategy and the next handler never run.
   */
  lemma EmptyUserIdAnsweredWithUserIdError(c: Collaborators, store: Store, r: Request, token: string,
                                           identity: UserIdentity)
    requires c.fetchUserData == DataFetcher(store)
    requires BearerToken(r) == Some(token)
    requires c.decode(c.fetchIdentity(token).body) == Some(identity)
    requires identity.userId == ""
    ensures Authenticate(c, r) ==
      (Rejected(StatusInternalServerError, UserIdErrorMessage), [FetchIdentity(token), FetchUserData(identity)])
  {
    EmptyUserIdRefused(store, store, identity);
    UserDataErrorRejected(c, r, token, identity);
  }

  /**
   * Through the handler, the principal forwarded is the decoded identity
   * itself: so a request is forwarded only when the identity provider said
   * the e-mail is verified.
   */
  lemma ForwardedIdentityIsDecoded(c: Collaborators, store: Store, r: Request)
    requires c.fetchUserData == DataFetcher(store)
    requires Authenticate(c, r).0.Forwarded?
    ensures var identity := c.decode(c.fetchIdentity(BearerToken(r).value).body).value;
      && Authenticate(c, r).0.user.identity == identity
      && identity.emailVerified
      && identity.userId != ""
  {
    ForwardedOnlyWhenAllGuardsPass(c, r);
    var identity := c.decode(c.fetchIdentity(BearerToken(r).value).body).value;
    LoadedUser(store, identity);
  }
}
