/** The records of server/auth/user.go that the authorization core passes around. */
module Users {

  /** The identity provider's answer, as decoded from its JSON user-info body. */
  datatype UserIdentity = UserIdentity(
    username: string,
    email: string,
    userId: string,        // JSON key "sub"
    emailVerified: bool)   // JSON key "email_verified"

  /** Patterns tested against the request path; only `actions` are ever evaluated. */
  datatype Statement = Statement(actions: seq<string>, resources: seq<string>)

  /** A bundle of deny and allow statements, one per stored access policy. */
  datatype Permission = Permission(denys: seq<Statement>, allows: seq<Statement>)

  /** The principal of one request: who the caller is and what they may do. */
  datatype User = User(identity: UserIdentity, permissions: seq<Permission>)
}
