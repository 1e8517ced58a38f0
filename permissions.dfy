/** The object permissions of the API. The `view` argument of `has_object_permission`
    is not used by either rule and is not a parameter here. */
module Permissions {
  import opened Models

  /** `permissions.SAFE_METHODS`. */
  const SafeMethods: seq<string> := ["GET", "HEAD", "OPTIONS"]

  /** `AdminOrReadOnly.has_object_permission`. Django's AnonymousUser is neither staff nor
      superuser. */
  predicate AdminOrReadOnly(verb: string, user: RequestUser) {
    verb in SafeMethods || (user.Member? && user.isSuperuser) || (user.Member? && user.isStaff)
  }

  /** `AuthorOrReadOnly.has_object_permission` for an object written by `author`.
      AnonymousUser is equal to no account. */
  predicate AuthorOrReadOnly(verb: string, user: RequestUser, author: UserId) {
    verb in SafeMethods || (user.Member? && user.id == author)
  }

  /** Both rules allow a safe method to anybody on any object. */
  lemma SafeMethodsAlwaysAllowed(verb: string, user: RequestUser, author: UserId)
    requires verb == "GET" || verb == "HEAD" || verb == "OPTIONS"
    ensures AdminOrReadOnly(verb, user) && AuthorOrReadOnly(verb, user, author)
  {
  }

  /** Any other method needs a staff or superuser account. */
  lemma AdminOrReadOnlyUnsafe(verb: string, user: RequestUser)
    requires verb != "GET" && verb != "HEAD" && verb != "OPTIONS"
    ensures AdminOrReadOnly(verb, user) <==> user.Member? && (user.isSuperuser || user.isStaff)
  {
  }

  /** Any other method is allowed exactly to the object's author. */
  lemma AuthorOrReadOnlyUnsafe(verb: string, user: RequestUser, author: UserId)
    requires verb != "GET" && verb != "HEAD" && verb != "OPTIONS"
    ensures AuthorOrReadOnly(verb, user, author) <==> user.Member? && user.id == author
  {
  }

  /** An anonymous request may only read. */
  lemma AnonymousOnlyReads(verb: string, author: UserId)
    ensures AdminOrReadOnly(verb, Anonymous) <==> verb in SafeMethods
    ensures AuthorOrReadOnly(verb, Anonymous, author) <==> verb in SafeMethods
  {
  }
}
