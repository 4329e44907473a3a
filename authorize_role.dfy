/**
 * middleware/authorizeRole.js: the allow-list gate placed in front of a route.
 * A request without a role is refused as unauthenticated before the allow-list
 * is consulted; otherwise the lower-cased role must appear among the
 * lower-cased allowed roles.
 */
module AuthorizeRole {
  import opened Text

  /** The middleware's argument: one role, or a list of roles. */
  datatype RequiredRoles = OneRole(role: string) | RoleList(roles: seq<string>)

  /** What the middleware does with the request. */
  datatype Decision = Unauthorized | Forbidden | PassOn

  function HttpStatus(d: Decision): int {
    match d
    case Unauthorized => 401
    case Forbidden => 403
    case PassOn => 200
  }

  /** `if (!Array.isArray(requiredRoles)) requiredRoles = [requiredRoles]` */
  function AsList(required: RequiredRoles): seq<string> {
    match required
    case OneRole(r) => [r]
    case RoleList(rs) => rs
  }

  /** `requiredRoles.map((r) => r.toLowerCase())` */
  function NormalizedRoles(required: RequiredRoles): (r: seq<string>)
    ensures |r| == |AsList(required)|
    ensures forall i :: 0 <= i < |r| ==> r[i] == Lower(AsList(required)[i])
  {
    var rs := AsList(required);
    seq(|rs|, i requires 0 <= i < |rs| => Lower(rs[i]))
  }

  /**
   * The gate for a request whose token carried `userRole` (the empty string
   * when the request has no user or the user no role).
   */
  function Authorize(required: RequiredRoles, userRole: string): (d: Decision)
    ensures d == Unauthorized <==> userRole == ""
    ensures d == PassOn <==>
      userRole != "" && exists i :: 0 <= i < |AsList(required)| && Lower(AsList(required)[i]) == Lower(userRole)
  {
    var role := Lower(userRole);
    if role == "" then Unauthorized
    else if role !in NormalizedRoles(required) then Forbidden
    else PassOn
  }

  /** A missing role is answered 401 whatever the allow-list, even an empty one. */
  lemma MissingRoleBeforeAllowList(required: RequiredRoles)
    ensures HttpStatus(Authorize(required, "")) == 401
  {
  }

  /** Letter case does not matter, neither in the user's role nor in the allow-list. */
  lemma CaseInsensitive(required: seq<string>, userRole: string)
    ensures Authorize(RoleList(required), userRole) == Authorize(RoleList(required), Lower(userRole))
    ensures var lowered := seq(|required|, i requires 0 <= i < |required| => Lower(required[i]));
      Authorize(RoleList(required), userRole) == Authorize(RoleList(lowered), userRole)
  {
    var lowered := seq(|required|, i requires 0 <= i < |required| => Lower(required[i]));
    LowerIdempotent(userRole);
    forall i | 0 <= i < |required| ensures Lower(lowered[i]) == Lower(required[i]) {
      LowerIdempotent(required[i]);
    }
    assert NormalizedRoles(RoleList(lowered)) == NormalizedRoles(RoleList(required));
  }

  /** A single required role behaves as the one-element list holding it. */
  lemma SingleRoleIsSingletonList(role: string, userRole: string)
    ensures Authorize(OneRole(role), userRole) == Authorize(RoleList([role]), userRole)
  {
  }

  /** The roles an allow-list admits, lower-cased, with order and repetition forgotten. */
  function AllowedSet(required: RequiredRoles): set<string> {
    set r | r in NormalizedRoles(required)
  }

  /**
   * Only membership matters: two allow-lists that admit the same lower-cased
   * roles, in any order and with any repetition, decide every request alike.
   */
  lemma OnlyMembershipMatters(a: RequiredRoles, b: RequiredRoles, userRole: string)
    requires AllowedSet(a) == AllowedSet(b)
    ensures Authorize(a, userRole) == Authorize(b, userRole)
  {
    var role := Lower(userRole);
    assert role in NormalizedRoles(a) <==> role in AllowedSet(a);
    assert role in NormalizedRoles(b) <==> role in AllowedSet(b);
  }
}
