/**
 * Request gating on the server: the bearer token taken from the
 * `Authorization` header, and the role checks that follow it in a route's
 * middleware chain. Token signature checking is an external library; it is
 * a parameter `verify` here, returning the decoded payload or nothing.
 */
module AuthMiddleware {
  import opened Wrappers

  /** The payload a login token carries (and `verify` decodes into `req.user`). */
  datatype Claims = Claims(userId: string, username: string, role: Option<string>, email: string)

  /** What a middleware does with a request: pass it on with the user, or answer it. */
  datatype Gate = Next(user: Claims) | Deny(status: nat, message: string)

  const NoTokenMessage: string := "No token provided"
  const InvalidTokenMessage: string := "Invalid token"

  // ---------------------------------------------------------------------------
  // String.prototype.split(' ')

  /** JavaScript `s.split(' ')`: the fields between single spaces, empty ones included. */
  function Split(s: string): (fields: seq<string>)
    ensures |fields| >= 1
    decreases |s|
  {
    if |s| == 0 then [""]
    else
      var rest := Split(s[1..]);
      if s[0] == ' ' then [""] + rest
      else [[s[0]] + rest[0]] + rest[1..]
  }

  /** The inverse of `Split`: the fields glued back together with single spaces. */
  function Join(fields: seq<string>): string
    requires |fields| >= 1
    decreases |fields|
  {
    if |fields| == 1 then fields[0] else fields[0] + " " + Join(fields[1..])
  }

  /** Index of the first space in `s`, or `|s|` when there is none. */
  function IndexOfSpace(s: string): (i: nat)
    ensures i <= |s|
    ensures i < |s| ==> s[i] == ' '
    ensures forall k :: 0 <= k < i ==> s[k] != ' '
  {
    if |s| == 0 || s[0] == ' ' then 0 else 1 + IndexOfSpace(s[1..])
  }

  /** Splitting and joining again gives back the original header. */
  lemma {:induction false} JoinSplit(s: string)
    ensures Join(Split(s)) == s
    decreases |s|
  {
    if |s| > 0 {
      var rest := Split(s[1..]);
      JoinSplit(s[1..]);
      if s[0] == ' ' {
        assert ([""] + rest)[1..] == rest;
      } else if |rest| > 1 {
        assert ([[s[0]] + rest[0]] + rest[1..])[1..] == rest[1..];
        assert s == [s[0]] + s[1..];
      } else {
        assert s == [s[0]] + s[1..];
      }
    }
  }

  /** No field produced by `Split` contains a space. */
  lemma {:induction false} SplitFieldsHaveNoSpace(s: string)
    ensures forall i :: 0 <= i < |Split(s)| ==> ' ' !in Split(s)[i]
    decreases |s|
  {
    if |s| > 0 {
      SplitFieldsHaveNoSpace(s[1..]);
      var rest := Split(s[1..]);
      if s[0] != ' ' {
        assert ' ' !in rest[0];
        assert ' ' !in [s[0]] + rest[0];
      }
    }
  }

  /** The first field is everything before the first space; the others are the split of what follows it. */
  lemma {:induction false} SplitAtFirstSpace(s: string)
    ensures Split(s)[0] == s[..IndexOfSpace(s)]
    ensures IndexOfSpace(s) < |s| ==> Split(s)[1..] == Split(s[IndexOfSpace(s) + 1..])
    ensures IndexOfSpace(s) == |s| ==> |Split(s)| == 1
    decreases |s|
  {
    if |s| > 0 && s[0] != ' ' {
      SplitAtFirstSpace(s[1..]);
      var j := IndexOfSpace(s[1..]);
      assert s[..1 + j] == [s[0]] + s[1..][..j];
      if j < |s[1..]| {
        assert s[1..][j + 1..] == s[j + 2..];
      }
    }
  }

  /**
   * `req.headers.authorization?.split(' ')[1]`: the second space-separated
   * field of the header, i.e. the text after the first space up to the next
   * space or the end; nothing when there is no header or no space in it.
   */
  function BearerToken(header: Option<string>): (token: Option<string>)
    ensures token.Some? <==> header.Some? && ' ' in header.value
    ensures token.Some? ==>
      var rest := header.value[IndexOfSpace(header.value) + 1..];
      token.value == rest[..IndexOfSpace(rest)] && ' ' !in token.value
  {
    if header.None? then None
    else
      var h := header.value;
      var fields := Split(h);
      SplitAtFirstSpace(h);
      if |fields| > 1 then
        var rest := h[IndexOfSpace(h) + 1..];
        SplitAtFirstSpace(rest);
        assert fields[1] == Split(rest)[0];
        Some(fields[1])
      else
        assert IndexOfSpace(h) == |h|;
        None
  }

  /**
   * `verifyToken`: no (or an empty) token answers 401 "No token provided";
   * a token `verify` rejects answers 401 "Invalid token"; otherwise the
   * request proceeds with the decoded payload as its user.
   */
  function VerifyToken(header: Option<string>, verify: string -> Option<Claims>): (r: Gate)
    ensures r.Deny? ==> r.status == 401
    ensures !Truthy(BearerToken(header)) ==> r == Deny(401, NoTokenMessage)
    ensures r.Next? <==> Truthy(BearerToken(header)) && verify(BearerToken(header).value).Some?
    ensures r.Next? ==> r.user == verify(BearerToken(header).value).value
    ensures Truthy(BearerToken(header)) && verify(BearerToken(header).value).None? ==>
              r == Deny(401, InvalidTokenMessage)
  {
    var token := BearerToken(header);
    if !Truthy(token) then Deny(401, NoTokenMessage)
    else match verify(token.value)
      case None => Deny(401, InvalidTokenMessage)
      case Some(decoded) => Next(decoded)
  }

  // ---------------------------------------------------------------------------
  // Role gates on `req.user.role`

  /** `isCustomer`: passes exactly the users whose role is "customer", otherwise 403. */
  function IsCustomer(user: Claims): (r: Gate)
    ensures r.Next? <==> user.role == Some("customer")
    ensures r.Next? ==> r.user == user
    ensures r.Deny? ==> r == Deny(403, "Access denied. Customer only.")
  {
    if user.role != Some("customer") then Deny(403, "Access denied. Customer only.") else Next(user)
  }

  /** `isStaff`: passes exactly the users whose role is "staff", otherwise 403. */
  function IsStaff(user: Claims): (r: Gate)
    ensures r.Next? <==> user.role == Some("staff")
    ensures r.Next? ==> r.user == user
    ensures r.Deny? ==> r == Deny(403, "Access denied. Staff only.")
  {
    if user.role != Some("staff") then Deny(403, "Access denied. Staff only.") else Next(user)
  }

  /** `hasValidRole`: passes customer and staff users, so everything the two gates above pass. */
  function HasValidRole(user: Claims): (r: Gate)
    ensures r.Next? <==> user.role in {Some("customer"), Some("staff")}
    ensures IsCustomer(user).Next? || IsStaff(user).Next? ==> r.Next?
    ensures r.Deny? ==> r == Deny(403, "Invalid role")
  {
    if user.role !in {Some("customer"), Some("staff")} then Deny(403, "Invalid role") else Next(user)
  }

  /** The role gate a route puts after `verifyToken`. */
  datatype Policy = CustomerOnly | StaffOnly | AnyValidRole

  function RoleGate(policy: Policy, user: Claims): Gate {
    match policy
    case CustomerOnly => IsCustomer(user)
    case StaffOnly => IsStaff(user)
    case AnyValidRole => HasValidRole(user)
  }

  /**
   * A route's middleware chain `verifyToken, <role gate>`: token problems
   * answer 401 before the role is looked at, a role mismatch answers 403,
   * and a request admitted by either customer or staff policy is also
   * admitted by the any-valid-role policy.
   */
  function Admit(header: Option<string>, verify: string -> Option<Claims>, policy: Policy): (r: Gate)
    ensures VerifyToken(header, verify).Deny? ==> r == VerifyToken(header, verify)
    ensures r.Deny? && r.status == 403 ==> VerifyToken(header, verify).Next?
    ensures r.Next? ==> VerifyToken(header, verify) == r
    ensures r.Next? ==> HasValidRole(r.user).Next?
    ensures VerifyToken(header, verify).Next? ==> r == RoleGate(policy, VerifyToken(header, verify).user)
    ensures VerifyToken(header, verify).Next? ==>
              (r.Next? <==> RoleGate(policy, VerifyToken(header, verify).user).Next?)
  {
    match VerifyToken(header, verify)
    case Deny(status, message) => Deny(status, message)
    case Next(user) => RoleGate(policy, user)
  }
}
