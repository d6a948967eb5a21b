/**
 * The client's role helpers: which roles a logged-in user has and where the
 * application sends that user after login.
 */
module RoleCheck {
  import opened Wrappers

  /** The user object the client keeps after login; only its role is consulted. */
  datatype ClientUser = ClientUser(role: Option<string>)

  const CustomerRole: string := "customer"
  const StaffRole: string := "staff"

  const LoginPath: string := "/login"
  const CustomerHome: string := "/customer/products"
  const StaffHome: string := "/staff/dashboard"

  /**
   * `hasRole(user, allowedRoles)`: false for no user or a user without a
   * (truthy) role, otherwise whether the role is one of the allowed ones.
   */
  function HasRole(user: Option<ClientUser>, allowedRoles: seq<string>): (r: bool)
    ensures user.None? || !Truthy(user.value.role) ==> !r
    ensures user.Some? && Truthy(user.value.role) ==> (r <==> user.value.role.value in allowedRoles)
    ensures allowedRoles == [] ==> !r
  {
    if user.None? || !Truthy(user.value.role) then false
    else user.value.role.value in allowedRoles
  }

  /** `isStaff(user)`: the user exists and its role is exactly "staff". */
  function IsStaff(user: Option<ClientUser>): (r: bool)
    ensures r <==> HasRole(user, [StaffRole])
  {
    user.Some? && user.value.role == Some(StaffRole)
  }

  /** `isCustomer(user)`: the user exists and its role is exactly "customer"; never together with staff. */
  function IsCustomer(user: Option<ClientUser>): (r: bool)
    ensures r <==> HasRole(user, [CustomerRole])
    ensures r ==> !IsStaff(user)
  {
    user.Some? && user.value.role == Some(CustomerRole)
  }

  /**
   * `redirectByRole(user)`: the landing page for the user's role, and the
   * login page for no user or any role other than customer and staff.
   */
  function RedirectByRole(user: Option<ClientUser>): (r: string)
    ensures IsCustomer(user) ==> r == CustomerHome
    ensures IsStaff(user) ==> r == StaffHome
    ensures r == LoginPath <==> !IsCustomer(user) && !IsStaff(user)
    ensures r in {LoginPath, CustomerHome, StaffHome}
  {
    if user.None? then LoginPath
    else match user.value.role
      case Some(role) =>
        if role == CustomerRole then CustomerHome
        else if role == StaffRole then StaffHome
        else LoginPath
      case None => LoginPath
  }
}
