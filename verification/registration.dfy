/** The decisions `POST /api/users/register` makes before it touches the
    store: the 400 for a missing field, and the role the new account gets.
    The admin secret (`process.env.ADMIN_SECRET`) is a parameter. */
module Registration {
  import opened Wrappers
  import opened Json
  import opened Auth

  /** The fields read from the request body; None when a field is absent. */
  datatype RegisterBody = RegisterBody(name: Option<Json>, email: Option<Json>, password: Option<Json>,
                                       adminKey: Option<Json>)

  /** The 400 "Missing fields" reply, or the role the account is created
      with (the store's duplicate-email check comes between the two). */
  datatype Registered = MissingFields | Accepted(role: string)

  const MissingFieldsMessage := "Missing fields"
  const AdminRole := "admin"
  const CustomerRole := "customer"

  /** `adminKey && adminKey === process.env.ADMIN_SECRET`: strict equality,
      so only a string key can match the secret, and a truthy string is a
      non-empty one. */
  function RoleFor(adminKey: Option<Json>, adminSecret: Option<string>): (role: string)
    ensures role == AdminRole || role == CustomerRole
    ensures role == AdminRole <==>
      Truthy(adminKey) && adminSecret.Some? && adminKey == Some(JString(adminSecret.value))
  {
    match adminKey
    case Some(JString(k)) => if k != "" && adminSecret == Some(k) then AdminRole else CustomerRole
    case _ => CustomerRole
  }

  function Register(body: RegisterBody, adminSecret: Option<string>): (r: Registered)
    ensures r.MissingFields? <==> !Truthy(body.name) || !Truthy(body.email) || !Truthy(body.password)
    ensures r.Accepted? ==> r.role == RoleFor(body.adminKey, adminSecret)
  {
    if !Truthy(body.name) || !Truthy(body.email) || !Truthy(body.password) then MissingFields
    else Accepted(RoleFor(body.adminKey, adminSecret))
  }

  /** An empty admin secret never makes an admin, whatever key is sent:
      the key would have to be the empty string, which is falsy. */
  lemma {:induction false} EmptySecretMakesNoAdmin(body: RegisterBody)
    ensures Register(body, Some("")) != Accepted(AdminRole)
  {
  }

  /** Sending no key, or with no secret configured, registers a customer. */
  lemma {:induction false} NoKeyMakesCustomer(body: RegisterBody, adminSecret: Option<string>)
    requires body.adminKey.None? || adminSecret.None?
    requires Register(body, adminSecret).Accepted?
    ensures Register(body, adminSecret).role == CustomerRole
  {
  }

  /** A token signed for a newly registered account carries its role; it
      passes the admin gate exactly when the right admin key was sent. */
  lemma {:induction false} RegisteredRolePassesGate<B>(body: RegisterBody, adminSecret: Option<string>,
                                    id: Option<Json>, header: Option<string>, rest: B)
    requires Register(body, adminSecret).Accepted?
    ensures var claims := Claims(id, body.name, Some(JString(Register(body, adminSecret).role)));
      RequireAdmin(Request(header, Some(claims), rest)).Continue? <==>
        Truthy(body.adminKey) && adminSecret.Some? && body.adminKey == Some(JString(adminSecret.value))
  {
  }
}
