/** The session store of src/lib/auth.ts: the browser's `localStorage`, a map
    from string keys to string values, of which the session uses the keys
    `token` and `role`. */
module Auth {
  import opened Common

  const TokenKey: string := "token"
  const RoleKey: string := "role"
  const AdminRole: string := "Admin"

  /** The two session keys. */
  const SessionKeys: set<string> := {TokenKey, RoleKey}

  /** `localStorage.getItem(key)`: the stored value, or null. */
  function Lookup(items: map<string, string>, key: string): Option<string> {
    if key in items then Some(items[key]) else None
  }

  /** The storage after both session keys are removed (`clearAuth`). */
  function WithoutSession(items: map<string, string>): (r: map<string, string>)
    ensures r.Keys == items.Keys - SessionKeys
    ensures forall k :: k in r ==> r[k] == items[k]
  {
    items - SessionKeys
  }

  /** Clearing the session twice has the effect of clearing it once. */
  lemma ClearIdempotent(items: map<string, string>)
    ensures WithoutSession(WithoutSession(items)) == WithoutSession(items)
  {
  }

  /** After clearing, neither a token nor a role can be read back. */
  lemma ClearedSessionIsEmpty(items: map<string, string>)
    ensures Lookup(WithoutSession(items), TokenKey) == None
    ensures Lookup(WithoutSession(items), RoleKey) == None
  {
  }

  /** The browser storage seen through the session functions. */
  class SessionStore {
    var items: map<string, string>

    constructor (initial: map<string, string>)
      ensures items == initial
    {
      items := initial;
    }

    /** `setToken(t)`: stores the token, leaves every other key alone. */
    method SetToken(token: string)
      modifies this
      ensures items == old(items)[TokenKey := token]
      ensures Lookup(items, TokenKey) == Some(token)
      ensures Lookup(items, RoleKey) == Lookup(old(items), RoleKey)
    {
      items := items[TokenKey := token];
    }

    /** `getToken()`. */
    method GetToken() returns (token: Option<string>)
      ensures token.Some? <==> TokenKey in items
      ensures token.Some? ==> token.value == items[TokenKey]
    {
      token := Lookup(items, TokenKey);
    }

    /** `setRole(r)`: stores the role, leaves every other key alone. */
    method SetRole(role: string)
      modifies this
      ensures items == old(items)[RoleKey := role]
      ensures Lookup(items, RoleKey) == Some(role)
      ensures Lookup(items, TokenKey) == Lookup(old(items), TokenKey)
    {
      items := items[RoleKey := role];
    }

    /** `getRole()`. */
    method GetRole() returns (role: Option<string>)
      ensures role.Some? <==> RoleKey in items
      ensures role.Some? ==> role.value == items[RoleKey]
    {
      role := Lookup(items, RoleKey);
    }

    /** `isAdmin()`: the stored role is exactly "Admin"; a missing role is not. */
    method IsAdmin() returns (admin: bool)
      ensures admin <==> RoleKey in items && items[RoleKey] == AdminRole
    {
      var role := GetRole();
      admin := role == Some(AdminRole);
    }

    /** `clearToken()`: despite its name it removes the role as well. */
    method ClearToken()
      modifies this
      ensures items == WithoutSession(old(items))
    {
      items := items - {TokenKey};
      items := items - {RoleKey};
    }

    /** `clearAuth()`: removes `token` and `role` and no other key. */
    method ClearAuth()
      modifies this
      ensures items == WithoutSession(old(items))
    {
      items := items - {TokenKey};
      items := items - {RoleKey};
    }
  }
}
