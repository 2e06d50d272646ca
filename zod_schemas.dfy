/** The login and registration schemas of src/lib/zodSchemas.ts, as the
    predicates their `z.string().min(n)` and `z.enum` rules amount to.  A
    schema reports exactly one issue for each failing field and no other. */
module ZodSchemas {
  import opened Common

  /** One validation failure: the field it concerns and the message the
      schema gives for it (absent when the library's default message is used). */
  datatype Issue = Issue(path: string, message: Option<string>)

  /** The issue a `z.string().min(n, message)` rule reports for `value`:
      none when the value has at least `n` UTF-16 code units. */
  function MinRule(path: string, value: string, n: nat, message: string): (issues: seq<Issue>)
    ensures issues == [] <==> Utf16Length(value) >= n
    ensures issues != [] ==> issues == [Issue(path, Some(message))]
  {
    if Utf16Length(value) >= n then [] else [Issue(path, Some(message))]
  }

  /** Three rules on three different fields, each reporting at most its own
      issue: together they report only those issues, at most one per field. */
  lemma ThreeRules(x: seq<Issue>, y: seq<Issue>, z: seq<Issue>, a: Issue, b: Issue, c: Issue)
    requires x == [] || x == [a]
    requires y == [] || y == [b]
    requires z == [] || z == [c]
    requires a.path != b.path && a.path != c.path && b.path != c.path
    ensures forall i :: 0 <= i < |x + y + z| ==> (x + y + z)[i] in [a, b, c]
    ensures forall i, j :: 0 <= i < j < |x + y + z| ==> (x + y + z)[i].path != (x + y + z)[j].path
    ensures |x + y + z| <= 3
  {
  }

  datatype LoginForm = LoginForm(username: string, password: string)

  const LoginUsernameMessage: string := "Please enter your username"
  const LoginPasswordMessage: string := "Please enter your password"

  /** `loginSchema`: username of length at least 1, password of length at least 6. */
  function ValidateLogin(f: LoginForm): (issues: seq<Issue>)
    ensures issues == [] <==> f.username != [] && Utf16Length(f.password) >= 6
    ensures Issue("username", Some(LoginUsernameMessage)) in issues <==> f.username == []
    ensures Issue("password", Some(LoginPasswordMessage)) in issues <==> Utf16Length(f.password) < 6
    ensures forall i :: 0 <= i < |issues| ==>
      issues[i] in [Issue("username", Some(LoginUsernameMessage)), Issue("password", Some(LoginPasswordMessage))]
    ensures forall i, j :: 0 <= i < j < |issues| ==> issues[i].path != issues[j].path
  {
    MinRule("username", f.username, 1, LoginUsernameMessage) +
    MinRule("password", f.password, 6, LoginPasswordMessage)
  }

  datatype RegisterForm = RegisterForm(username: string, password: string, role: string)

  const RegisterUsernameMessage: string := "Username field cannot be empty"
  const RegisterPasswordMessage: string := "Password must be at least 8 characters long"
  const Roles: seq<string> := ["User", "Admin"]

  /** The issue `z.enum(["User", "Admin"])` reports: none exactly for the two
      role names; the library's own message otherwise. */
  function RoleRule(role: string): (issues: seq<Issue>)
    ensures issues == [] <==> role == "User" || role == "Admin"
    ensures issues != [] ==> issues == [Issue("role", None)]
  {
    if role in Roles then [] else [Issue("role", None)]
  }

  /** `registerSchema`: username of length at least 3, password of length
      at least 6 (although its message speaks of 8), role "User" or "Admin". */
  function ValidateRegister(f: RegisterForm): (issues: seq<Issue>)
    ensures issues == [] <==>
      Utf16Length(f.username) >= 3 && Utf16Length(f.password) >= 6 && (f.role == "User" || f.role == "Admin")
    ensures Issue("username", Some(RegisterUsernameMessage)) in issues <==> Utf16Length(f.username) < 3
    ensures Issue("password", Some(RegisterPasswordMessage)) in issues <==> Utf16Length(f.password) < 6
    ensures Issue("role", None) in issues <==> f.role != "User" && f.role != "Admin"
    ensures forall i :: 0 <= i < |issues| ==>
      issues[i] in [Issue("username", Some(RegisterUsernameMessage)),
                    Issue("password", Some(RegisterPasswordMessage)), Issue("role", None)]
    ensures forall i, j :: 0 <= i < j < |issues| ==> issues[i].path != issues[j].path
    ensures |issues| <= 3
  {
    var u := MinRule("username", f.username, 3, RegisterUsernameMessage);
    var p := MinRule("password", f.password, 6, RegisterPasswordMessage);
    var r := RoleRule(f.role);
    ThreeRules(u, p, r, Issue("username", Some(RegisterUsernameMessage)),
      Issue("password", Some(RegisterPasswordMessage)), Issue("role", None));
    u + p + r
  }

  /** The password rule enforces six code units, not the eight its message
      announces: a six-character password is accepted. */
  lemma RegisterAcceptsSixCharacterPassword()
    ensures ValidateRegister(RegisterForm("alice", "secret", "User")) == []
  {
    assert Utf16Length("alice") == 5;
    assert Utf16Length("secret") == 6;
  }

  /** A character outside the Basic Multilingual Plane is two code units, so
      a three-character password of such characters passes the six-unit rule. */
  lemma PasswordRuleCountsCodeUnits()
    ensures MinRule("password", "\U{1F600}\U{1F600}\U{1F600}", 6, RegisterPasswordMessage) == []
  {
    assert Utf16Length("\U{1F600}\U{1F600}\U{1F600}") == 6;
  }
}
