/** The admin session: the signed-in admin published to the app, kept in
    browser storage under `admin_user` so that it survives a reload.  The
    storage slot, the two gateway calls and `JSON.parse`/`JSON.stringify`
    are inputs. */
module Auth {
  import opened Common
  import opened Js

  /** The published admin (`null` when signed out) and the text in the
      storage slot (`None` when the slot is empty). */
  datatype Session = Session(current: Value, stored: Option<string>)

  /** `isLoggedIn`: the published admin is not `null`. */
  predicate IsLoggedIn(s: Session) {
    s.current != Null
  }

  /** `getCurrentAdmin`. */
  function CurrentAdmin(s: Session): (r: Value)
    ensures r == Null <==> !IsLoggedIn(s)
  {
    s.current
  }

  /** `checkStoredAuth`, run once when the service starts with nothing
      published: stored text that parses is published as it is; text that
      does not parse is removed; an empty slot changes nothing. */
  function CheckStoredAuth(stored: Option<string>, parse: string -> Option<Value>): (r: Session)
    ensures stored.None? || stored == Some("") ==> r == Session(Null, stored)
    ensures stored.Some? && stored.value != "" && parse(stored.value).Some? ==>
      r == Session(parse(stored.value).value, stored)
    ensures stored.Some? && stored.value != "" && parse(stored.value).None? ==> r == Session(Null, None)
    ensures r.stored.Some? ==> r.stored.value == "" || parse(r.stored.value).Some?
  {
    match stored
    case None => Session(Null, None)
    case Some(text) =>
      if text == "" then Session(Null, stored)
      else match parse(text)
        case Some(admin) => Session(admin, stored)
        case None => Session(Null, None)
  }

  /** The reply of the table probe: `success` is false when the query
      failed or threw, with the error it failed with. */
  datatype Probe = Probe(success: bool, error: Value)

  /** How the credential lookup settled: the matching row (`null` when no
      row matches), or the error it threw. */
  datatype Lookup = Found(row: Value) | LookupThrew(error: Value)

  /** What `login` resolves to; `Crashed` is the rejection that reading
      `message` off a thrown `null` or `undefined` causes. */
  datatype LoginResult = Answer(success: bool, message: Value, admin: Option<Value>) | Crashed

  /** The admin object `login` publishes: the row's id, and its name as
      both user name and name. */
  function AdminUserOf(row: Value): (r: Value)
    ensures r.Obj? && r != Null
    ensures Prop(r, "id") == Prop(row, "id")
    ensures Prop(r, "username") == Prop(row, "name") && Prop(r, "name") == Prop(row, "name")
  {
    Obj(map["id" := Prop(row, "id"), "username" := Prop(row, "name"), "name" := Prop(row, "name")])
  }

  /** `login`: a failed probe and a lookup with no match both answer
      unsuccessfully and change nothing; a match is stored, published and
      answered with the admin; a thrown error answers with its message or
      'Login failed'. */
  function Login(s: Session, probe: Probe, lookup: Lookup, stringify: Value -> string): (r: (Session, LoginResult))
    ensures !probe.success ==> r.0 == s && r.1 == Answer(false, Str("Cannot access admins table: " + ToJsString(
              if Truthy(Prop(probe.error, "message")) then Prop(probe.error, "message") else Str("Unknown error"))), None)
    ensures probe.success && lookup.Found? && !Truthy(lookup.row) ==>
      r == (s, Answer(false, Str("Invalid username or password"), None))
    ensures probe.success && lookup.Found? && Truthy(lookup.row) ==>
      var user := AdminUserOf(lookup.row);
      r == (Session(user, Some(stringify(user))), Answer(true, Str("Login successful"), Some(user)))
    ensures probe.success && lookup.LookupThrew? ==> r.0 == s
    ensures probe.success && lookup.LookupThrew? && (lookup.error.Null? || lookup.error.Undefined?) ==> r.1 == Crashed
    ensures probe.success && lookup.LookupThrew? && !lookup.error.Null? && !lookup.error.Undefined? ==>
      r.1 == Answer(false, if Truthy(Prop(lookup.error, "message")) then Prop(lookup.error, "message") else Str("Login failed"), None)
    ensures r.1.Answer? && r.1.success ==>
      IsLoggedIn(r.0) && r.1.admin == Some(r.0.current) && r.0.stored == Some(stringify(r.0.current))
    ensures !(r.1.Answer? && r.1.success) ==> r.0 == s
  {
    if !probe.success then
      var reason := Prop(probe.error, "message");
      (s, Answer(false, Str("Cannot access admins table: " + ToJsString(if Truthy(reason) then reason else Str("Unknown error"))), None))
    else match lookup
      case Found(row) =>
        if Truthy(row) then
          var user := AdminUserOf(row);
          (Session(user, Some(stringify(user))), Answer(true, Str("Login successful"), Some(user)))
        else (s, Answer(false, Str("Invalid username or password"), None))
      case LookupThrew(e) =>
        if e.Null? || e.Undefined? then (s, Crashed)
        else
          var m := Prop(e, "message");
          (s, Answer(false, if Truthy(m) then m else Str("Login failed"), None))
  }

  /** `logout`: the slot is emptied and nobody is published. */
  function Logout(s: Session): (r: Session)
    ensures !IsLoggedIn(r) && r.stored.None?
  {
    Session(Null, None)
  }

  /** A successful login survives a reload: with a parser that reads back
      what the stringifier wrote, the stored text restores the same admin. */
  lemma LoginSurvivesReload(s: Session, probe: Probe, row: Value, stringify: Value -> string, parse: string -> Option<Value>)
    requires parse(stringify(AdminUserOf(row))) == Some(AdminUserOf(row))
    requires probe.success && Truthy(row)
    requires stringify(AdminUserOf(row)) != ""
    ensures CheckStoredAuth(Login(s, probe, Found(row), stringify).0.stored, parse)
            == Login(s, probe, Found(row), stringify).0
    ensures IsLoggedIn(CheckStoredAuth(Login(s, probe, Found(row), stringify).0.stored, parse))
  {
  }

  /** After a logout, a reload finds nobody signed in. */
  lemma LogoutSurvivesReload(s: Session, parse: string -> Option<Value>)
    ensures CheckStoredAuth(Logout(s).stored, parse) == Logout(s)
    ensures !IsLoggedIn(CheckStoredAuth(Logout(s).stored, parse))
  {
  }
}
