/**
 The settings page: its own small fetch helper, which never rejects on a bad
 body, and the guards and state updates of the account form, the password
 form and the two image uploads. A handler counts a reply as a success only
 when the status is 2xx and the body's `success` is truthy; anything else
 throws inside the handler's `try`, is reported, and changes nothing.
 */
module Settings {
  import opened JsValue
  import opened Text
  import opened Http

  /** What the page's `apiFetch` resolves with: `{ok, status, json}`. */
  datatype Shaped = Shaped(ok: bool, status: int, json: Json)

  /** How the helper settles: resolved with the shaped reply, or rejected because `fetch` rejected. */
  datatype Reply = Resolved(shaped: Shaped) | Rejected(reason: string)

  /** `fetch(BASE + path, {credentials: "include", ...opts})`: cookies by default, the caller's options win. */
  function CallRequest(base: string, path: string, opts: Options): (q: Request)
    ensures q.url == base + path
    ensures q.options.Keys == opts.Keys + {"credentials"}
    ensures "credentials" !in opts ==> q.options["credentials"] == Include
    ensures forall k :: k in opts ==> q.options[k] == opts[k]
  {
    Request(base + path, WithCredentials(opts))
  }

  /** `res.json().catch(() => ({}))`: a body that does not parse becomes an empty object; the helper itself never throws on it. */
  function Shape(o: Outcome): (r: Reply)
    ensures o.Throw? <==> r.Rejected?
    ensures o.Reply? ==> r.shaped.ok == Ok(o.response) && r.shaped.status == o.response.status
    ensures o.Reply? && o.response.body.Some? ==> r.shaped.json == o.response.body.value
    ensures o.Reply? && o.response.body.None? ==> r.shaped.json == JObj(map[])
  {
    match o
    case Throw(reason) => Rejected(reason)
    case Reply(res) => Resolved(Shaped(Ok(res), res.status, res.body.GetOr(JObj(map[]))))
  }

  /** `ok && json?.success`: the only reply a handler accepts. */
  predicate Succeeded(r: Reply) {
    r.Resolved? && r.shaped.ok && Truthy(Get(Some(r.shaped.json), "success"))
  }

  /** An unparseable body never counts as a success, whatever the status. */
  lemma UnparseableIsFailure(o: Outcome)
    requires o.Reply? && o.response.body.None?
    ensures !Succeeded(Shape(o))
  {
  }

  /** The page's form fields and the user record it shows. */
  datatype Form = Form(
    user: map<string, Json>,
    fullName: string,
    email: string,
    oldPassword: string,
    newPassword: string,
    confirmPassword: string)

  const JsonHeaders: Value := Dict(map["Content-Type" := "application/json"])

  // ---------------------------------------------------------------------------
  // Account

  const AccountPath: string := "/users/update-account"

  /** The JSON body of the account update: the two fields as typed, untrimmed. */
  function AccountBody(f: Form): (b: map<string, Json>)
    ensures b.Keys == {"fullName", "email"}
    ensures b["fullName"] == JStr(f.fullName) && b["email"] == JStr(f.email)
  {
    map["fullName" := JStr(f.fullName), "email" := JStr(f.email)]
  }

  /** `{...user, ...fields}`: each saved field replaces its old value and every other key keeps its own. */
  function Overwrite(user: map<string, Json>, fields: map<string, Json>): (u: map<string, Json>)
    ensures forall k :: Lookup(u, k) == if k in fields then Some(fields[k]) else Lookup(user, k)
  {
    user + fields
  }

  /** The form after a saved account update: the two fields copied into the user record, everything else kept. */
  function Saved(f: Form): (g: Form)
    ensures Lookup(g.user, "fullName") == Some(JStr(f.fullName))
    ensures Lookup(g.user, "email") == Some(JStr(f.email))
    ensures forall k :: k != "fullName" && k != "email" ==> Lookup(g.user, k) == Lookup(f.user, k)
    ensures g.(user := f.user) == f
  {
    f.(user := Overwrite(f.user, AccountBody(f)))
  }

  /** The options `handleUpdateAccount` hands to the helper. */
  function AccountOptions(f: Form): Options {
    map["method" := Str("PATCH"), "headers" := JsonHeaders, "body" := Encoded(AccountBody(f))]
  }

  /**
   `handleUpdateAccount`: blank name or email sends nothing; otherwise one
   PATCH goes through the helper with the two fields as typed, and a success
   copies them into the user record.
   */
  function UpdateAccount(base: string, f: Form, o: Outcome): (h: Submitted<Form>)
    ensures h.sent <==> Trim(f.fullName) != "" && Trim(f.email) != ""
    ensures h.sent ==> h.request == Some(CallRequest(base, AccountPath, AccountOptions(f)))
    ensures h.sent && Succeeded(Shape(o)) ==>
      && Lookup(h.state.user, "fullName") == Some(JStr(f.fullName))
      && Lookup(h.state.user, "email") == Some(JStr(f.email))
      && (forall k :: k != "fullName" && k != "email" ==> Lookup(h.state.user, k) == Lookup(f.user, k))
      && h.state.(user := f.user) == f
    ensures !(h.sent && Succeeded(Shape(o))) ==> h.state == f
  {
    if Trim(f.fullName) == "" || Trim(f.email) == "" then Submitted(f, None)
    else
      var q := CallRequest(base, AccountPath, AccountOptions(f));
      if Succeeded(Shape(o)) then Submitted(Saved(f), Some(q))
      else Submitted(f, Some(q))
  }

  /** The account request: a PATCH to the account path, with cookies, JSON, and exactly the two typed fields as its body. */
  lemma AccountRequestCarriesForm(base: string, f: Form)
    ensures var q := CallRequest(base, AccountPath, AccountOptions(f));
      && q.url == base + "/users/update-account"
      && q.options["method"] == Str("PATCH")
      && q.options["credentials"] == Include
      && q.options["headers"] == Dict(map["Content-Type" := "application/json"])
      && q.options["body"].Encoded?
      && q.options["body"].fields.Keys == {"fullName", "email"}
      && q.options["body"].fields["fullName"] == JStr(f.fullName)
      && q.options["body"].fields["email"] == JStr(f.email)
  {
  }

  /** Saving the same form twice leaves the user record as saving it once. */
  lemma UpdateAccountIdempotent(base: string, f: Form, o1: Outcome, o2: Outcome)
    requires Succeeded(Shape(o1))
    ensures UpdateAccount(base, UpdateAccount(base, f, o1).state, o2).state == UpdateAccount(base, f, o1).state
  {
    if UpdateAccount(base, f, o1).sent {
      var once := Saved(f);
      assert UpdateAccount(base, f, o1).state == once;
      SavedIdempotent(f);
    }
  }

  /** Copying the same two fields in again changes nothing. */
  lemma SavedIdempotent(f: Form)
    ensures Saved(Saved(f)) == Saved(f)
  {
    var once := Saved(f);
    var b := AccountBody(f);
    assert AccountBody(once) == b;
    var again := Overwrite(once.user, b);
    assert again.Keys == once.user.Keys;
    assert forall k | k in again :: again[k] == once.user[k];
    assert again == once.user;
  }

  // ---------------------------------------------------------------------------
  // Password

  const PasswordPath: string := "/users/change-password"

  /** The JSON body of the password change: the old and the new password, never the confirmation. */
  function PasswordBody(f: Form): (b: map<string, Json>)
    ensures b.Keys == {"oldPassword", "newPassword"}
    ensures "confirmPassword" !in b
    ensures b["oldPassword"] == JStr(f.oldPassword) && b["newPassword"] == JStr(f.newPassword)
  {
    map["oldPassword" := JStr(f.oldPassword), "newPassword" := JStr(f.newPassword)]
  }

  /** Why a password change was refused before anything was sent. */
  datatype Refusal = FillAllFields | Mismatch

  /** The two guards, in order: every field filled in, then the new password confirmed. */
  function PasswordRefusal(f: Form): (r: Option<Refusal>)
    ensures r == Some(FillAllFields) <==> f.oldPassword == "" || f.newPassword == "" || f.confirmPassword == ""
    ensures r == Some(Mismatch) <==> f.oldPassword != "" && f.newPassword != "" && f.confirmPassword != "" && f.newPassword != f.confirmPassword
  {
    if f.oldPassword == "" || f.newPassword == "" || f.confirmPassword == "" then Some(FillAllFields)
    else if f.newPassword != f.confirmPassword then Some(Mismatch)
    else None
  }

  /** The options `handleChangePassword` hands to the helper. */
  function PasswordOptions(f: Form): Options {
    map["method" := Str("POST"), "headers" := JsonHeaders, "body" := Encoded(PasswordBody(f))]
  }

  /**
   `handleChangePassword`: sent only with all three filled and the new one
   confirmed, as one POST whose body carries the old and the new password and
   never the confirmation; a success empties all three.
   */
  function ChangePassword(base: string, f: Form, o: Outcome): (h: Submitted<Form>)
    ensures h.sent <==> f.oldPassword != "" && f.newPassword != "" && f.newPassword == f.confirmPassword
    ensures h.sent ==> h.request == Some(CallRequest(base, PasswordPath, PasswordOptions(f)))
    ensures h.sent && Succeeded(Shape(o)) ==>
      h.state == f.(oldPassword := "", newPassword := "", confirmPassword := "")
    ensures !(h.sent && Succeeded(Shape(o))) ==> h.state == f
  {
    if PasswordRefusal(f).Some? then Submitted(f, None)
    else
      var q := CallRequest(base, PasswordPath, PasswordOptions(f));
      if Succeeded(Shape(o)) then Submitted(f.(oldPassword := "", newPassword := "", confirmPassword := ""), Some(q))
      else Submitted(f, Some(q))
  }

  /** The password request: a POST with cookies whose body holds the old and the new password and no confirmation field. */
  lemma PasswordRequestOmitsConfirmation(base: string, f: Form)
    ensures var q := CallRequest(base, PasswordPath, PasswordOptions(f));
      && q.url == base + "/users/change-password"
      && q.options["method"] == Str("POST")
      && q.options["credentials"] == Include
      && q.options["body"].Encoded?
      && q.options["body"].fields.Keys == {"oldPassword", "newPassword"}
      && "confirmPassword" !in q.options["body"].fields
      && q.options["body"].fields["oldPassword"] == JStr(f.oldPassword)
      && q.options["body"].fields["newPassword"] == JStr(f.newPassword)
  {
  }

  /** After a successful change the form is empty, so submitting it again sends nothing. */
  lemma ChangedPasswordFormIsEmpty(base: string, f: Form, o: Outcome, o2: Outcome)
    requires ChangePassword(base, f, o).sent && Succeeded(Shape(o))
    ensures !ChangePassword(base, ChangePassword(base, f, o).state, o2).sent
    ensures PasswordRefusal(ChangePassword(base, f, o).state) == Some(FillAllFields)
  {
  }

  // ---------------------------------------------------------------------------
  // Avatar and cover image

  /** The two image fields of the user record. */
  datatype Image = Avatar | CoverImage

  function Key(i: Image): string {
    match i
    case Avatar => "avatar"
    case CoverImage => "coverImage"
  }

  /**
   `handleAvatarChange` / `handleCoverChange`: no file sends nothing; a
   success stores `json?.data?.[key] || user?.[key]`, so a reply without a
   URL keeps the current one.
   */
  function ChangeImage(user: map<string, Json>, i: Image, hasFile: bool, o: Outcome): (h: Handled<map<string, Json>>)
    ensures h.sent <==> hasFile
    ensures h.sent && Succeeded(Shape(o)) && Truthy(Path(Some(Shape(o).shaped.json), ["data", Key(i)])) ==>
      Lookup(h.state, Key(i)) == Path(Some(Shape(o).shaped.json), ["data", Key(i)])
    ensures h.sent && Succeeded(Shape(o)) && !Truthy(Path(Some(Shape(o).shaped.json), ["data", Key(i)])) ==>
      Lookup(h.state, Key(i)) == Lookup(user, Key(i))
    ensures forall k :: k != Key(i) ==> Lookup(h.state, k) == Lookup(user, k)
    ensures !(h.sent && Succeeded(Shape(o))) ==> h.state == user
  {
    if !hasFile then Handled(user, false)
    else if Succeeded(Shape(o)) then
      var url := Or(Path(Some(Shape(o).shaped.json), ["data", Key(i)]), Lookup(user, Key(i)));
      Handled(Assign(user, Key(i), url), true)
    else Handled(user, true)
  }

  /** A successful upload whose reply carries no URL leaves the user record exactly as it was. */
  lemma ImageFallbackKeepsUser(user: map<string, Json>, i: Image, o: Outcome)
    requires Succeeded(Shape(o)) && !Truthy(Path(Some(Shape(o).shaped.json), ["data", Key(i)]))
    ensures ChangeImage(user, i, true, o).state == user
  {
    var u := ChangeImage(user, i, true, o).state;
    forall k ensures Lookup(u, k) == Lookup(user, k) {
    }
    LookupExtensional(u, user);
  }
}
