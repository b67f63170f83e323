/**
 * User administration, `Controller\UserController`: who may add, edit and delete users,
 * what an edit may change, the fields of the user form, and how `profile` normalises the
 * language and page-size choices.
 *
 * Request parameters are an ordered PHP array; form validation, the user store's writes
 * and page rendering are left out. Whether the signed-in user and the looked-up user are
 * the same object is an input.
 */
module Users {
  import opened Wrappers
  import Php

  /** The user fields the controller reads. */
  datatype User = User(id: int, name: string, email: string, isAdmin: bool)

  /** The request parameters. */
  type Params = seq<Php.Entry<Php.Value>>

  /** `getParam($name, null)`: the parameter, or null when it is missing. */
  function Param(params: Params, name: string): (v: Php.Value)
    ensures Php.Lookup(params, Php.StrKey(name)).None? ==> v == Php.Null
    ensures Php.Lookup(params, Php.StrKey(name)).Some? ==> v == Php.Lookup(params, Php.StrKey(name)).value
  {
    Php.Lookup(params, Php.StrKey(name)).GetOr(Php.Null)
  }

  /** `(bool)getParam('is_admin', 0)`. */
  predicate AdminParam(params: Params) {
    Php.Truthy(Param(params, "is_admin"))
  }

  // ---------------------------------------------------------------------------
  // The user form
  // ---------------------------------------------------------------------------

  datatype FieldKind = Csrf | EmailField | TextField | PasswordField | Checkbox | SubmitButton

  datatype Field = Field(kind: FieldKind, name: string, required: bool)

  datatype Form = Form(action: string, fields: seq<Field>, values: Params)

  predicate HasField(f: Form, name: string) {
    exists i :: 0 <= i < |f.fields| && f.fields[i].name == name
  }

  /**
   * `userForm`: email and name always required, the password required only on the add
   * form, and the admin checkbox only for an admin viewer.
   */
  function UserForm(values: Params, formType: string, viewerIsAdmin: bool): (f: Form)
    ensures |f.fields| == if viewerIsAdmin then 6 else 5
    ensures f.action == "user/" + formType && f.values == values
    ensures f.fields[1] == Field(EmailField, "email", true) && f.fields[2] == Field(TextField, "name", true)
    ensures f.fields[3] == Field(PasswordField, "password", formType == "add")
    ensures HasField(f, "is_admin") <==> viewerIsAdmin
    ensures viewerIsAdmin ==> f.fields[4] == Field(Checkbox, "is_admin", false)
  {
    var head := [
      Field(Csrf, "user_form", false),
      Field(EmailField, "email", true),
      Field(TextField, "name", true),
      Field(PasswordField, "password", formType == "add")
    ];
    var admin := if viewerIsAdmin then [Field(Checkbox, "is_admin", false)] else [];
    var fields := head + admin + [Field(SubmitButton, "", false)];
    assert viewerIsAdmin ==> fields[4].name == "is_admin";
    Form("user/" + formType, fields, values)
  }

  // ---------------------------------------------------------------------------
  // add, edit, delete
  // ---------------------------------------------------------------------------

  /** What the request carried: a GET, or a POST whose form did or did not validate. */
  datatype Submission = Get | Post(valid: bool)

  /** A user change handed to the user service. */
  datatype Change = Change(name: Php.Value, email: Php.Value, password: Php.Value, isAdmin: bool)

  datatype Response =
    | Forbidden
    | NotFound
    | ShowForm(form: Form)
    | Created(change: Change)            // `createUser` with the internal provider
    | Updated(userId: int, change: Change)
    | Deleted(userId: int)

  predicate Accepted(s: Submission) {
    s.Post? && s.valid
  }

  function Requested(params: Params, isAdmin: bool): Change {
    Change(Param(params, "name"), Param(params, "email"), Param(params, "password"), isAdmin)
  }

  /** `add`: admins only; a valid POST creates the user with the requested admin flag. */
  function Add(viewerIsAdmin: bool, submission: Submission, params: Params): (r: Response)
    ensures r == Forbidden <==> !viewerIsAdmin
    ensures r.Created? <==> viewerIsAdmin && Accepted(submission)
    ensures r.Created? ==> r.change == Requested(params, AdminParam(params))
    ensures r.ShowForm? ==> r.form == UserForm(if submission.Post? then params else [], "add", true)
  {
    if !viewerIsAdmin then Forbidden
    else if Accepted(submission) then Created(Requested(params, AdminParam(params)))
    else ShowForm(UserForm(if submission.Post? then params else [], "add", true))
  }

  /** The edit form: posted back to the user's own address, with the password optional. */
  function EditForm(values: Params, userId: int, viewerIsAdmin: bool): (f: Form)
    ensures f.action == "user/edit/" + Php.IntToString(userId) && f.values == values
    ensures |f.fields| > 3 && !f.fields[3].required
  {
    var f := UserForm(values, "edit/" + Php.IntToString(userId), viewerIsAdmin);
    assert f.fields[3] == Field(PasswordField, "password", false);
    f
  }

  /**
   * `edit`: a non-admin may edit only the user that is the signed-in user itself, and that
   * is decided before the user's existence, so a non-admin asking for a missing user is
   * refused rather than told it is missing. The admin flag changes only when an admin
   * makes the edit.
   */
  function Edit(
    viewerIsAdmin: bool, target: Option<User>, sameInstance: bool, userId: int,
    submission: Submission, params: Params, userData: Params
  ): (r: Response)
    ensures r == Forbidden <==> !viewerIsAdmin && !(sameInstance && target.Some?)
    ensures r == NotFound <==> r != Forbidden && target.None?
    ensures r.Updated? <==> r != Forbidden && target.Some? && Accepted(submission)
    ensures r.Updated? ==>
              && r.userId == target.value.id
              && r.change == Requested(params, if viewerIsAdmin then AdminParam(params) else target.value.isAdmin)
    ensures r.ShowForm? ==> r.form.action == "user/edit/" + Php.IntToString(userId) && |r.form.fields| > 3 && !r.form.fields[3].required
    ensures !(r.Created? || r.Deleted?)
  {
    if !viewerIsAdmin && !(sameInstance && target.Some?) then Forbidden
    else if target.None? then NotFound
    else if !Accepted(submission) then ShowForm(EditForm(Php.Merge(userData, params), userId, viewerIsAdmin))
    else
      var user := target.value;
      Updated(user.id, Requested(params, if viewerIsAdmin then AdminParam(params) else user.isAdmin))
  }

  /**
   * The edit form is filled from the stored user, with every submitted parameter taking
   * precedence over the stored value of the same name.
   */
  lemma EditFormPrefersSubmitted(
    viewerIsAdmin: bool, target: User, sameInstance: bool, userId: int,
    submission: Submission, params: Params, userData: Params
  )
    requires viewerIsAdmin || sameInstance
    requires !Accepted(submission) && Php.UniqueKeys(params)
    ensures var r := Edit(viewerIsAdmin, Some(target), sameInstance, userId, submission, params, userData);
            && r.ShowForm?
            && forall k :: Php.Lookup(r.form.values, k) ==
                 if Php.Lookup(params, k).Some? then Php.Lookup(params, k) else Php.Lookup(userData, k)
  {
    var r := Edit(viewerIsAdmin, Some(target), sameInstance, userId, submission, params, userData);
    assert r.form.values == Php.Merge(userData, params);
  }

  /** Whatever a non-admin submits, an accepted edit keeps the user's admin flag. */
  lemma NonAdminKeepsAdminFlag(
    target: Option<User>, sameInstance: bool, userId: int, submission: Submission, params: Params, userData: Params
  )
    ensures var r := Edit(false, target, sameInstance, userId, submission, params, userData);
            r.Updated? ==> r.change.isAdmin == target.value.isAdmin
  {
  }

  /** An admin's accepted edit sets the flag exactly as the checkbox says. */
  lemma AdminSetsAdminFlag(target: User, submission: Submission, params: Params, userData: Params)
    requires Accepted(submission)
    ensures Edit(true, Some(target), false, target.id, submission, params, userData)
            == Updated(target.id, Requested(params, AdminParam(params)))
  {
  }

  /** For a non-admin, a missing user is indistinguishable from someone else's. */
  lemma NonAdminMissingUserIsForbidden(other: User, sameInstance: bool, userId: int, submission: Submission, params: Params, userData: Params)
    ensures Edit(false, None, sameInstance, userId, submission, params, userData) == Forbidden
    ensures Edit(false, Some(other), false, userId, submission, params, userData) == Forbidden
  {
  }

  /** `delete`: admins only; a missing user is not found. */
  function Delete(viewerIsAdmin: bool, target: Option<User>): (r: Response)
    ensures r == Forbidden <==> !viewerIsAdmin
    ensures r == NotFound <==> viewerIsAdmin && target.None?
    ensures r.Deleted? <==> viewerIsAdmin && target.Some?
    ensures r.Deleted? ==> r.userId == target.value.id
  {
    if !viewerIsAdmin then Forbidden
    else if target.None? then NotFound
    else Deleted(target.value.id)
  }

  // ---------------------------------------------------------------------------
  // profile
  // ---------------------------------------------------------------------------

  /** The changes `profile` hands to the user service on a POST. */
  datatype ProfileChange = ProfileChange(
    name: Php.Value, email: Php.Value, password: Php.Value, language: Option<Php.Value>, perPage: Option<int>
  )

  /** A falsy language choice means the default language. */
  function Language(v: Php.Value): (r: Option<Php.Value>)
    ensures r.None? <==> !Php.Truthy(v)
    ensures r.Some? ==> r.value == v
  {
    if Php.Truthy(v) then Some(v) else None
  }

  /** The page size is cast to an integer, and zero means the default. */
  function PerPage(v: Php.Value): (r: Option<int>)
    ensures r.None? <==> Php.IntCast(v) == 0
    ensures r.Some? ==> r.value == Php.IntCast(v) && r.value != 0
  {
    var n := Php.IntCast(v);
    if n == 0 then None else Some(n)
  }

  function Profile(params: Params): (c: ProfileChange)
    ensures c.language == Language(Param(params, "language"))
    ensures c.perPage == PerPage(Param(params, "per_page"))
    ensures c.name == Param(params, "name") && c.email == Param(params, "email") && c.password == Param(params, "password")
  {
    ProfileChange(
      Param(params, "name"), Param(params, "email"), Param(params, "password"),
      Language(Param(params, "language")), PerPage(Param(params, "per_page")))
  }

  /** A page size chosen from the form comes back as that number; the empty choice means the default. */
  lemma PerPageChoices(n: nat)
    ensures n != 0 ==> PerPage(Php.Str(Php.NatToString(n))) == Some(n)
    ensures PerPage(Php.Str("")) == None && PerPage(Php.Null) == None
  {
    if n != 0 {
      Php.IntCastRoundTrip(n);
      assert Php.IntToString(n) == Php.NatToString(n);
    }
  }
}
