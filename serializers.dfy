/** The input validators of the registration, login and password-change
    endpoints, the profile update's writable fields, and what the profile and
    session representations expose. Request data is a map from field name to
    text. */
module Serializers {
  import opened Base
  import opened Models

  type Data = map<string, string>

  /** `is_valid()`: the validated value, or the names of the fields in error
      (`non_field_errors` for the object-level `validate`). */
  datatype Validated<T> = Valid(value: T) | Invalid(errors: set<string>)

  const NonFieldErrors: string := "non_field_errors"

  // ---------------------------------------------------------------------------
  // Field-level rules of a text field.

  /** The options of a text field: whether it must be present, whether `""` is
      accepted, and its length bounds. */
  datatype TextRule = TextRule(required: bool, allowBlank: bool, minLength: nat, maxLength: Option<nat>)

  /** A text field's own checks: an absent field passes only when not required
      (or the update is partial); `""` passes only when blanks are allowed, and
      then skips the length checks; any other text must meet the bounds. */
  predicate FieldOk(data: Data, name: string, rule: TextRule, partial: bool) {
    if name !in data then !rule.required || partial
    else if data[name] == "" then rule.allowBlank
    else rule.minLength <= |data[name]| && (rule.maxLength.None? || |data[name]| <= rule.maxLength.value)
  }

  /** The fields among `names` whose own checks fail. */
  function FieldErrors(data: Data, names: set<string>, rules: string -> TextRule, partial: bool): (errors: set<string>)
    ensures errors <= names
    ensures forall n :: n in names ==> (n in errors <==> !FieldOk(data, n, rules(n), partial))
  {
    set n | n in names && !FieldOk(data, n, rules(n), partial)
  }

  /** The declared fields present in the data; every other key is dropped. */
  function Known(data: Data, names: set<string>): (kept: Data)
    ensures kept.Keys == data.Keys * names
    ensures forall k :: k in kept ==> kept[k] == data[k]
  {
    map k | k in data.Keys * names :: data[k]
  }

  // ---------------------------------------------------------------------------
  // Registration.

  const RegistrationFields: set<string> := {"email", "first_name", "last_name", "middle_name", "password", "password_confirm"}

  /** Email and the names are required (`max_length` 254 for the email and 30 for
      the names, from the model); `middle_name` may be absent or blank; both
      passwords are required with at least 8 characters. */
  function RegistrationRule(name: string): TextRule {
    if name == "email" then TextRule(true, false, 0, Some(254))
    else if name == "first_name" || name == "last_name" then TextRule(true, false, 0, Some(30))
    else if name == "middle_name" then TextRule(false, true, 0, Some(30))
    else TextRule(true, false, 8, None)
  }

  /** Field errors of a registration: each field's own checks, and the email's
      uniqueness against the emails already stored. */
  function RegistrationErrors(data: Data, emails: set<string>): (errors: set<string>)
    ensures errors <= RegistrationFields
    ensures "email" !in errors ==> "email" in data && data["email"] != "" && data["email"] !in emails
  {
    FieldErrors(data, RegistrationFields, RegistrationRule, false) +
    (if "email" in data && data["email"] != "" && data["email"] in emails then {"email"} else {})
  }

  /** `UserRegistrationSerializer.is_valid()`: the field checks, then `validate`,
      which pops `password_confirm` and rejects a mismatch. */
  function ValidateRegistration(data: Data, emails: set<string>): (r: Validated<Data>)
    ensures r.Valid? <==> RegistrationErrors(data, emails) == {} && data["password"] == data["password_confirm"]
    ensures RegistrationErrors(data, emails) == {} && data["password"] != data["password_confirm"] ==>
              r == Invalid({NonFieldErrors})
    ensures r.Valid? ==> "password_confirm" !in r.value && r.value.Keys <= RegistrationFields
    ensures r.Valid? ==> forall k :: k in r.value ==> k in data && r.value[k] == data[k]
    ensures r.Valid? ==> "email" in r.value && r.value["email"] != "" && r.value["email"] !in emails
    ensures r.Valid? ==> "first_name" in r.value && "last_name" in r.value
    ensures r.Valid? ==> "password" in r.value && |r.value["password"]| >= 8
  {
    var errors := RegistrationErrors(data, emails);
    if errors != {} then Invalid(errors)
    else
      assert FieldOk(data, "password", RegistrationRule("password"), false);
      assert FieldOk(data, "password_confirm", RegistrationRule("password_confirm"), false);
      assert FieldOk(data, "first_name", RegistrationRule("first_name"), false);
      assert FieldOk(data, "last_name", RegistrationRule("last_name"), false);
      if data["password"] != data["password_confirm"] then Invalid({NonFieldErrors})
      else Valid(Known(data, RegistrationFields) - {"password_confirm"})
  }

  /** `create`: the keyword arguments `create_user` receives besides email and
      password. */
  function RegistrationExtra(v: Data): (extra: ExtraFields)
    requires "first_name" in v && "last_name" in v
    ensures extra.firstName == Some(v["first_name"]) && extra.lastName == Some(v["last_name"])
    ensures extra.middleName.Some? <==> "middle_name" in v
    ensures extra.isActive.None? && extra.isStaff.None? && extra.isSuperuser.None?
  {
    ExtraFields(Some(v["first_name"]), Some(v["last_name"]),
                if "middle_name" in v then Some(v["middle_name"]) else None, None, None, None)
  }

  /** Passwords shorter than 8 characters, or a taken email, never get through. */
  lemma RegistrationRejects(data: Data, emails: set<string>)
    requires ("password" in data && 0 < |data["password"]| < 8) || ("email" in data && data["email"] in emails)
    ensures ValidateRegistration(data, emails).Invalid?
  {
    if "password" in data && 0 < |data["password"]| < 8 {
      assert !FieldOk(data, "password", RegistrationRule("password"), false);
      assert "password" in RegistrationErrors(data, emails);
    } else if data["email"] != "" {
      assert "email" in RegistrationErrors(data, emails);
    } else {
      assert "email" in RegistrationErrors(data, emails);
    }
  }

  // ---------------------------------------------------------------------------
  // Login.

  datatype Credentials = Credentials(email: string, password: string)

  const LoginFields: set<string> := {"email", "password"}

  /** Both login fields are required and may not be blank. */
  function LoginRule(name: string): TextRule {
    TextRule(true, false, 0, None)
  }

  /** `UserLoginSerializer.is_valid()`: the field checks, then `validate`, which
      refuses an empty email or password. */
  function ValidateLogin(data: Data): (r: Validated<Credentials>)
    ensures r.Valid? <==> "email" in data && data["email"] != "" && "password" in data && data["password"] != ""
    ensures r.Valid? ==> r.value.email == data["email"] && r.value.password == data["password"]
    ensures r.Invalid? ==> NonFieldErrors !in r.errors
  {
    var errors := FieldErrors(data, LoginFields, LoginRule, false);
    if errors != {} then Invalid(errors)
    else
      assert FieldOk(data, "email", LoginRule("email"), false);
      assert FieldOk(data, "password", LoginRule("password"), false);
      var creds := Credentials(data["email"], data["password"]);
      if creds.email == "" || creds.password == "" then Invalid({NonFieldErrors})
      else Valid(creds)
  }

  // ---------------------------------------------------------------------------
  // Password change.

  datatype PasswordChange = PasswordChange(oldPassword: string, newPassword: string)

  const PasswordChangeFields: set<string> := {"old_password", "new_password", "new_password_confirm"}

  /** All three are required and not blank; only the new password has a minimum length. */
  function PasswordChangeRule(name: string): TextRule {
    if name == "new_password" then TextRule(true, false, 8, None) else TextRule(true, false, 0, None)
  }

  /** `PasswordChangeSerializer.is_valid()`: the field checks, then `validate`,
      which rejects a mismatched confirmation. */
  function ValidatePasswordChange(data: Data): (r: Validated<PasswordChange>)
    ensures r.Valid? <==> PasswordChangeFields <= data.Keys &&
                          data["old_password"] != "" && |data["new_password"]| >= 8 &&
                          data["new_password_confirm"] != "" && data["new_password"] == data["new_password_confirm"]
    ensures r.Valid? ==> r.value == PasswordChange(data["old_password"], data["new_password"])
    ensures FieldErrors(data, PasswordChangeFields, PasswordChangeRule, false) == {} ==>
              (data["new_password"] != data["new_password_confirm"] ==> r == Invalid({NonFieldErrors}))
  {
    var errors := FieldErrors(data, PasswordChangeFields, PasswordChangeRule, false);
    if errors != {} then
      assert !(PasswordChangeFields <= data.Keys && data["old_password"] != "" && |data["new_password"]| >= 8 &&
               data["new_password_confirm"] != "") by {
        var n :| n in errors;
      }
      Invalid(errors)
    else
      assert FieldOk(data, "old_password", PasswordChangeRule("old_password"), false);
      assert FieldOk(data, "new_password", PasswordChangeRule("new_password"), false);
      assert FieldOk(data, "new_password_confirm", PasswordChangeRule("new_password_confirm"), false);
      if data["new_password"] != data["new_password_confirm"] then Invalid({NonFieldErrors})
      else Valid(PasswordChange(data["old_password"], data["new_password"]))
  }

  /** The old password has no minimum length: any non-empty text is accepted as
      long as the new pair is acceptable. */
  lemma OldPasswordHasNoMinimum(current: string, replacement: string)
    requires current != "" && |replacement| >= 8
    ensures ValidatePasswordChange(map["old_password" := current, "new_password" := replacement,
                                       "new_password_confirm" := replacement])
            == Valid(PasswordChange(current, replacement))
  {
  }

  // ---------------------------------------------------------------------------
  // Profile update and the representations.

  /** The writable fields of `UserProfileSerializer`; `id`, `email`, `created_at`
      and `updated_at` are read-only and any value sent for them is ignored. */
  const ProfileWritable: set<string> := {"first_name", "last_name", "middle_name"}

  function ProfileRule(name: string): TextRule {
    if name == "middle_name" then TextRule(false, true, 0, Some(30)) else TextRule(true, false, 0, Some(30))
  }

  function Pick(data: Data, name: string, current: string): string {
    if name in data then data[name] else current
  }

  /** The partial profile update: the writable fields present in the data replace
      the stored ones; nothing else about the user changes. */
  function UpdateProfile(u: User, data: Data): (r: Validated<User>)
    ensures r.Valid? <==> FieldErrors(data, ProfileWritable, ProfileRule, true) == {}
    ensures r.Valid? ==> r.value.id == u.id && r.value.email == u.email && r.value.password == u.password &&
                         r.value.isActive == u.isActive && r.value.isStaff == u.isStaff && r.value.deletedAt == u.deletedAt
    ensures r.Valid? ==> (r.value.firstName == if "first_name" in data then data["first_name"] else u.firstName)
    ensures r.Valid? ==> (r.value.lastName == if "last_name" in data then data["last_name"] else u.lastName)
    ensures r.Valid? ==> (r.value.middleName == if "middle_name" in data then data["middle_name"] else u.middleName)
  {
    var errors := FieldErrors(data, ProfileWritable, ProfileRule, true);
    if errors != {} then Invalid(errors)
    else Valid(u.(firstName := Pick(data, "first_name", u.firstName),
                  lastName := Pick(data, "last_name", u.lastName),
                  middleName := Pick(data, "middle_name", u.middleName)))
  }

  /** Sending `id` or `email` changes nothing the update would otherwise do. */
  lemma ProfileIgnoresReadOnly(u: User, data: Data, key: string, value: string)
    requires key in {"id", "email", "created_at", "updated_at"}
    ensures UpdateProfile(u, data[key := value]) == UpdateProfile(u, data)
  {
    var d := data[key := value];
    assert forall n :: n in ProfileWritable ==> (n in d <==> n in data) && (n in d ==> d[n] == data[n]);
    assert FieldErrors(d, ProfileWritable, ProfileRule, true) == FieldErrors(data, ProfileWritable, ProfileRule, true);
  }

  /** `UserProfileSerializer(user).data`, as the login response carries it. */
  datatype ProfileView = ProfileView(id: Id, email: string, firstName: string, lastName: string, middleName: string)

  function ProfileOf(u: User): (v: ProfileView)
    ensures v.id == u.id && v.email == u.email
  {
    ProfileView(u.id, u.email, u.firstName, u.lastName, u.middleName)
  }

  /** The profile representation does not depend on the password hash. */
  lemma ProfileHidesPassword(u: User, hash: string)
    ensures ProfileOf(u.(password := hash)) == ProfileOf(u)
  {
  }

  /** `SessionSerializer(session).data`: id, user, the user's email, the
      timestamps and the active flag; the token is not among them. */
  datatype SessionView = SessionView(id: Id, user: Id, userEmail: string, createdAt: Time, expiresAt: Time, isActive: bool)

  function SessionOf(s: Session, userEmail: string): (v: SessionView)
    ensures v.id == s.id && v.user == s.user && v.isActive == s.isActive && v.expiresAt == s.expiresAt
  {
    SessionView(s.id, s.user, userEmail, s.createdAt, s.expiresAt, s.isActive)
  }

  /** Two sessions that differ only in their tokens serialize identically, so the
      representation reveals nothing about the token. */
  lemma SessionViewHidesToken(s: Session, token: string, userEmail: string)
    ensures SessionOf(s.(token := token), userEmail) == SessionOf(s, userEmail)
  {
  }
}
