/** The account validators, written identically in the doctors' and the patients'
    serializers: registration (e-mail pattern, lower-casing, matching passwords) and login. */
module Accounts {
  import opened Outcomes
  import opened Text
  import opened Fields
  import EmailFormat

  /** A plain required `CharField` with no limits. */
  const AnyChars := CharSpec(None, None, false)

  /** The registration fields the custom validators read. */
  datatype RegistrationPayload = RegistrationPayload(email: Option<string>, password: Option<string>, passwordConfirm: Option<string>)

  /** What registration goes on to store: the normalised e-mail and the password. */
  datatype Credentials = Credentials(email: string, password: string)

  /** `password` and `password_confirm`: `CharField(min_length=8)`, stripped like any other. */
  const PasswordSpec := CharSpec(None, Some(8), false)

  /** The registration e-mail: the framework's field checks, then `validate_email`'s pattern,
      then lower-casing. */
  function RegistrationEmail(raw: Option<string>, accepts: string -> bool): (r: Result<string, Fault>)
    ensures r.Success? <==> EmailField(raw, accepts).Success? && EmailFormat.EmailShape(Trim(raw.value))
    ensures r.Success? ==> r.value == Lower(Trim(raw.value))
  {
    match EmailField(raw, accepts)
    case Failure(f) => Failure(f)
    case Success(t) =>
      AnchoredOnStripped(EmailFormat.EmailMatches, raw.value);
      EmailFormat.EmailLanguage(t);
      if EmailFormat.EmailPatternMatches(t) then Success(Lower(t)) else Failure(InvalidFormat)
  }

  /** `DoctorRegistrationSerializer` / `PatientRegistrationSerializer`: the per-field checks,
      then `validate`, which refuses differing passwords under the `password` key. */
  function ValidateRegistration(p: RegistrationPayload, accepts: string -> bool): (r: Result<Credentials, Errors>)
    ensures r.Success? <==>
              && RegistrationEmail(p.email, accepts).Success?
              && RequiredChars(PasswordSpec, p.password).Success?
              && RequiredChars(PasswordSpec, p.passwordConfirm).Success?
              && RequiredChars(PasswordSpec, p.password).value == RequiredChars(PasswordSpec, p.passwordConfirm).value
    ensures r.Success? ==>
              && r.value.email == RegistrationEmail(p.email, accepts).value
              && r.value.password == RequiredChars(PasswordSpec, p.password).value
    ensures r == Failure(map[PasswordKey := Mismatch]) <==>
              && RegistrationEmail(p.email, accepts).Success?
              && RequiredChars(PasswordSpec, p.password).Success?
              && RequiredChars(PasswordSpec, p.passwordConfirm).Success?
              && RequiredChars(PasswordSpec, p.password).value != RequiredChars(PasswordSpec, p.passwordConfirm).value
  {
    Check(RegistrationEmail(p.email, accepts), RequiredChars(PasswordSpec, p.password),
          RequiredChars(PasswordSpec, p.passwordConfirm))
  }

  /** The registration serializer's outcome from its fields' outcomes: `validate` runs only
      when every field passed. */
  function Check(email: Result<string, Fault>, pw: Result<string, Fault>, confirm: Result<string, Fault>)
    : (r: Result<Credentials, Errors>)
    requires pw.Failure? ==> pw.error != Mismatch
    ensures r.Success? <==> email.Success? && pw.Success? && confirm.Success? && pw.value == confirm.value
    ensures r.Success? ==> r.value == Credentials(email.value, pw.value)
    ensures r == Failure(map[PasswordKey := Mismatch]) <==>
              email.Success? && pw.Success? && confirm.Success? && pw.value != confirm.value
    ensures r.Failure? && !(email.Success? && pw.Success? && confirm.Success?) ==>
              && (EmailKey in r.error <==> email.Failure?)
              && (PasswordKey in r.error <==> pw.Failure?)
              && (PasswordConfirmKey in r.error <==> confirm.Failure?)
    ensures r.Failure? ==> r.error.Keys <= {EmailKey, PasswordKey, PasswordConfirmKey}
  {
    if email.Success? && pw.Success? && confirm.Success? then
      if pw.value != confirm.value then Failure(map[PasswordKey := Mismatch])
      else Success(Credentials(email.value, pw.value))
    else
      var errs := Note(Note(Note(map[], EmailKey, email), PasswordKey, pw), PasswordConfirmKey, confirm);
      assert errs != map[PasswordKey := Mismatch] by {
        if email.Failure? {
          assert EmailKey in errs;
        } else if confirm.Failure? {
          assert PasswordConfirmKey in errs;
        } else {
          assert errs[PasswordKey] == pw.error;
        }
      }
      Failure(errs)
  }

  /** `validate_email` of the login serializers: only lower-cased, no pattern. */
  function LoginEmail(raw: Option<string>, accepts: string -> bool): (r: Result<string, Fault>)
    ensures r.Success? <==> EmailField(raw, accepts).Success?
    ensures r.Success? ==> r.value == Lower(Trim(raw.value))
  {
    match EmailField(raw, accepts)
    case Failure(f) => Failure(f)
    case Success(t) => Success(Lower(t))
  }

  /** The login fields. */
  datatype LoginPayload = LoginPayload(email: Option<string>, password: Option<string>)

  /** `DoctorLoginSerializer` / `PatientLoginSerializer`: an e-mail, lower-cased, and a
      password without a length rule; the two are not compared with anything. */
  function ValidateLogin(p: LoginPayload, accepts: string -> bool): (r: Result<Credentials, Errors>)
    ensures r.Success? <==> LoginEmail(p.email, accepts).Success? && RequiredChars(AnyChars, p.password).Success?
    ensures r.Success? ==>
              r.value == Credentials(LoginEmail(p.email, accepts).value, RequiredChars(AnyChars, p.password).value)
    ensures r.Failure? ==>
              && (EmailKey in r.error <==> LoginEmail(p.email, accepts).Failure?)
              && (PasswordKey in r.error <==> RequiredChars(AnyChars, p.password).Failure?)
    ensures r.Failure? ==> r.error.Keys <= {EmailKey, PasswordKey}
  {
    var e := LoginEmail(p.email, accepts);
    var w := RequiredChars(AnyChars, p.password);
    if e.Success? && w.Success? then Success(Credentials(e.value, w.value))
    else Failure(Note(Note(map[], EmailKey, e), PasswordKey, w))
  }

  /** The e-mail registration stores is normalised: lower-casing it again changes nothing,
      and it still has the `local@domain.tld` shape the pattern demanded of what was typed. */
  lemma RegisteredEmailIsNormal(raw: Option<string>, accepts: string -> bool)
    ensures RegistrationEmail(raw, accepts).Success? ==>
              var e := RegistrationEmail(raw, accepts).value;
              Lower(e) == e && EmailFormat.EmailShape(e)
  {
    if RegistrationEmail(raw, accepts).Success? {
      LowerIdempotent(Trim(raw.value));
      EmailFormat.LowerKeepsShape(Trim(raw.value));
    }
  }

  /** Login normalises an e-mail the way registration stored it, so every address that
      registration accepted logs in under the same key. */
  lemma LoginFindsRegisteredEmail(raw: Option<string>, accepts: string -> bool)
    ensures RegistrationEmail(raw, accepts).Success? ==> LoginEmail(raw, accepts) == RegistrationEmail(raw, accepts)
  {
  }
}
