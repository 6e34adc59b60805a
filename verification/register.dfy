/** The registration page's `handleRegister` (app/auth/register/page.tsx). */
module Register {
  import opened Wrappers
  import opened Feedback
  import opened JsText

  const PasswordsDiffer: string := "Las contraseñas no coinciden"
  const PasswordTooShort: string := "La contraseña debe tener al menos 6 caracteres"
  const AccountCreated: string := "¡Cuenta creada! Ahora configura tu perfil"
  const SignUpFallback: string := "Error al crear la cuenta"
  const MinPasswordLength: nat := 6

  /** What the handler hands the authentication provider's `signUp`. */
  datatype Credentials = Credentials(email: string, password: string)

  /** The sign-up call made, if any, the toast shown and the navigation. */
  datatype RegisterOutcome = RegisterOutcome(signUp: Option<Credentials>, toast: Toast, navigateTo: Option<string>)

  /** `handleRegister` with the three fields; `signUpError` is the message
      of the error `signUp` reports, if any. */
  function HandleRegister(email: string, password: string, confirmPassword: string, signUpError: Option<string>): (r: RegisterOutcome)
    // Sign-up is attempted exactly for a confirmed password of at least six code units, unchanged.
    ensures r.signUp.Some? <==> password == confirmPassword && Utf16Length(password) >= MinPasswordLength
    ensures r.signUp.Some? ==> r.signUp.value == Credentials(email, password)
    // A mismatch is reported before the length.
    ensures password != confirmPassword ==> r.toast == ErrorToast(PasswordsDiffer)
    ensures password == confirmPassword && Utf16Length(password) < MinPasswordLength ==> r.toast == ErrorToast(PasswordTooShort)
    // Navigation only after a sign-up without error.
    ensures r.navigateTo.Some? <==> r.signUp.Some? && signUpError.None?
    ensures r.navigateTo.Some? ==> r.navigateTo.value == "/setup-profile" && r.toast == SuccessToast(AccountCreated)
    ensures r.signUp.Some? && signUpError.Some? ==> r.toast == ErrorToast(OrElse(signUpError.value, SignUpFallback))
  {
    if password != confirmPassword then RegisterOutcome(None, ErrorToast(PasswordsDiffer), None)
    else if Utf16Length(password) < MinPasswordLength then RegisterOutcome(None, ErrorToast(PasswordTooShort), None)
    else
      var call := Some(Credentials(email, password));
      if signUpError.Some? then RegisterOutcome(call, ErrorToast(OrElse(signUpError.value, SignUpFallback)), None)
      else RegisterOutcome(call, SuccessToast(AccountCreated), Some("/setup-profile"))
  }

  /** The six-character minimum is counted in code units: a confirmed
      password of three or more characters outside the Basic Multilingual
      Plane (emoji, say) reaches `signUp`. */
  lemma AstralPasswordOfThreeIsAccepted(email: string, password: string, signUpError: Option<string>)
    requires |password| >= 3
    requires forall i :: 0 <= i < |password| ==> password[i] as int >= 0x10000
    ensures HandleRegister(email, password, password, signUpError).signUp == Some(Credentials(email, password))
  {
    Utf16LengthOfAstral(password);
  }

  /** A confirmed password of fewer than six characters, all inside the
      Basic Multilingual Plane, is refused as too short and never sent. */
  lemma ShortBmpPasswordIsRefused(email: string, password: string, signUpError: Option<string>)
    requires |password| < MinPasswordLength
    requires forall i :: 0 <= i < |password| ==> password[i] as int < 0x10000
    ensures HandleRegister(email, password, password, signUpError) == RegisterOutcome(None, ErrorToast(PasswordTooShort), None)
  {
    Utf16LengthOfBmp(password);
  }
}
