/** The profile set-up page's `handleSubmit` (app/setup-profile/page.tsx). */
module SetupProfile {
  import opened Wrappers
  import opened Schema
  import opened Feedback
  import opened JsText

  const UsernameTooShort: string := "El nombre de usuario debe tener al menos 3 caracteres"
  const NoUser: string := "No user found"
  const UsernameTaken: string := "Este nombre de usuario ya está en uso"
  const ProfileFailedFallback: string := "Error al crear perfil"
  const ProfileCreated: string := "¡Perfil creado exitosamente!"
  /** The datastore's unique-violation error code. */
  const UniqueViolation: string := "23505"

  /** An error the datastore reports: its code and its message. */
  datatype DbError = DbError(code: string, message: string)

  datatype SetupOutcome = SetupOutcome(toast: Toast, navigateTo: Option<string>)

  /** The message an insert error is shown with: a unique violation means
      the name is taken; anything else shows its own message. */
  function InsertErrorText(e: DbError): (r: string)
    ensures e.code == UniqueViolation ==> r == UsernameTaken
    ensures e.code != UniqueViolation ==> r == OrElse(e.message, ProfileFailedFallback)
    ensures r != []
  {
    if e.code == UniqueViolation then UsernameTaken else OrElse(e.message, ProfileFailedFallback)
  }

  /** `handleSubmit` with the typed username, the signed-in `caller`, the
      token the datastore generates for the row, and the insert's error.
      The profile id is the table's primary key: an insert for a caller who
      already has a profile is refused by the datastore, so it always comes
      with an error. */
  function HandleSetup(s: Store, username: string, caller: Option<UserId>, generatedToken: string,
                       insertError: Option<DbError>): (r: (SetupOutcome, Store))
    requires caller.Some? && caller.value in s.profiles ==> insertError.Some?
    // An existing profile, and its token, is never rewritten.
    ensures forall id :: id in s.profiles ==> id in r.1.profiles && r.1.profiles[id] == s.profiles[id]
    ensures r.1.profiles.Keys <= s.profiles.Keys + (if caller.Some? then {caller.value} else {})
    // The length check is on the untrimmed input.
    ensures Utf16Length(username) < 3 ==> r == (SetupOutcome(ErrorToast(UsernameTooShort), None), s)
    ensures Utf16Length(username) >= 3 && caller.None? ==> r == (SetupOutcome(ErrorToast(NoUser), None), s)
    ensures Utf16Length(username) >= 3 && caller.Some? && insertError.Some? ==>
      r == (SetupOutcome(ErrorToast(InsertErrorText(insertError.value)), None), s)
    // Otherwise the caller's profile, under the caller's id, holds the trimmed name.
    ensures Utf16Length(username) >= 3 && caller.Some? && insertError.None? ==>
      && r.0 == SetupOutcome(SuccessToast(ProfileCreated), Some("/dashboard"))
      && r.1 == s.(profiles := s.profiles[caller.value := Profile(Trim(username), None, generatedToken)])
  {
    if Utf16Length(username) < 3 then (SetupOutcome(ErrorToast(UsernameTooShort), None), s)
    else if caller.None? then (SetupOutcome(ErrorToast(NoUser), None), s)
    else if insertError.Some? then (SetupOutcome(ErrorToast(InsertErrorText(insertError.value)), None), s)
    else
      var row := StoredProfile(ProfileInsert(caller.value, Trim(username), None, None), generatedToken);
      (SetupOutcome(SuccessToast(ProfileCreated), Some("/dashboard")), s.(profiles := s.profiles[caller.value := row]))
  }

  predicate IsUsernameChar(c: char) {
    ('a' <= c <= 'z') || ('A' <= c <= 'Z') || ('0' <= c <= '9') || c == '_'
  }

  /** The form's own checks, made by the browser: `pattern="[a-zA-Z0-9_]+"`
      and `minLength={3}`, which counts UTF-16 code units. */
  predicate BrowserAccepts(username: string) {
    |username| > 0 && Utf16Length(username) >= 3
    && forall i :: 0 <= i < |username| ==> IsUsernameChar(username[i])
  }

  /** A name the browser lets through has no whitespace to trim and is as
      long in code units as in characters. */
  lemma BrowserAcceptedNameIsTrimmed(username: string)
    requires BrowserAccepts(username)
    ensures Trim(username) == username && Utf16Length(username) == |username| >= 3
  {
    Utf16LengthOfBmp(username);
    assert IsUsernameChar(username[0]) && IsUsernameChar(username[|username| - 1]);
    TrimOfTrimmed(username);
  }

  /** A name the browser lets through passes the handler's check and is
      stored exactly as typed. */
  lemma BrowserAcceptedNameStoredAsTyped(s: Store, username: string, caller: UserId, generatedToken: string)
    requires caller !in s.profiles
    requires BrowserAccepts(username)
    ensures HandleSetup(s, username, Some(caller), generatedToken, None).0.navigateTo == Some("/dashboard")
    ensures HandleSetup(s, username, Some(caller), generatedToken, None).1.profiles[caller].username == username
  {
    BrowserAcceptedNameIsTrimmed(username);
  }

  lemma PaddedNameMeasures()
    ensures Utf16Length("  a") == 3 && Trim("  a") == "a"
  {
    Utf16LengthOfBmp("  a");
    PaddedNameTrimsStart();
    TrimOfTrimmed("a");
  }

  lemma PaddedNameTrimsStart()
    ensures TrimStart("  a") == "a"
  {
    var padded := "  a";
    assert IsJsWhitespace(padded[0]) && padded[1..] == " a";
    assert IsJsWhitespace(padded[1..][0]) && padded[1..][1..] == "a";
    assert !IsJsWhitespace('a');
  }

  /** Without the browser's checks, a padded short name passes the handler:
      "  a" is three code units long, and the stored name is "a". */
  lemma PaddedShortNamePasses(s: Store, caller: UserId, generatedToken: string)
    requires caller !in s.profiles
    ensures var r := HandleSetup(s, "  a", Some(caller), generatedToken, None);
      r.0.navigateTo.Some? && r.1.profiles[caller].username == "a"
  {
    PaddedNameMeasures();
  }
}
