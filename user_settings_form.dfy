/** The client-side checks of apps/web/src/components/auth/UserSettingsForm.tsx:
    the password tab and the username tab, each validated into its own
    error record before its submit may reach the auth store. Errors are
    held as translation keys. */
module UserSettingsForm {
  import opened Wrappers
  import opened CharClasses
  import UpdatePasswordDto
  import UpdateUsernameDto
  import LoginForm
  import WebApi
  import AuthStore

  datatype PasswordField = CurrentPassword | NewPassword | ConfirmPassword
  datatype UsernameField = Username

  /** The three password inputs whose visibility can be toggled. */
  datatype Secret = Current | New | Confirm

  /** What the password submit hands to the store's `updatePassword`. */
  datatype PasswordChange = PasswordChange(currentPassword: string, newPassword: string, confirmPassword: string)

  const CurrentPasswordRequired := "auth.currentPasswordRequired"
  const NewPasswordRequired := "auth.newPasswordRequired"
  const PasswordMinLength := "auth.passwordMinLength"
  const PasswordStrength := "auth.passwordStrength"
  const ConfirmPasswordRequired := "auth.confirmPasswordRequired"
  const PasswordsDoNotMatch := "auth.passwordsDoNotMatch"
  const Required := "validation.required"

  /** The current password only has to be non-empty. */
  function CurrentPasswordError(currentPassword: string): (e: Option<string>)
    ensures e.None? <==> currentPassword != ""
    ensures e.Some? ==> e.value == CurrentPasswordRequired
  {
    if currentPassword == "" then Some(CurrentPasswordRequired) else None
  }

  /** The new-password error: the first failing rule of empty, shorter than
      8, and the unanchored strength pattern. No upper bound is checked. */
  function NewPasswordError(newPassword: string): (e: Option<string>)
    ensures e.None? <==> |newPassword| >= 8 && UnanchoredStrength(newPassword)
  {
    if newPassword == "" then Some(NewPasswordRequired)
    else if |newPassword| < 8 then Some(PasswordMinLength)
    else if !UnanchoredStrength(newPassword) then Some(PasswordStrength)
    else None
  }

  /** The confirmation error: "required" when empty, otherwise "mismatch"
      when it differs from the new password. */
  function ConfirmPasswordError(newPassword: string, confirmPassword: string): (e: Option<string>)
    ensures e == Some(ConfirmPasswordRequired) <==> confirmPassword == ""
    ensures e == Some(PasswordsDoNotMatch) <==> confirmPassword != "" && confirmPassword != newPassword
    ensures e.None? <==> confirmPassword != "" && confirmPassword == newPassword
  {
    if confirmPassword == "" then Some(ConfirmPasswordRequired)
    else if newPassword != confirmPassword then Some(PasswordsDoNotMatch)
    else None
  }

  /** The username error: the login form's rules in the login form's order,
      except that an empty name reports the generic "required" key. */
  function UsernameError(username: string): (e: Option<string>)
    ensures e.None? <==> UpdateUsernameDto.ValidUsername(username)
  {
    UpdateUsernameDto.SameAsLogin(username);
    if username == "" then Some(Required) else LoginForm.UsernameError(username)
  }

  /** Both username validators apply the same rules in the same order. */
  lemma UsernameRuleOrder(username: string)
    ensures username != "" ==> UsernameError(username) == LoginForm.UsernameError(username)
    ensures username == "" ==> UsernameError(username) == Some(Required)
  {
  }

  /** The error record `validatePasswordForm` builds. */
  function PasswordErrors(currentPassword: string, newPassword: string, confirmPassword: string)
    : (errors: map<PasswordField, string>)
    ensures CurrentPassword in errors <==> CurrentPasswordError(currentPassword).Some?
    ensures NewPassword in errors <==> NewPasswordError(newPassword).Some?
    ensures ConfirmPassword in errors <==> ConfirmPasswordError(newPassword, confirmPassword).Some?
    ensures CurrentPassword in errors ==> errors[CurrentPassword] == CurrentPasswordError(currentPassword).value
    ensures NewPassword in errors ==> errors[NewPassword] == NewPasswordError(newPassword).value
    ensures ConfirmPassword in errors ==> errors[ConfirmPassword] == ConfirmPasswordError(newPassword, confirmPassword).value
  {
    var current := CurrentPasswordError(currentPassword);
    var next := NewPasswordError(newPassword);
    var confirm := ConfirmPasswordError(newPassword, confirmPassword);
    var e1: map<PasswordField, string> := if current.Some? then map[CurrentPassword := current.value] else map[];
    var e2 := if next.Some? then e1[NewPassword := next.value] else e1;
    if confirm.Some? then e2[ConfirmPassword := confirm.value] else e2
  }

  /** The password form is valid exactly for a non-empty current password,
      a new password of at least 8 characters holding a lowercase letter, an
      uppercase letter, a digit and one of `@$!%*?&`, and an equal
      confirmation. */
  lemma PasswordFormAccepts(currentPassword: string, newPassword: string, confirmPassword: string)
    ensures PasswordErrors(currentPassword, newPassword, confirmPassword) == map[] <==>
      && currentPassword != ""
      && |newPassword| >= 8
      && HasAllClasses(newPassword)
      && confirmPassword == newPassword
  {
    UnanchoredIsAllClasses(newPassword);
    var errors := PasswordErrors(currentPassword, newPassword, confirmPassword);
    if errors != map[] {
      assert CurrentPassword in errors || NewPassword in errors || ConfirmPassword in errors;
    }
  }

  /** Everything the server accepts for a password change, with a matching
      confirmation, passes the form. */
  lemma ServerAcceptedPassesForm(currentPassword: string, newPassword: string, confirmPassword: string)
    requires UpdatePasswordDto.Accepts(currentPassword, newPassword, confirmPassword)
    requires confirmPassword == newPassword
    ensures PasswordErrors(currentPassword, newPassword, confirmPassword) == map[]
  {
    AnchoredImpliesUnanchored(newPassword);
    var errors := PasswordErrors(currentPassword, newPassword, confirmPassword);
    assert CurrentPassword !in errors && NewPassword !in errors && ConfirmPassword !in errors;
  }

  /** The form lacks the start anchor: a password that begins with a space
      passes the form and fails the server. */
  lemma FormSkipsAnchor()
    ensures NewPasswordError(" aA1@xyz") == None
    ensures !UpdatePasswordDto.ValidNewPassword(" aA1@xyz")
  {
    var s := " aA1@xyz";
    var t := s[1..];
    assert IsLower(t[0]) && IsUpper(t[1]) && IsDigit(t[2]) && IsSpecial(t[3]);
    assert StrengthAt(s, 1);
  }

  /** The form lacks the 100-character cap: a 101-character password passes
      the form and fails the server. */
  lemma FormSkipsCap()
    ensures var s := "aA1@" + seq(97, _ => 'a');
      NewPasswordError(s) == None && !UpdatePasswordDto.ValidNewPassword(s)
  {
    var s := "aA1@" + seq(97, _ => 'a');
    assert s[0..] == s;
    assert IsLower(s[0]) && IsUpper(s[1]) && IsDigit(s[2]) && IsSpecial(s[3]);
    assert StrengthAt(s, 0);
  }

  class Form {
    var currentPassword: string
    var newPassword: string
    var confirmPassword: string
    var username: string
    var passwordErrors: map<PasswordField, string>
    var usernameErrors: map<UsernameField, string>
    var showCurrent: bool
    var showNew: bool
    var showConfirm: bool

    /** Empty inputs, no errors, every password hidden. */
    constructor ()
      ensures currentPassword == "" && newPassword == "" && confirmPassword == "" && username == ""
      ensures passwordErrors == map[] && usernameErrors == map[]
      ensures !showCurrent && !showNew && !showConfirm
    {
      currentPassword := "";
      newPassword := "";
      confirmPassword := "";
      username := "";
      passwordErrors := map[];
      usernameErrors := map[];
      showCurrent := false;
      showNew := false;
      showConfirm := false;
    }

    /** `handlePasswordInputChange`: the edited field takes the value and
        loses its error; a failure the store is showing for the password
        change is cleared. */
    method HandlePasswordInputChange(field: PasswordField, value: string, store: AuthStore.Store)
      modifies this, store
      ensures currentPassword == if field == CurrentPassword then value else old(currentPassword)
      ensures newPassword == if field == NewPassword then value else old(newPassword)
      ensures confirmPassword == if field == ConfirmPassword then value else old(confirmPassword)
      ensures passwordErrors == old(passwordErrors) - {field}
      ensures username == old(username) && usernameErrors == old(usernameErrors)
      ensures showCurrent == old(showCurrent) && showNew == old(showNew) && showConfirm == old(showConfirm)
      ensures WebApi.Truthy(old(store.updatePasswordError)) ==>
        store.updatePasswordError.None? && !store.updatePasswordSuccess
      ensures !WebApi.Truthy(old(store.updatePasswordError)) ==>
        store.updatePasswordError == old(store.updatePasswordError) && store.updatePasswordSuccess == old(store.updatePasswordSuccess)
      ensures store.updatePasswordLoading == old(store.updatePasswordLoading)
      ensures store.updateUsernameLoading == old(store.updateUsernameLoading)
      ensures store.updateUsernameError == old(store.updateUsernameError)
      ensures store.updateUsernameSuccess == old(store.updateUsernameSuccess)
      ensures store.tokens == old(store.tokens) && store.user == old(store.user)
      ensures store.isAuthenticated == old(store.isAuthenticated)
      ensures store.isLoading == old(store.isLoading) && store.error == old(store.error)
    {
      match field {
        case CurrentPassword => currentPassword := value;
        case NewPassword => newPassword := value;
        case ConfirmPassword => confirmPassword := value;
      }
      if field in passwordErrors {
        passwordErrors := passwordErrors - {field};
      }
      if store.updatePasswordError.Some? && store.updatePasswordError.value != "" {
        store.ClearUpdatePasswordState();
      }
    }

    /** `handleUsernameInputChange`: the name takes the value and loses its
        error; a failure the store is showing for the rename is cleared. */
    method HandleUsernameInputChange(value: string, store: AuthStore.Store)
      modifies this, store
      ensures username == value && usernameErrors == old(usernameErrors) - {Username}
      ensures currentPassword == old(currentPassword) && newPassword == old(newPassword)
      ensures confirmPassword == old(confirmPassword) && passwordErrors == old(passwordErrors)
      ensures showCurrent == old(showCurrent) && showNew == old(showNew) && showConfirm == old(showConfirm)
      ensures WebApi.Truthy(old(store.updateUsernameError)) ==>
        store.updateUsernameError.None? && !store.updateUsernameSuccess
      ensures !WebApi.Truthy(old(store.updateUsernameError)) ==>
        store.updateUsernameError == old(store.updateUsernameError) && store.updateUsernameSuccess == old(store.updateUsernameSuccess)
      ensures store.updateUsernameLoading == old(store.updateUsernameLoading)
      ensures store.updatePasswordLoading == old(store.updatePasswordLoading)
      ensures store.updatePasswordError == old(store.updatePasswordError)
      ensures store.updatePasswordSuccess == old(store.updatePasswordSuccess)
      ensures store.tokens == old(store.tokens) && store.user == old(store.user)
      ensures store.isAuthenticated == old(store.isAuthenticated)
      ensures store.isLoading == old(store.isLoading) && store.error == old(store.error)
    {
      username := value;
      if Username in usernameErrors {
        usernameErrors := usernameErrors - {Username};
      }
      if store.updateUsernameError.Some? && store.updateUsernameError.value != "" {
        store.ClearUpdateUsernameState();
      }
    }

    /** `togglePasswordVisibility`: flips the named flag and nothing else. */
    method TogglePasswordVisibility(field: Secret)
      modifies this
      ensures showCurrent == (if field == Current then !old(showCurrent) else old(showCurrent))
      ensures showNew == (if field == New then !old(showNew) else old(showNew))
      ensures showConfirm == (if field == Confirm then !old(showConfirm) else old(showConfirm))
      ensures currentPassword == old(currentPassword) && newPassword == old(newPassword)
      ensures confirmPassword == old(confirmPassword) && username == old(username)
      ensures passwordErrors == old(passwordErrors) && usernameErrors == old(usernameErrors)
    {
      match field
      case Current => showCurrent := !showCurrent;
      case New => showNew := !showNew;
      case Confirm => showConfirm := !showConfirm;
    }

    /** `validatePasswordForm`: builds the error record rule by rule, shows
        it, and reports whether it is empty. */
    method ValidatePasswordForm() returns (valid: bool)
      modifies this
      ensures currentPassword == old(currentPassword) && newPassword == old(newPassword)
      ensures confirmPassword == old(confirmPassword) && username == old(username)
      ensures usernameErrors == old(usernameErrors)
      ensures showCurrent == old(showCurrent) && showNew == old(showNew) && showConfirm == old(showConfirm)
      ensures passwordErrors == PasswordErrors(currentPassword, newPassword, confirmPassword)
      ensures valid <==> passwordErrors == map[]
    {
      var newErrors: map<PasswordField, string> := map[];
      if currentPassword == "" {
        newErrors := newErrors[CurrentPassword := CurrentPasswordRequired];
      }
      ghost var current := CurrentPasswordError(currentPassword);
      assert newErrors == if current.Some? then map[CurrentPassword := current.value] else map[];
      ghost var e1 := newErrors;
      if newPassword == "" {
        newErrors := newErrors[NewPassword := NewPasswordRequired];
      } else if |newPassword| < 8 {
        newErrors := newErrors[NewPassword := PasswordMinLength];
      } else if !UnanchoredStrength(newPassword) {
        newErrors := newErrors[NewPassword := PasswordStrength];
      }
      ghost var next := NewPasswordError(newPassword);
      assert newErrors == if next.Some? then e1[NewPassword := next.value] else e1;
      ghost var e2 := newErrors;
      if confirmPassword == "" {
        newErrors := newErrors[ConfirmPassword := ConfirmPasswordRequired];
      } else if newPassword != confirmPassword {
        newErrors := newErrors[ConfirmPassword := PasswordsDoNotMatch];
      }
      ghost var confirm := ConfirmPasswordError(newPassword, confirmPassword);
      assert newErrors == if confirm.Some? then e2[ConfirmPassword := confirm.value] else e2;
      passwordErrors := newErrors;
      valid := |passwordErrors.Keys| == 0;
    }

    /** `validateUsernameForm`. */
    method ValidateUsernameForm() returns (valid: bool)
      modifies this
      ensures currentPassword == old(currentPassword) && newPassword == old(newPassword)
      ensures confirmPassword == old(confirmPassword) && username == old(username)
      ensures passwordErrors == old(passwordErrors)
      ensures showCurrent == old(showCurrent) && showNew == old(showNew) && showConfirm == old(showConfirm)
      ensures Username in usernameErrors <==> !UpdateUsernameDto.ValidUsername(username)
      ensures Username in usernameErrors ==> usernameErrors[Username] == UsernameError(username).value
      ensures usernameErrors.Keys <= {Username}
      ensures valid <==> UpdateUsernameDto.ValidUsername(username)
    {
      var newErrors: map<UsernameField, string> := map[];
      if username == "" {
        newErrors := newErrors[Username := Required];
      } else if |username| < 3 {
        newErrors := newErrors[Username := LoginForm.UsernameMinLength];
      } else if |username| > 20 {
        newErrors := newErrors[Username := LoginForm.UsernameMaxLength];
      } else if !IsWord(username) {
        newErrors := newErrors[Username := LoginForm.UsernameInvalid];
      }
      usernameErrors := newErrors;
      valid := |usernameErrors.Keys| == 0;
    }

    /** `handlePasswordSubmit`: the change reaches the store only when the
        password form validates. */
    method HandlePasswordSubmit() returns (sent: Option<PasswordChange>)
      modifies this
      ensures currentPassword == old(currentPassword) && newPassword == old(newPassword)
      ensures confirmPassword == old(confirmPassword) && username == old(username)
      ensures usernameErrors == old(usernameErrors)
      ensures showCurrent == old(showCurrent) && showNew == old(showNew) && showConfirm == old(showConfirm)
      ensures passwordErrors == PasswordErrors(currentPassword, newPassword, confirmPassword)
      ensures sent.Some? <==> passwordErrors == map[]
      ensures sent.Some? ==> sent.value == PasswordChange(currentPassword, newPassword, confirmPassword)
    {
      var valid := ValidatePasswordForm();
      if !valid {
        return None;
      }
      sent := Some(PasswordChange(currentPassword, newPassword, confirmPassword));
    }

    /** `handleUsernameSubmit`: the new name reaches the store only when the
        username form validates. */
    method HandleUsernameSubmit() returns (sent: Option<string>)
      modifies this
      ensures username == old(username)
      ensures currentPassword == old(currentPassword) && newPassword == old(newPassword)
      ensures confirmPassword == old(confirmPassword) && passwordErrors == old(passwordErrors)
      ensures showCurrent == old(showCurrent) && showNew == old(showNew) && showConfirm == old(showConfirm)
      ensures Username in usernameErrors <==> !UpdateUsernameDto.ValidUsername(username)
      ensures Username in usernameErrors ==> usernameErrors[Username] == UsernameError(username).value
      ensures usernameErrors.Keys <= {Username}
      ensures sent.Some? <==> UpdateUsernameDto.ValidUsername(username)
      ensures sent.Some? ==> sent.value == username
    {
      var valid := ValidateUsernameForm();
      if !valid {
        return None;
      }
      sent := Some(username);
    }
  }
}
