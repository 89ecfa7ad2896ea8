/** The client-side checks of apps/web/src/components/auth/LoginForm.tsx.
    An error is held as the translation key the form passes to `t`; looking
    the key up is not modelled. */
module LoginForm {
  import opened Wrappers
  import opened CharClasses
  import LoginDto

  datatype Field = Username | Password

  /** What the submit hands to the auth store's `login`. */
  datatype Credentials = Credentials(username: string, password: string)

  const UsernameRequired := "auth.usernameRequired"
  const UsernameMinLength := "auth.usernameMinLength"
  const UsernameMaxLength := "auth.usernameMaxLength"
  const UsernameInvalid := "auth.usernameInvalid"
  const PasswordRequired := "auth.passwordRequired"
  const PasswordMinLength := "auth.passwordMinLength"

  /** The username error: the first failing rule of empty, shorter than 3,
      longer than 20, and a character outside `[a-zA-Z0-9_]`. */
  function UsernameError(username: string): (e: Option<string>)
    ensures e.None? <==> LoginDto.ValidUsername(username)
  {
    if username == "" then Some(UsernameRequired)
    else if |username| < 3 then Some(UsernameMinLength)
    else if |username| > 20 then Some(UsernameMaxLength)
    else if !IsWord(username) then Some(UsernameInvalid)
    else None
  }

  /** The password error: the first failing rule of empty and shorter than
      8; there is no strength rule. */
  function PasswordError(password: string): (e: Option<string>)
    ensures e.None? <==> LoginDto.ValidPassword(password)
  {
    if password == "" then Some(PasswordRequired)
    else if |password| < 8 then Some(PasswordMinLength)
    else None
  }

  /** Each username error is reported exactly when its rule is the first
      that fails. */
  lemma UsernameRuleOrder(username: string)
    ensures UsernameError(username) == Some(UsernameRequired) <==> username == ""
    ensures UsernameError(username) == Some(UsernameMinLength) <==> username != "" && |username| < 3
    ensures UsernameError(username) == Some(UsernameMaxLength) <==> |username| > 20
    ensures UsernameError(username) == Some(UsernameInvalid) <==>
      3 <= |username| <= 20 && exists i :: 0 <= i < |username| && !IsWordChar(username[i])
  {
  }

  /** Each password error is reported exactly when its rule is the first
      that fails, and a long enough password of any characters passes. */
  lemma PasswordRuleOrder(password: string)
    ensures PasswordError(password) == Some(PasswordRequired) <==> password == ""
    ensures PasswordError(password) == Some(PasswordMinLength) <==> 1 <= |password| < 8
    ensures PasswordError(password) == None <==> |password| >= 8
  {
  }

  /** The error record `validateForm` builds: one entry per failing field. */
  function Errors(username: string, password: string): (errors: map<Field, string>)
    ensures Username in errors <==> !LoginDto.ValidUsername(username)
    ensures Password in errors <==> !LoginDto.ValidPassword(password)
    ensures Username in errors ==> errors[Username] == UsernameError(username).value
    ensures Password in errors ==> errors[Password] == PasswordError(password).value
  {
    var withUsername := if UsernameError(username).Some? then map[Username := UsernameError(username).value] else map[];
    if PasswordError(password).Some? then withUsername[Password := PasswordError(password).value] else withUsername
  }

  /** The form has no errors for exactly the pairs the server's login DTO
      accepts. */
  lemma AcceptsAsDto(username: string, password: string)
    ensures Errors(username, password) == map[] <==> LoginDto.Accepts(username, password)
  {
    if !LoginDto.Accepts(username, password) {
      assert Username in Errors(username, password) || Password in Errors(username, password);
    }
  }

  class Form {
    var username: string
    var password: string
    var errors: map<Field, string>

    /** Both fields empty and no errors shown. */
    constructor ()
      ensures username == "" && password == "" && errors == map[]
    {
      username := "";
      password := "";
      errors := map[];
    }

    /** `handleInputChange`: stores the value in the named field and clears
        that field's error, if any. The source sets the entry to
        `undefined`, which shows as no error; the model removes it. */
    method HandleInputChange(name: Field, value: string)
      modifies this
      ensures name == Username ==> username == value && password == old(password)
      ensures name == Password ==> password == value && username == old(username)
      ensures errors == old(errors) - {name}
    {
      if name == Username {
        username := value;
      } else {
        password := value;
      }
      if name in errors {
        errors := errors - {name};
      }
    }

    /** `validateForm`: builds the error record field by field, shows it,
        and reports whether it is empty. */
    method Validate() returns (valid: bool)
      modifies this
      ensures username == old(username) && password == old(password)
      ensures errors == Errors(username, password)
      ensures valid <==> errors == map[]
      ensures valid <==> LoginDto.Accepts(username, password)
    {
      var newErrors: map<Field, string> := map[];
      if username == "" {
        newErrors := newErrors[Username := UsernameRequired];
      } else if |username| < 3 {
        newErrors := newErrors[Username := UsernameMinLength];
      } else if |username| > 20 {
        newErrors := newErrors[Username := UsernameMaxLength];
      } else if !IsWord(username) {
        newErrors := newErrors[Username := UsernameInvalid];
      }
      if password == "" {
        newErrors := newErrors[Password := PasswordRequired];
      } else if |password| < 8 {
        newErrors := newErrors[Password := PasswordMinLength];
      }
      errors := newErrors;
      AcceptsAsDto(username, password);
      valid := |errors.Keys| == 0;
    }

    /** `handleSubmit`: validates, and hands the form data to `login` only
        when the form is valid. */
    method HandleSubmit() returns (sent: Option<Credentials>)
      modifies this
      ensures username == old(username) && password == old(password)
      ensures errors == Errors(username, password)
      ensures sent.Some? <==> LoginDto.Accepts(username, password)
      ensures sent.Some? ==> sent.value == Credentials(username, password)
    {
      var valid := Validate();
      if !valid {
        return None;
      }
      sent := Some(Credentials(username, password));
    }
  }
}
