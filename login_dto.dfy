/** The body of `POST /auth/login`, as the decorators of
    apps/api/src/auth/dto/login.dto.ts constrain it. class-validator runs
    every constraint; a body is accepted when none fails. Values that are
    not strings are not modelled. */
module LoginDto {
  import opened CharClasses

  const UsernameMinLength: nat := 3
  const UsernameMaxLength: nat := 20
  const PasswordMinLength: nat := 8

  /** `@IsNotEmpty`, `@MinLength(3)`, `@MaxLength(20)` and
      `@Matches(/^[a-zA-Z0-9_]+$/)`. */
  predicate ValidUsername(username: string)
  {
    && username != ""
    && |username| >= UsernameMinLength
    && |username| <= UsernameMaxLength
    && IsWord(username)
  }

  /** `@IsNotEmpty` and `@MinLength(8)`: no upper bound and no character rule. */
  predicate ValidPassword(password: string)
  {
    password != "" && |password| >= PasswordMinLength
  }

  predicate Accepts(username: string, password: string)
  {
    ValidUsername(username) && ValidPassword(password)
  }

  /** Each username rule rejects on its own: the empty name, a length outside
      3..20, and any character outside `[A-Za-z0-9_]`. */
  lemma UsernameRules(username: string)
    ensures username == "" ==> !ValidUsername(username)
    ensures |username| < UsernameMinLength || |username| > UsernameMaxLength ==> !ValidUsername(username)
    ensures (exists i :: 0 <= i < |username| && !IsWordChar(username[i])) ==> !ValidUsername(username)
    ensures ValidUsername(username) <==>
      UsernameMinLength <= |username| <= UsernameMaxLength && forall i :: 0 <= i < |username| ==> IsWordChar(username[i])
  {
  }

  /** A password is accepted exactly when it has at least 8 characters,
      whatever they are. */
  lemma PasswordRule(password: string)
    ensures ValidPassword(password) <==> |password| >= PasswordMinLength
  {
  }
}
