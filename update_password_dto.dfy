/** The body of `PATCH /users/password`, as the decorators of
    apps/api/src/users/dto/update-password.dto.ts constrain it. Whether the
    confirmation equals the new password is not checked here but in the
    service. */
module UpdatePasswordDto {
  import opened CharClasses

  const NewMinLength: nat := 8
  const NewMaxLength: nat := 100

  /** `@IsNotEmpty` alone. */
  predicate ValidCurrentPassword(currentPassword: string)
  {
    currentPassword != ""
  }

  /** `@IsNotEmpty`, `@MinLength(8)`, `@MaxLength(100)` and the strength
      pattern anchored at the start. */
  predicate ValidNewPassword(newPassword: string)
  {
    && newPassword != ""
    && |newPassword| >= NewMinLength
    && |newPassword| <= NewMaxLength
    && AnchoredStrength(newPassword)
  }

  /** `@IsNotEmpty` alone: equality with the new password is the service's
      check. */
  predicate ValidConfirmPassword(confirmPassword: string)
  {
    confirmPassword != ""
  }

  predicate Accepts(currentPassword: string, newPassword: string, confirmPassword: string)
  {
    ValidCurrentPassword(currentPassword) && ValidNewPassword(newPassword) && ValidConfirmPassword(confirmPassword)
  }

  /** An accepted new password is 8 to 100 characters long, starts with a
      letter, a digit or one of `@$!%*?&`, and holds one of each class. */
  lemma AcceptedNewPassword(newPassword: string)
    requires ValidNewPassword(newPassword)
    ensures NewMinLength <= |newPassword| <= NewMaxLength
    ensures IsStrengthChar(newPassword[0])
    ensures HasAllClasses(newPassword)
  {
    assert newPassword[0..] == newPassword;
  }

  /** The anchor constrains the first character only: a space further on is
      accepted, one at the start is not. */
  lemma AnchorOnlyConstrainsFirst()
    ensures ValidNewPassword("aA1@ xyz")
    ensures !ValidNewPassword(" aA1@xyz")
  {
    var s := "aA1@ xyz";
    assert s[0..] == s;
    assert IsLower(s[0]) && IsUpper(s[1]) && IsDigit(s[2]) && IsSpecial(s[3]);
  }

  /** A confirmation that differs from the new password still passes the
      DTO. */
  lemma MismatchPassesDto()
    ensures Accepts("old", "aA1@aaaa", "different")
  {
    var s := "aA1@aaaa";
    assert s[0..] == s;
    assert IsLower(s[0]) && IsUpper(s[1]) && IsDigit(s[2]) && IsSpecial(s[3]);
  }
}
