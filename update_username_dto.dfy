/** The body of `PATCH /users/username`, as the decorators of
    apps/api/src/users/dto/update-username.dto.ts constrain it. */
module UpdateUsernameDto {
  import opened CharClasses
  import LoginDto

  const MinLength: nat := 3
  const MaxLength: nat := 20

  /** `@IsNotEmpty`, `@MinLength(3)`, `@MaxLength(20)` and
      `@Matches(/^[a-zA-Z0-9_]+$/)`. */
  predicate ValidUsername(username: string)
  {
    && username != ""
    && |username| >= MinLength
    && |username| <= MaxLength
    && IsWord(username)
  }

  /** A rename goes through exactly for the names a login accepts. */
  lemma SameAsLogin(username: string)
    ensures ValidUsername(username) <==> LoginDto.ValidUsername(username)
  {
  }
}
