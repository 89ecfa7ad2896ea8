/** The records the web client receives from the API, and how the stores
    read a failed request. A request is not performed: its outcome is
    given to the action that awaited it. */
module WebApi {
  import opened Wrappers
  import Strings

  /** How an awaited request ended: with its response, or with an error
      whose `response.data.message` may be absent. */
  datatype Outcome<+T> = Success(value: T) | Failure(message: Option<string>)

  /** A binding as the list shows it (the platform record it carries is
      not used by the modelled logic). */
  datatype Binding = Binding(id: string, platformId: string, accountName: string)

  /** The body of `POST /user-platforms/:id/otp`. */
  datatype OtpResponse = OtpResponse(token: string, expiresIn: int)

  /** One page of `GET /user-platforms`. */
  datatype BindingPage = BindingPage(data: seq<Binding>, total: int, nextCursor: Option<string>)

  datatype Platform = Platform(id: string, name: string)

  /** One page of `GET /platforms`. */
  datatype PlatformPage = PlatformPage(platforms: seq<Platform>, total: int)

  datatype Tokens = Tokens(accessToken: string, refreshToken: string)

  /** The profile of `GET /users/profile`. */
  datatype Profile = Profile(id: string, username: string)

  /** `!!x` for a string that may be null: present and non-empty. */
  predicate Truthy(s: Option<string>)
  {
    s.Some? && s.value != ""
  }

  /** `error.response?.data?.message || fallback`: the server's message
      when it has one that is not empty, and the fallback otherwise. */
  function ErrorText(message: Option<string>, fallback: string): (text: string)
    ensures Truthy(message) ==> text == message.value
    ensures !Truthy(message) ==> text == fallback
  {
    Strings.OrElse(if message.Some? then message.value else "", fallback)
  }
}
