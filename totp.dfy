/** The time arithmetic of TOTP (section 4.2 of RFC 6238) as
    apps/api/src/user-platforms/user-platforms.service.ts uses it. The token
    itself is computed by the speakeasy library (HMAC-SHA1 over the step
    counter); here it is an uninterpreted function of the secret and the
    step counter, which is all the service relies on. */
module Totp {

  /** The TOTP time step X, in seconds. */
  const TimeStep: nat := 30

  /** The step counter T = floor(t / X) for a Unix time t in seconds. */
  function Counter(t: nat): nat
  {
    t / TimeStep
  }

  /** The seconds left in the current step, `timeStep - (currentTime % timeStep)`. */
  function ExpiresIn(t: nat): (r: nat)
    ensures 1 <= r <= TimeStep
    ensures r == TimeStep <==> t % TimeStep == 0
  {
    TimeStep - t % TimeStep
  }

  /** Within a step the countdown drops by one per second; at a step
      boundary it resets to the full step. */
  lemma ExpiresInTicks(t: nat)
    ensures Counter(t + 1) == Counter(t) ==> ExpiresIn(t + 1) == ExpiresIn(t) - 1
    ensures Counter(t + 1) != Counter(t) ==> ExpiresIn(t) == 1 && ExpiresIn(t + 1) == TimeStep
  {
  }

  /** The countdown says exactly when the counter moves: after ExpiresIn(t)
      seconds the next step begins, and not before. */
  lemma {:induction false} ExpiresInReachesNextStep(t: nat, d: nat)
    ensures Counter(t + d) == Counter(t) <==> d < ExpiresIn(t)
  {
    var q, r := t / TimeStep, t % TimeStep;
    assert t == q * TimeStep + r;
    if d < ExpiresIn(t) {
      assert t + d == q * TimeStep + (r + d) && r + d < TimeStep;
    } else {
      assert t + d >= (q + 1) * TimeStep;
    }
  }

  /** The one-time-password library: `token(secret, counter)` is the code
      of a step, `verify(secret, candidate, counter)` its acceptance check
      (speakeasy's `totp.verify` with `window: 1`). */
  datatype Generator = Generator(
    token: (string, nat) -> string,
    verify: (string, string, nat) -> bool)

  /** What `generateOTP` returns: the code and its remaining validity. */
  datatype Otp = Otp(token: string, expiresIn: nat)

  /** The code and countdown for a secret at one instant. */
  function Generate(g: Generator, secret: string, t: nat): (r: Otp)
    ensures 1 <= r.expiresIn <= TimeStep
  {
    Otp(g.token(secret, Counter(t)), ExpiresIn(t))
  }

  /** Two instants of one step give the same code. */
  lemma SameStepSameToken(g: Generator, secret: string, t1: nat, t2: nat)
    requires Counter(t1) == Counter(t2)
    ensures Generate(g, secret, t1).token == Generate(g, secret, t2).token
  {
  }
}
