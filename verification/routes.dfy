/** The two form endpoints, app/api/contact/route.ts and
    app/api/subscribe/route.ts, as pure decisions from the parsed request
    body (`None` when `request.json()` throws) and the clock reading `now`
    (`Date.now()`, in milliseconds) to the JSON response. Logging is not
    modelled: it has no effect on the response. */
module Routes {
  import opened Wrappers
  import opened Json
  import opened Schemas

  /** The JSON payload: `{ error }`, or `{ success: true, message }`. */
  datatype Payload = Failure(error: string) | Success(message: string)

  datatype Response = Response(status: int, payload: Payload)

  const ContactFailed: string := "Failed to submit form"
  const SubscribeFailed: string := "Failed to subscribe"
  const BotDetected: string := "Bot detected"
  const TooQuickly: string := "Form submitted too quickly"
  const ContactAccepted: string := "Form submitted successfully"
  const SubscribeAccepted: string := "Subscribed successfully"

  /** The minimum time, in milliseconds, between rendering and submitting the form. */
  const MinFillTime: real := 3000.0

  /** `honeypot && honeypot.length > 0`. */
  predicate HoneypotFilled(honeypot: string) {
    honeypot != "" && Utf16Length(honeypot) > 0
  }

  /** The time trap: a truthy (non-zero) timestamp less than the minimum
      fill time before `now`. */
  predicate TooFast(timestamp: Option<real>, now: int) {
    timestamp.Some? && timestamp.value != 0.0 && (now as real) - timestamp.value < MinFillTime
  }

  /** `POST /api/contact`. */
  function ContactPost(body: Option<Json>, now: int, isEmail: string -> bool): (resp: Response)
    ensures resp.status == 500 <==> body.None? || ParseContact(body.value, isEmail).None?
    ensures resp.status == 500 ==> resp.payload == Failure(ContactFailed)
    ensures resp.status == 400 <==>
      body.Some? && ParseContact(body.value, isEmail).Some?
      && TooFast(ParseContact(body.value, isEmail).value.timestamp, now)
    ensures resp.status == 400 ==> resp.payload == Failure(TooQuickly)
    ensures resp.status == 200 <==>
      body.Some? && ParseContact(body.value, isEmail).Some?
      && !TooFast(ParseContact(body.value, isEmail).value.timestamp, now)
    ensures resp.status == 200 ==> resp.payload == Success(ContactAccepted)
  {
    match body
    case None => Response(500, Failure(ContactFailed))
    case Some(b) =>
      match ParseContact(b, isEmail)
      case None => Response(500, Failure(ContactFailed))
      case Some(form) =>
        if HoneypotFilled(form.honeypot) then Response(400, Failure(BotDetected))
        else if TooFast(form.timestamp, now) then Response(400, Failure(TooQuickly))
        else Response(200, Success(ContactAccepted))
  }

  /** The "Bot detected" branch is dead: a body that passed the schema has an empty honeypot. */
  lemma ContactNeverSaysBot(body: Option<Json>, now: int, isEmail: string -> bool)
    ensures ContactPost(body, now, isEmail).payload != Failure(BotDetected)
  {
  }

  /** A filled honeypot is answered 500, never 400. */
  lemma ContactFilledHoneypotIs500(b: Json, now: int, isEmail: string -> bool)
    requires Field(b, "honeypot").Some? && Field(b, "honeypot").value.Str?
    requires Field(b, "honeypot").value.s != ""
    ensures ContactPost(Some(b), now, isEmail) == Response(500, Failure(ContactFailed))
  {
    ContactHoneypotMustBeEmpty(b, isEmail);
  }

  /** Time-trap boundaries for a valid body carrying `f`. */
  lemma ContactTimeTrap(b: Json, f: ContactForm, now: int, isEmail: string -> bool)
    requires CarriesContact(b, f) && ValidContact(f, isEmail)
    ensures f.timestamp.None? ==> ContactPost(Some(b), now, isEmail).status == 200
    ensures f.timestamp == Some(0.0) ==> ContactPost(Some(b), now, isEmail).status == 200
    ensures f.timestamp == Some(now as real - 3000.0) ==> ContactPost(Some(b), now, isEmail).status == 200
    ensures f.timestamp.Some? && f.timestamp.value != 0.0 && f.timestamp.value > now as real ==>
      ContactPost(Some(b), now, isEmail) == Response(400, Failure(TooQuickly))
  {
    ContactParseExact(b, f, isEmail);
  }

  /** A timestamp 1200 ms old is too fast; one 4000 ms old passes. */
  lemma ContactSubmittedAfter(b: Json, f: ContactForm, rendered: int, isEmail: string -> bool)
    requires CarriesContact(b, f) && ValidContact(f, isEmail)
    requires rendered != 0 && f.timestamp == Some(rendered as real)
    ensures ContactPost(Some(b), rendered + 1200, isEmail) == Response(400, Failure(TooQuickly))
    ensures ContactPost(Some(b), rendered + 4000, isEmail) == Response(200, Success(ContactAccepted))
  {
    ContactParseExact(b, f, isEmail);
  }

  /** `POST /api/subscribe`. */
  function SubscribePost(body: Option<Json>, isEmail: string -> bool): (resp: Response)
    ensures resp.status == 200 || resp.status == 500
    ensures resp.status == 200 <==> body.Some? && ParseNewsletter(body.value, isEmail).Some?
    ensures resp.status == 500 ==> resp.payload == Failure(SubscribeFailed)
    ensures resp.status == 200 ==> resp.payload == Success(SubscribeAccepted)
  {
    match body
    case None => Response(500, Failure(SubscribeFailed))
    case Some(b) =>
      match ParseNewsletter(b, isEmail)
      case None => Response(500, Failure(SubscribeFailed))
      case Some(form) =>
        if HoneypotFilled(form.honeypot) then Response(400, Failure(BotDetected))
        else Response(200, Success(SubscribeAccepted))
  }

  /** No time trap: every object with a valid email and an empty honeypot
      is subscribed, whatever else it holds. */
  lemma SubscribeAcceptsExactly(b: Json, isEmail: string -> bool)
    ensures SubscribePost(Some(b), isEmail).status == 200 <==>
      && b.Obj?
      && Field(b, "email").Some? && Field(b, "email").value.Str?
      && isEmail(Field(b, "email").value.s)
      && Field(b, "honeypot") == Some(Str(""))
  {
    NewsletterParseExact(b, isEmail);
  }
}
