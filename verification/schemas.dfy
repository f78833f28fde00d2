/** The form schemas of lib/schemas.ts, written as data over a small model
    of the zod combinators they use, with the typed record each one yields.
    `z.object` reads only the keys it lists and strips every other key.
    Email syntax (`z.string().email()`) is left to the `isEmail` predicate. */
module Schemas {
  import opened Wrappers
  import opened Json

  /** One field rule: `z.string().min(min).max(max)`, `z.string().email()`,
      `z.number().min(min)`, `z.enum(options)`, or `rule.optional()`. */
  datatype Rule =
    | Text(min: nat, max: Option<nat>)
    | Email
    | Number(atLeast: Option<real>)
    | Enum(options: seq<string>)
    | Optional(inner: Rule)

  /** A `z.object({...})` shape: field names and their rules. */
  type Schema = seq<(string, Rule)>

  /** Whether `rule` accepts the field value `v` (`None` is `undefined`). */
  predicate Accepts(rule: Rule, v: Option<Json>, isEmail: string -> bool) {
    match rule
    case Optional(inner) => v.None? || Accepts(inner, v, isEmail)
    case Text(min, max) =>
      v.Some? && v.value.Str? && Utf16Length(v.value.s) >= min
      && (max.None? || Utf16Length(v.value.s) <= max.value)
    case Email => v.Some? && v.value.Str? && isEmail(v.value.s)
    case Number(atLeast) =>
      v.Some? && v.value.Num? && (atLeast.None? || v.value.n >= atLeast.value)
    case Enum(options) => v.Some? && v.value.Str? && v.value.s in options
  }

  /** `schema.parse(body)` does not throw. */
  predicate ObjectAccepts(schema: Schema, body: Json, isEmail: string -> bool) {
    body.Obj? && forall i :: 0 <= i < |schema| ==> Accepts(schema[i].1, Field(body, schema[i].0), isEmail)
  }

  /** The string in a field the schema has already checked. */
  function TextOf(v: Option<Json>): string {
    if v.Some? && v.value.Str? then v.value.s else ""
  }

  /** The number in an optional field the schema has already checked. */
  function NumberOf(v: Option<Json>): Option<real> {
    if v.Some? && v.value.Num? then Some(v.value.n) else None
  }

  // ---------------------------------------------------------------- contact

  const ContactSchema: Schema := [
    ("name", Text(2, None)),
    ("email", Email),
    ("businessName", Text(2, None)),
    ("message", Text(10, None)),
    ("honeypot", Text(0, Some(0))),
    ("timestamp", Optional(Number(None)))
  ]

  datatype ContactForm = ContactForm(
    name: string,
    email: string,
    businessName: string,
    message: string,
    honeypot: string,
    timestamp: Option<real>)

  /** The constraints of the contact schema, stated on the record. */
  predicate ValidContact(f: ContactForm, isEmail: string -> bool) {
    && Utf16Length(f.name) >= 2
    && isEmail(f.email)
    && Utf16Length(f.businessName) >= 2
    && Utf16Length(f.message) >= 10
    && f.honeypot == ""
  }

  /** `body` holds exactly the schema fields of `f` (other keys are free). */
  predicate CarriesContact(body: Json, f: ContactForm) {
    && body.Obj?
    && Field(body, "name") == Some(Str(f.name))
    && Field(body, "email") == Some(Str(f.email))
    && Field(body, "businessName") == Some(Str(f.businessName))
    && Field(body, "message") == Some(Str(f.message))
    && Field(body, "honeypot") == Some(Str(f.honeypot))
    && (if f.timestamp.None? then Field(body, "timestamp").None?
        else Field(body, "timestamp") == Some(Num(f.timestamp.value)))
  }

  /** `contactFormSchema.parse(body)`; `None` is the thrown `ZodError`. */
  function ParseContact(body: Json, isEmail: string -> bool): (r: Option<ContactForm>)
    ensures r.Some? ==> ValidContact(r.value, isEmail) && CarriesContact(body, r.value)
  {
    if ObjectAccepts(ContactSchema, body, isEmail) then
      assert Accepts(ContactSchema[0].1, Field(body, "name"), isEmail);
      assert Accepts(ContactSchema[1].1, Field(body, "email"), isEmail);
      assert Accepts(ContactSchema[2].1, Field(body, "businessName"), isEmail);
      assert Accepts(ContactSchema[3].1, Field(body, "message"), isEmail);
      assert Accepts(ContactSchema[4].1, Field(body, "honeypot"), isEmail);
      assert ContactSchema[5] == ("timestamp", Optional(Number(None)));
      assert Accepts(ContactSchema[5].1, Field(body, ContactSchema[5].0), isEmail);
      assert Field(body, "timestamp").Some? ==> Accepts(Number(None), Field(body, "timestamp"), isEmail);
      Some(ContactForm(
        TextOf(Field(body, "name")),
        TextOf(Field(body, "email")),
        TextOf(Field(body, "businessName")),
        TextOf(Field(body, "message")),
        TextOf(Field(body, "honeypot")),
        NumberOf(Field(body, "timestamp"))))
    else None
  }

  /** The contact schema accepts a body exactly when it carries a record
      meeting the plain constraints, and then yields that record. */
  lemma ContactParseExact(body: Json, f: ContactForm, isEmail: string -> bool)
    ensures ParseContact(body, isEmail) == Some(f) <==> CarriesContact(body, f) && ValidContact(f, isEmail)
  {
    if CarriesContact(body, f) && ValidContact(f, isEmail) {
      assert Utf16Length(f.honeypot) == 0;
      forall i | 0 <= i < |ContactSchema|
        ensures Accepts(ContactSchema[i].1, Field(body, ContactSchema[i].0), isEmail)
      {
      }
    }
  }

  /** A missing honeypot, a non-string one, and a non-empty one are all rejected. */
  lemma ContactHoneypotMustBeEmpty(body: Json, isEmail: string -> bool)
    requires Field(body, "honeypot") != Some(Str(""))
    ensures ParseContact(body, isEmail).None?
  {
  }

  /** `timestamp` may be left out, but when present it must be a number. */
  lemma ContactTimestampIsOptionalNumber(body: Json, f: ContactForm, isEmail: string -> bool)
    requires ParseContact(body, isEmail) == Some(f)
    ensures forall v :: ParseContact(Obj(body.fields["timestamp" := v]), isEmail).Some? <==> v.Num?
    ensures ParseContact(Obj(body.fields - {"timestamp"}), isEmail)
         == Some(f.(timestamp := None))
  {
    var g := f.(timestamp := None);
    assert CarriesContact(Obj(body.fields - {"timestamp"}), g);
    ContactParseExact(Obj(body.fields - {"timestamp"}), g, isEmail);
    forall v ensures ParseContact(Obj(body.fields["timestamp" := v]), isEmail).Some? <==> v.Num? {
      var b := Obj(body.fields["timestamp" := v]);
      if v.Num? {
        var h := f.(timestamp := Some(v.n));
        assert CarriesContact(b, h);
        ContactParseExact(b, h, isEmail);
      }
    }
  }

  /** A name of a single emoji passes `min(2)`: zod counts UTF-16 code units. */
  lemma EmojiNameIsLongEnough()
    ensures Accepts(Text(2, None), Some(Str("\U{1F600}")), (e: string) => true)
  {
    AstralCharCountsTwice();
  }

  // ---------------------------------------------------------------- newsletter

  const NewsletterSchema: Schema := [
    ("email", Email),
    ("honeypot", Text(0, Some(0)))
  ]

  datatype NewsletterForm = NewsletterForm(email: string, honeypot: string)

  /** `newsletterFormSchema.parse(body)`. */
  function ParseNewsletter(body: Json, isEmail: string -> bool): (r: Option<NewsletterForm>)
    ensures r.Some? ==> isEmail(r.value.email) && r.value.honeypot == ""
    ensures r.Some? ==> Field(body, "email") == Some(Str(r.value.email))
    ensures r.Some? ==> Field(body, "honeypot") == Some(Str(""))
  {
    if ObjectAccepts(NewsletterSchema, body, isEmail) then
      assert Accepts(NewsletterSchema[0].1, Field(body, "email"), isEmail);
      assert Accepts(NewsletterSchema[1].1, Field(body, "honeypot"), isEmail);
      Some(NewsletterForm(TextOf(Field(body, "email")), TextOf(Field(body, "honeypot"))))
    else None
  }

  /** The newsletter schema accepts exactly the objects with a valid email
      string and an empty honeypot string; nothing else is looked at. */
  lemma NewsletterParseExact(body: Json, isEmail: string -> bool)
    ensures ParseNewsletter(body, isEmail).Some? <==>
      && body.Obj?
      && Field(body, "email").Some? && Field(body, "email").value.Str?
      && isEmail(Field(body, "email").value.s)
      && Field(body, "honeypot") == Some(Str(""))
  {
    if && body.Obj?
       && Field(body, "email").Some? && Field(body, "email").value.Str?
       && isEmail(Field(body, "email").value.s)
       && Field(body, "honeypot") == Some(Str("")) {
      forall i | 0 <= i < |NewsletterSchema|
        ensures Accepts(NewsletterSchema[i].1, Field(body, NewsletterSchema[i].0), isEmail)
      {
      }
    }
  }

  /** A missing, non-string or non-empty honeypot is rejected. */
  lemma NewsletterHoneypotMustBeEmpty(body: Json, isEmail: string -> bool)
    requires Field(body, "honeypot") != Some(Str(""))
    ensures ParseNewsletter(body, isEmail).None?
  {
  }

  /** The newsletter schema has no timestamp: whatever sits under that key is ignored. */
  lemma NewsletterIgnoresTimestamp(fields: map<string, Json>, v: Json, isEmail: string -> bool)
    ensures ParseNewsletter(Obj(fields["timestamp" := v]), isEmail) == ParseNewsletter(Obj(fields), isEmail)
  {
    NewsletterParseExact(Obj(fields["timestamp" := v]), isEmail);
    NewsletterParseExact(Obj(fields), isEmail);
  }

  // ---------------------------------------------------------------- S-Corp calculator

  const Structures: seq<string> := ["sole-prop", "llc", "partnership", "c-corp"]
  const States: seq<string> := ["WA", "OR"]

  const SCorpSchema: Schema := [
    ("revenue", Number(Some(0.0))),
    ("currentStructure", Enum(Structures)),
    ("state", Enum(States)),
    ("ownerSalary", Optional(Number(Some(0.0))))
  ]

  datatype SCorpInput = SCorpInput(
    revenue: real,
    currentStructure: string,
    state: string,
    ownerSalary: Option<real>)

  /** The constraints of the S-Corp schema, stated on the record. */
  predicate ValidSCorp(x: SCorpInput) {
    && x.revenue >= 0.0
    && x.currentStructure in {"sole-prop", "llc", "partnership", "c-corp"}
    && x.state in {"WA", "OR"}
    && (x.ownerSalary.None? || x.ownerSalary.value >= 0.0)
  }

  /** `body` holds exactly the schema fields of `x`. */
  predicate CarriesSCorp(body: Json, x: SCorpInput) {
    && body.Obj?
    && Field(body, "revenue") == Some(Num(x.revenue))
    && Field(body, "currentStructure") == Some(Str(x.currentStructure))
    && Field(body, "state") == Some(Str(x.state))
    && (if x.ownerSalary.None? then Field(body, "ownerSalary").None?
        else Field(body, "ownerSalary") == Some(Num(x.ownerSalary.value)))
  }

  /** `sCorpCalculatorSchema.parse(body)`. */
  function ParseSCorp(body: Json): (r: Option<SCorpInput>)
    ensures r.Some? ==> ValidSCorp(r.value) && CarriesSCorp(body, r.value)
  {
    var noEmail := (e: string) => false;
    if ObjectAccepts(SCorpSchema, body, noEmail) then
      assert Accepts(SCorpSchema[0].1, Field(body, "revenue"), noEmail);
      assert Accepts(SCorpSchema[1].1, Field(body, "currentStructure"), noEmail);
      assert Accepts(SCorpSchema[2].1, Field(body, "state"), noEmail);
      assert SCorpSchema[3] == ("ownerSalary", Optional(Number(Some(0.0))));
      assert Accepts(SCorpSchema[3].1, Field(body, SCorpSchema[3].0), noEmail);
      assert Field(body, "ownerSalary").Some? ==> Accepts(Number(Some(0.0)), Field(body, "ownerSalary"), noEmail);
      var v := Field(body, "revenue").value;
      Some(SCorpInput(
        if v.Num? then v.n else 0.0,
        TextOf(Field(body, "currentStructure")),
        TextOf(Field(body, "state")),
        NumberOf(Field(body, "ownerSalary"))))
    else None
  }

  /** The S-Corp schema accepts a body exactly when it carries a record
      meeting the plain constraints, and then yields that record. */
  lemma SCorpParseExact(body: Json, x: SCorpInput)
    ensures ParseSCorp(body) == Some(x) <==> CarriesSCorp(body, x) && ValidSCorp(x)
  {
    if CarriesSCorp(body, x) && ValidSCorp(x) {
      forall i | 0 <= i < |SCorpSchema|
        ensures Accepts(SCorpSchema[i].1, Field(body, SCorpSchema[i].0), (e: string) => false)
      {
      }
    }
  }
}
