/** The request body of the contact endpoint, as the handler sees it after
    `request.json()` and the destructuring of its four properties. */
module Payload {

  datatype Option<+T> = None | Some(value: T)

  /** The four properties read from the parsed body. `None` is a property the
      JSON value does not have (`undefined`), and equally one holding `null`,
      `false` or `0`: every such falsy value is answered by the required-field
      guard before anything else reads the field. */
  datatype Fields = Fields(
    name: Option<string>,
    email: Option<string>,
    subject: Option<string>,
    message: Option<string>)

  /** What `request.json()` yields. A body that is not JSON makes it throw;
      `null` parses, but destructuring it throws; any other JSON value
      destructures without throwing (a number, string or array simply has
      none of the four properties). */
  datatype Body =
    | Unparseable
    | JsonNull
    | JsonValue(fields: Fields)

  /** The JavaScript truthiness of a field holding a string, or a falsy
      non-string value (`None`): present and not the empty string. Nothing is
      trimmed, so a single blank is truthy. */
  predicate Truthy(v: Option<string>): (b: bool)
    ensures b <==> v != None && v != Some("")
    ensures v == Some(" ") ==> b
  {
    v.Some? && v.value != ""
  }

  /** The four fields in the order the handler tests them. */
  function FieldAt(f: Fields, k: nat): (v: Option<string>)
    requires k < 4
  {
    match k
    case 0 => f.name
    case 1 => f.email
    case 2 => f.subject
    case 3 => f.message
  }

  /** The negation of the guard `!name || !email || !subject || !message`. */
  predicate AllPresent(f: Fields): (r: bool)
    ensures r <==> None !in [f.name, f.email, f.subject, f.message]
                   && Some("") !in [f.name, f.email, f.subject, f.message]
    ensures r ==> f.email.Some? && |f.email.value| > 0
  {
    Truthy(f.name) && Truthy(f.email) && Truthy(f.subject) && Truthy(f.message)
  }

  /** Every field counts, and no other: the guard fails exactly when one of
      the four fields, whichever it is, is missing or empty. */
  lemma AllPresentIffEveryField(f: Fields)
    ensures AllPresent(f) <==> forall k :: 0 <= k < 4 ==> Truthy(FieldAt(f, k))
  {
    if !AllPresent(f) {
      if !Truthy(f.name) {
        assert !Truthy(FieldAt(f, 0));
      } else if !Truthy(f.email) {
        assert !Truthy(FieldAt(f, 1));
      } else if !Truthy(f.subject) {
        assert !Truthy(FieldAt(f, 2));
      } else {
        assert !Truthy(FieldAt(f, 3));
      }
    }
  }
}
