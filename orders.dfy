/** The order record of the shawarma API, its status labels, the outcome of an
    operation, and the customer-name validator of the order-creation body. */
module Orders {
  import opened PyStrings

  /** The label every order is created with ("in progress"), and the one the
      update operation requires. */
  const IN_PROGRESS: string := "Ընթացքում ա"

  /** The label the cancel operation refuses ("ready"). No operation ever
      writes it into an order. */
  const READY: string := "պատրաստ"

  /** The status of the response wrapper returned by order creation. It is a
      field of the response, not of the order. */
  const CREATE_RESPONSE_STATUS: string := "Պատրաստ ա"

  /** A naive server-local timestamp, as Python's `datetime` holds it. */
  datatype DateTime = DateTime(year: int, month: int, day: int,
                               hour: int, minute: int, second: int, microsecond: int)

  datatype Order = Order(
    id: int,
    customerName: string,
    items: seq<string>,
    status: string,
    createdAt: DateTime)

  /** The failures that the HTTP layer turns into 404 and 422 responses. */
  datatype Error = NotFound | InvalidState | ValidationError

  datatype Result<T> = Ok(value: T) | Err(error: Error)

  /** The customer-name validator: the stripped name, or a validation error
      when fewer than two characters remain after stripping. */
  function ValidateName(v: string): (r: Result<string>)
    ensures r.Err? ==> r.error == ValidationError
    ensures r.Ok? ==> |r.value| >= 2 && Trimmed(r.value)
    ensures AllSpace(v) ==> r.Err?
  {
    var stripped := Strip(v);
    if |stripped| < 2 then Err(ValidationError) else Ok(stripped)
  }

  /** The validator in terms of the name's shape: a name that is some trimmed
      `core` padded with whitespace is accepted exactly when `core` has at
      least two characters, and then `core` is what it returns. */
  lemma ValidateNamePadded(pre: string, core: string, post: string)
    requires AllSpace(pre) && AllSpace(post) && Trimmed(core)
    ensures ValidateName(pre + core + post).Ok? <==> |core| >= 2
    ensures ValidateName(pre + core + post).Ok? ==> ValidateName(pre + core + post).value == core
  {
    StripPadded(pre, core, post);
  }

  /** Validation is stable: a name it returns is accepted again unchanged. */
  lemma ValidateNameIdempotent(v: string)
    requires ValidateName(v).Ok?
    ensures ValidateName(ValidateName(v).value) == ValidateName(v)
  {
    StripIdempotent(v);
  }

  /** The name " An " is accepted as "An". */
  lemma ValidateNameExample()
    ensures ValidateName(" An ") == Ok("An")
  {
    assert IsSpace(' ') && !IsSpace('A') && !IsSpace('n');
    assert " An " == " " + "An" + " ";
    ValidateNamePadded(" ", "An", " ");
  }

  /** The name " A\t" leaves one character after stripping and is refused. */
  lemma ValidateNameShortExample()
    ensures ValidateName(" A\t") == Err(ValidationError)
  {
    assert IsSpace(' ') && IsSpace('\t') && !IsSpace('A');
    assert " A\t" == " " + "A" + "\t";
    ValidateNamePadded(" ", "A", "\t");
  }

  /** The three labels are pairwise different strings. */
  lemma StatusLabelsDistinct()
    ensures IN_PROGRESS != READY
    ensures IN_PROGRESS != CREATE_RESPONSE_STATUS
    ensures READY != CREATE_RESPONSE_STATUS
  {
    assert IN_PROGRESS[0] != READY[0];
    assert IN_PROGRESS[0] != CREATE_RESPONSE_STATUS[0];
    assert READY[0] != CREATE_RESPONSE_STATUS[0];
  }
}
