/** How a serializer's integer and character fields read one entry of a
    JSON payload. */
module Fields {
  import opened Wrappers
  import opened Text

  /** One payload entry as an integer field sees it: missing, JSON null, an
      integer (or a string or float the field reads as one), or something the
      field cannot read as an integer. */
  datatype Field = Absent | Null | Num(n: int) | NotInteger

  /** Python truthiness of `data.get(...)` for an integer entry. */
  predicate Truthy(x: Option<int>) { x.Some? && x.value != 0 }

  /** `x` is the id of a row of table `m`. */
  predicate RowIn<T>(x: int, m: map<nat, T>) { x >= 0 && x as nat in m }

  /** A `required=False` integer field that does not allow null: a missing
      entry is left out of the validated data, an integer is kept, anything
      else is a validation error. */
  function OptionalInt(f: Field): (r: Result<Option<int>>)
    ensures r.Ok? <==> f.Absent? || f.Num?
    ensures r.Err? ==> r.error == ValidationError
    ensures r.Ok? ==> (r.value.Some? <==> f.Num?) && (f.Num? ==> r.value.value == f.n)
  {
    match f
    case Absent => Ok(None)
    case Num(n) => Ok(Some(n))
    case _ => Err(ValidationError)
  }

  /** A required integer field, with an optional lower bound (`min_value`):
      only an integer at or above the bound passes. */
  function RequiredInt(f: Field, min: Option<int>): (r: Result<int>)
    ensures r.Ok? <==> f.Num? && (min.Some? ==> f.n >= min.value)
    ensures r.Ok? ==> r.value == f.n
    ensures r.Err? ==> r.error == ValidationError
  {
    if f.Num? && (min.None? || f.n >= min.value) then Ok(f.n) else Err(ValidationError)
  }

  /** One payload entry as a character field sees it: missing, JSON null, a
      string (numbers arrive as their text), or something else. */
  datatype TextInput = TextAbsent | TextNull | TextValue(s: string) | TextInvalid

  /** A required `CharField` with the default options: surrounding whitespace
      is trimmed, a value that is blank after trimming is refused, and so is
      one holding a NUL character (the field's built-in validator). */
  function RequiredText(t: TextInput): (r: Result<string>)
    ensures r.Ok? <==> t.TextValue? && Strip(t.s) != [] && '\0' !in Strip(t.s)
    ensures r.Ok? ==> r.value == Strip(t.s) && Strip(r.value) == r.value && '\0' !in r.value
    ensures r.Err? ==> r.error == ValidationError
  {
    if t.TextValue? && Strip(t.s) != [] && '\0' !in Strip(t.s) then
      StripFixed(Strip(t.s));
      Ok(Strip(t.s))
    else Err(ValidationError)
  }
}
