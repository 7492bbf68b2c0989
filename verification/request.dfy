/** How the route handlers read a JSON request body. A field is `None` when the key
    is missing or null. The handlers test fields with JavaScript truthiness, so an
    empty string or the number 0 counts as not given either. */
module Request {
  import opened Wrappers

  /** `if (field)` for a text field. */
  predicate Given(field: Option<string>) {
    field.Some? && field.value != ""
  }

  /** `if (field)` for an id field: 0 is falsy. */
  predicate GivenId(field: Option<int>) {
    field.Some? && field.value != 0
  }

  /** `if (field) updateData.key = field`: the key is set only for a truthy value. */
  function IfGiven(field: Option<string>): (r: Option<string>)
    ensures r.Some? <==> Given(field)
    ensures r.Some? ==> r == field
  {
    if Given(field) then field else None
  }

  /** The same for an id field. */
  function IfGivenId(field: Option<int>): (r: Option<int>)
    ensures r.Some? <==> GivenId(field)
    ensures r.Some? ==> r == field
  {
    if GivenId(field) then field else None
  }
}
