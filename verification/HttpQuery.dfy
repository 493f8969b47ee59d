/** Query parameters of HTTP requests (`url.Values`) and the pattern every
    handler uses to read an optional filter from them. */
module HttpQuery {
  import opened Common

  /** Query parameters as `url.Values.Get` sees them: the first value of each
      key. */
  type Query = map<string, string>

  /** `url.Values.Get`: the empty text for an absent key. */
  function Get(q: Query, key: string): string {
    if key in q then q[key] else ""
  }

  /** One optional filter: absent or empty text leaves it unset, text that
      does not parse is bad input. */
  function OptionalFilter<T>(text: string, parse: string -> Option<T>): (r: Result<Option<T>>)
    ensures text == "" ==> r == Ok(None)
    ensures text != "" ==> (r.Ok? <==> parse(text).Some?)
    ensures r.Err? ==> r.code == BadInput
    ensures text != "" && r.Ok? ==> r.value == parse(text)
  {
    if text == "" then Ok(None)
    else match parse(text)
      case None => Err(BadInput)
      case Some(v) => Ok(Some(v))
  }

  /** An optional flag that defaults to false. */
  function FlagFilter(text: string): (r: Result<bool>)
    ensures text == "" ==> r == Ok(false)
    ensures text != "" ==> (r.Ok? <==> ParseBool(text).Some?)
    ensures r.Err? ==> r.code == BadInput
    ensures text != "" && r.Ok? ==> Some(r.value) == ParseBool(text)
  {
    var b :- OptionalFilter(text, ParseBool);
    Ok(b == Some(true))
  }
}
