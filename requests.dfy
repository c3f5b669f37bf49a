/**
 * Request parameters as the handlers see them, and index.js `getParam`,
 * which picks one parameter out of the query (GET) or the body (otherwise).
 */
module Requests {
  import opened Wrappers
  import JsStrings

  /** A parameter value: absent (`undefined`), one string, or a repeated parameter (an array). */
  datatype Value = Missing | Str(s: string) | Strs(items: seq<string>)

  /** JavaScript truthiness of a parameter value: arrays are truthy even when empty. */
  predicate Truthy(v: Value) {
    match v
    case Missing => false
    case Str(s) => s != ""
    case Strs(_) => true
  }

  /** `src[name]`. */
  function Lookup(src: map<string, Value>, name: string): (v: Value)
    ensures name !in src ==> v == Missing
    ensures name in src ==> v == src[name]
  {
    if name in src then src[name] else Missing
  }

  /** A request: its method decides where `getParam` looks. */
  datatype Request = Request(isGet: bool, query: map<string, Value>, body: map<string, Value>)

  /** What an option's validator does with a value: returns `false`, returns anything else, or throws. */
  datatype Verdict = Refuse | Accept | Throw(message: string)

  /** The options object of `getParam`; an option left out is `false`/`None`. */
  datatype Options = Options(
    multi: bool,
    required: bool,
    default: Option<string>,
    lower: bool,
    upper: bool,
    validator: Option<Value -> Verdict>,
    allowedValues: Option<seq<string>>)

  /** Options with nothing set. */
  const NoOptions: Options := Options(false, false, None, false, false, None, None)

  function NotSpecified(name: string): string {
    "Parameter '" + name + "' not specified"
  }

  function NotSupported(name: string): string {
    "Value for '" + name + "' not supported."
  }

  /** The single-value path after the array and default handling: case mapping, then the two checks. */
  function CheckSingle(name: string, v: Value, opts: Options): (r: Result<Value, string>)
    requires !v.Strs?
    ensures r.Ok? ==> !r.value.Strs? && (r.value.Missing? <==> v.Missing?)
    ensures r.Ok? && opts.allowedValues.Some? ==> r.value.Str? && r.value.s in opts.allowedValues.value
    ensures r.Ok? && opts.lower && v.Str? ==> r.value == Str(JsStrings.Lower(v.s))
    ensures r.Ok? && !opts.lower && opts.upper && v.Str? ==> r.value == Str(JsStrings.Upper(v.s))
    ensures r.Ok? && !opts.lower && !opts.upper ==> r.value == v
    ensures opts.validator.None? && opts.allowedValues.None? ==> r.Ok?
    ensures r.Ok? && opts.validator.Some? ==> opts.validator.value(r.value) == Accept
  {
    var mapped :=
      if opts.lower && Truthy(v) then Str(JsStrings.Lower(v.s))
      else if opts.upper && Truthy(v) then Str(JsStrings.Upper(v.s))
      else v;
    var verdict := if opts.validator.Some? then opts.validator.value(mapped) else Accept;
    if verdict.Refuse? then Err(NotSupported(name))
    else if verdict.Throw? then Err(verdict.message)
    else if opts.allowedValues.Some? && !(mapped.Str? && mapped.s in opts.allowedValues.value) then Err(NotSupported(name))
    else Ok(mapped)
  }

  /**
   * `getParam(req, name, options)`. With `multi` the result is always a
   * list: a missing value gives `[]` and a single value a one-element list;
   * `required` refuses an empty list. Otherwise a list gives its first
   * element, a missing value is an error when `required` and the default
   * otherwise, and the case mapping and checks follow.
   */
  function GetParam(req: Request, name: string, opts: Options): (r: Result<Value, string>)
    ensures var v := Lookup(if req.isGet then req.query else req.body, name);
      && (opts.multi ==>
        && (r.Ok? ==> r.value.Strs?)
        && (v.Missing? ==> (if opts.required then r == Err(NotSpecified(name)) else r == Ok(Strs([]))))
        && (v.Str? ==> r == Ok(Strs([v.s])))
        && (v.Strs? ==> (if opts.required && v.items == [] then r == Err(NotSpecified(name)) else r == Ok(v)))
      )
      && (!opts.multi ==>
        && (r.Ok? ==> !r.value.Strs?)
        && (v.Strs? && v.items != [] ==> r == CheckSingle(name, Str(v.items[0]), opts))
        && (v.Str? ==> r == CheckSingle(name, v, opts))
        && ((v.Missing? || v == Strs([])) ==>
             if opts.required then r == Err(NotSpecified(name))
             else r == CheckSingle(name, if opts.default.Some? then Str(opts.default.value) else Missing, opts))
      )
  {
    var v := Lookup(if req.isGet then req.query else req.body, name);
    if opts.multi then
      var list := match v
        case Missing => []
        case Str(s) => [s]
        case Strs(items) => items;
      if opts.required && |list| == 0 then Err(NotSpecified(name)) else Ok(Strs(list))
    else
      var first := match v
        case Strs(items) => if |items| > 0 then Str(items[0]) else Missing
        case _ => v;
      if opts.required && first.Missing? then Err(NotSpecified(name))
      else
        var withDefault := if first.Missing? && opts.default.Some? then Str(opts.default.value) else first;
        CheckSingle(name, withDefault, opts)
  }
}
