/** The Overpass service client: how a query is wrapped before it is
    posted, how the HTTP outcome becomes a result, and how the body is
    decoded. The HTTP client, the JSON byte parser, Swift's text form of a
    `Double` and the date formatter are parameters. */
module OverpassService {
  import opened Wrappers
  import opened Json
  import opened OverpassResponse

  type Bytes = seq<bv8>

  // ---------------------------------------------------------------------
  // The request

  const Header: string := "[out:json];"
  const Footer: string := "out;"

  predicate EndsWithSemicolon(q: string)
  {
    |q| > 0 && q[|q| - 1] == ';'
  }

  /** `format(query:)`: ask for JSON output and print the result, adding
      the statement terminator when the query lacks one. */
  function Format(query: string): (r: string)
    ensures |Header| < |r| && r[..|Header|] == Header
    ensures r[|r| - |Footer|..] == Footer && r[|r| - |Footer| - 1] == ';'
  {
    if EndsWithSemicolon(query) then Header + query + Footer
    else Header + query + ";" + Footer
  }

  /** The wrapped text is the query itself, terminated exactly once. */
  lemma FormatKeepsQuery(query: string)
    ensures var r := Format(query);
      var middle := r[|Header|..|r| - |Footer|];
      EndsWithSemicolon(middle)
      && (middle == query || middle == query + ";")
      && (middle == query <==> EndsWithSemicolon(query))
  {
    var r := Format(query);
    if EndsWithSemicolon(query) {
      assert r == Header + query + Footer;
      assert r[|Header|..|r| - |Footer|] == query;
    } else {
      assert r == Header + (query + ";") + Footer;
      assert r[|Header|..|r| - |Footer|] == query + ";";
    }
  }

  /** Writing the terminator or leaving it out asks the same thing. */
  lemma FormatTerminatorOptional(query: string)
    requires !EndsWithSemicolon(query)
    ensures Format(query + ";") == Format(query)
  {
    assert EndsWithSemicolon(query + ";");
    assert Header + (query + ";") + Footer == Header + query + ";" + Footer;
  }

  /** Two queries that are each terminated are posted as different text. */
  lemma FormatInjective(q1: string, q2: string)
    requires EndsWithSemicolon(q1) && EndsWithSemicolon(q2)
    requires Format(q1) == Format(q2)
    ensures q1 == q2
  {
    FormatKeepsQuery(q1);
    FormatKeepsQuery(q2);
  }

  // ---------------------------------------------------------------------
  // Errors

  /** `OverpassServiceError`; `C` is the HTTP client's own error type. */
  datatype ServiceError<C> =
    | Syntax(query: string)
    | MultipleRequests
    | Load
    | Unknown
    | Client(error: C)

  /** `OverpassServiceError ==`: same case and equal payload. */
  predicate ErrorEq<C(==)>(l: ServiceError<C>, r: ServiceError<C>): (b: bool)
    ensures b <==> l == r
  {
    match (l, r)
    case (Syntax(a), Syntax(b)) => a == b
    case (MultipleRequests, MultipleRequests) => true
    case (Load, Load) => true
    case (Unknown, Unknown) => true
    case (Client(a), Client(b)) => a == b
    case _ => false
  }

  // ---------------------------------------------------------------------
  // The HTTP outcome

  const StatusOk: int := 200
  const StatusBadRequest: int := 400
  const StatusTooManyRequests: int := 429
  const StatusGatewayTimeout: int := 504

  /** What the HTTP client reports: a response, whose status is absent when
      the code is not one the client knows, or its own error. */
  datatype HttpResponse = HttpResponse(status: Option<int>, body: Bytes)
  datatype Transport<C> = Responded(response: HttpResponse) | Failed(error: C)

  /** The status switch of `data(query:)`. */
  function Classify<C>(query: string, t: Transport<C>): (r: Result<Bytes, ServiceError<C>>)
    ensures r.Ok? <==> t.Responded? && t.response.status == Some(StatusOk)
    ensures r.Ok? ==> r.value == t.response.body
    ensures r == Err(Syntax(query)) <==> t.Responded? && t.response.status == Some(StatusBadRequest)
    ensures r == Err(MultipleRequests) <==> t.Responded? && t.response.status == Some(StatusTooManyRequests)
    ensures r == Err(Load) <==> t.Responded? && t.response.status == Some(StatusGatewayTimeout)
    ensures r == Err(Unknown) <==>
      t.Responded? && t.response.status !in {Some(StatusOk), Some(StatusBadRequest),
                                             Some(StatusTooManyRequests), Some(StatusGatewayTimeout)}
    ensures r.Err? && r.error.Client? <==> t.Failed?
    ensures t.Failed? ==> r == Err(Client(t.error))
    ensures r.Err? && r.error.Syntax? ==> r.error.query == query
  {
    match t
    case Failed(e) => Err(Client(e))
    case Responded(response) =>
      match response.status
      case None => Err(Unknown)
      case Some(code) =>
        if code == StatusOk then Ok(response.body)
        else if code == StatusBadRequest then Err(Syntax(query))
        else if code == StatusTooManyRequests then Err(MultipleRequests)
        else if code == StatusGatewayTimeout then Err(Load)
        else Err(Unknown)
  }

  /** `data(query:)`: `send` posts a request body and reports the outcome;
      the body posted is the wrapped query, and the error names the query
      as the caller wrote it. */
  function Data<C>(query: string, send: string -> Transport<C>): (r: Result<Bytes, ServiceError<C>>)
    ensures r.Ok? <==> send(Format(query)).Responded? && send(Format(query)).response.status == Some(StatusOk)
    ensures r.Err? && r.error.Syntax? ==> r.error.query == query
    ensures r == Classify(query, send(Format(query)))
  {
    Classify(query, send(Format(query)))
  }

  // ---------------------------------------------------------------------
  // Decoding the body

  /** `query(_:)`. `parse` reads JSON bytes (absent when they are not JSON),
      `fmt` is Swift's text form of a `Double` and `parseDate` the
      service's `yyyy-MM-dd'T'HH:mm:ssZZZZZ` reader. Any failure to decode
      becomes `unknown`; transport and status errors pass through. */
  function Query<C>(query: string, send: string -> Transport<C>, parse: Bytes -> Option<Json>,
                    fmt: real -> string, parseDate: string -> Option<Date>): Result<Response, ServiceError<C>>
  {
    var data :- Data(query, send);
    match parse(data)
    case None => Err(Unknown)
    case Some(j) =>
      match DecodeResponse(j, fmt, parseDate)
      case Ok(response) => Ok(response)
      case Err(_) => Err(Unknown)
  }

  /** What `query(_:)` promises: a response only for status 200 with a body
      that decodes; `unknown` for a body that does not; every other
      failure is the one `data(query:)` reported. */
  lemma QueryOutcome<C>(query: string, send: string -> Transport<C>, parse: Bytes -> Option<Json>,
                        fmt: real -> string, parseDate: string -> Option<Date>)
    ensures var r := Query(query, send, parse, fmt, parseDate);
      var d := Data(query, send);
      (r.Ok? <==> d.Ok? && parse(d.value).Some? && DecodeResponse(parse(d.value).value, fmt, parseDate).Ok?)
      && (r.Ok? ==> r.value == DecodeResponse(parse(d.value).value, fmt, parseDate).value)
      && (d.Err? ==> r == Err(d.error))
      && (d.Ok? && r.Err? ==> r.error == Unknown)
  {
  }

  /** A syntax error always names the query that was asked, never the
      wrapped text that was posted. */
  lemma SyntaxNamesQuery<C>(query: string, send: string -> Transport<C>, parse: Bytes -> Option<Json>,
                            fmt: real -> string, parseDate: string -> Option<Date>)
    ensures var r := Query(query, send, parse, fmt, parseDate);
      r.Err? && r.error.Syntax? ==> r.error.query == query
  {
  }
}
