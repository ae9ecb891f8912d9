/** Reading a filter fragment back into the tag it came from. The query
    text pastes keys and values between quotes without escaping, so the
    reading is exact only for keys and values that hold no quote; with a
    quote inside, two different tags can produce the same fragment. */
module TagFragments {
  import opened Wrappers
  import opened QueryBuilder

  predicate QuoteFree(s: string)
  {
    forall i :: 0 <= i < |s| ==> s[i] != '"'
  }

  /** Every key and value inside the tag is quote-free. */
  predicate TagQuoteFree(t: Tag)
  {
    match t
    case Not(u) => TagQuoteFree(u)
    case HasKey(k) => QuoteFree(k)
    case HasValue(k, v) => QuoteFree(k) && QuoteFree(v)
    case MatchesValue(k, v) => QuoteFree(k) && QuoteFree(v)
    case MatchesKeyAndValue(k, v) => QuoteFree(k) && QuoteFree(v)
  }

  /** The text before the first quote of `s`, and the text after it. */
  function UntilQuote(s: string): Option<(string, string)>
  {
    if s == [] then None
    else if s[0] == '"' then Some(([], s[1..]))
    else
      match UntilQuote(s[1..])
      case None => None
      case Some(p) => Some(([s[0]] + p.0, p.1))
  }

  /** A quoted string at the front of `s`, and what follows it. */
  function ReadQuoted(s: string): Option<(string, string)>
  {
    if s == [] || s[0] != '"' then None else UntilQuote(s[1..])
  }

  /** `rest` is the operator `op` followed by one quoted value and nothing else. */
  function ValueAfter(op: string, rest: string): Option<string>
  {
    if |op| <= |rest| && rest[..|op|] == op then
      match ReadQuoted(rest[|op|..])
      case Some(p) => if p.1 == "" then Some(p.0) else None
      case None => None
    else None
  }

  /** The filter between the brackets, in the seven shapes `Query` emits. */
  function ParseFilter(b: string): Option<Tag>
  {
    if b != [] && b[0] == '~' then
      match ReadQuoted(b[1..])
      case None => None
      case Some(p) =>
        match ValueAfter("~", p.1)
        case Some(v) => Some(MatchesKeyAndValue(p.0, v))
        case None => None
    else if b != [] && b[0] == '!' then
      match ReadQuoted(b[1..])
      case None => None
      case Some(p) => if p.1 == "" then Some(Not(HasKey(p.0))) else None
    else
      match ReadQuoted(b)
      case None => None
      case Some(p) => ParseKeyed(p.0, p.1)
  }

  /** The shapes that open with the quoted key `k`; `rest` follows it. */
  function ParseKeyed(k: string, rest: string): Option<Tag>
  {
    if rest == "" then Some(HasKey(k))
    else if ValueAfter("=", rest).Some? then Some(HasValue(k, ValueAfter("=", rest).value))
    else if ValueAfter("~", rest).Some? then Some(MatchesValue(k, ValueAfter("~", rest).value))
    else if ValueAfter("!=", rest).Some? then Some(Not(HasValue(k, ValueAfter("!=", rest).value)))
    else if ValueAfter("!~", rest).Some? then Some(Not(MatchesValue(k, ValueAfter("!~", rest).value)))
    else None
  }

  /** A bracketed fragment. */
  function ParseFragment(f: string): Option<Tag>
  {
    if |f| < 2 || f[0] != '[' || f[|f| - 1] != ']' then None
    else ParseFilter(f[1..|f| - 1])
  }

  lemma {:induction false} UntilQuoteOf(k: string, rest: string)
    requires QuoteFree(k)
    ensures UntilQuote(k + "\"" + rest) == Some((k, rest))
  {
    var s := k + "\"" + rest;
    if k == [] {
      assert s == "\"" + rest && s[1..] == rest;
    } else {
      assert s[0] == k[0] != '"';
      assert s[1..] == k[1..] + "\"" + rest;
      UntilQuoteOf(k[1..], rest);
      assert [k[0]] + k[1..] == k;
    }
  }

  lemma ReadQuotedOf(k: string, rest: string)
    requires QuoteFree(k)
    ensures ReadQuoted("\"" + k + "\"" + rest) == Some((k, rest))
  {
    assert ("\"" + k + "\"" + rest)[1..] == k + "\"" + rest;
    UntilQuoteOf(k, rest);
  }

  lemma ValueAfterOf(op: string, v: string)
    requires QuoteFree(v)
    ensures ValueAfter(op, op + "\"" + v + "\"") == Some(v)
  {
    var rest := op + "\"" + v + "\"";
    assert rest[..|op|] == op;
    assert rest[|op|..] == "\"" + v + "\"" + "";
    ReadQuotedOf(v, "");
  }

  lemma FragmentBody(b: string)
    ensures ParseFragment("[" + b + "]") == ParseFilter(b)
  {
    var f := "[" + b + "]";
    assert f[1..|f| - 1] == b;
  }

  /** `rest` starts with an operator other than `op`. */
  lemma OtherOperator(op: string, rest: string)
    requires |op| <= |rest| && rest[..|op|] != op
    ensures ValueAfter(op, rest) == None
  {
  }

  lemma RoundTripKey(k: string)
    requires QuoteFree(k)
    ensures ParseFragment(Query(HasKey(k))) == Some(HasKey(k))
    ensures ParseFragment(Query(Not(HasKey(k)))) == Some(Not(HasKey(k)))
  {
    var b := "\"" + k + "\"" + "";
    RoundTripHasKey(k, b);
    RoundTripNotKey(k, b);
  }

  /** `not(hasKey)` half of `RoundTripKey`; `b` is the quoted key, passed in
      so that both halves share it and each proof stays small. */
  lemma RoundTripNotKey(k: string, b: string)
    requires b == "\"" + k + "\"" + "" && ReadQuoted(b) == Some((k, ""))
    ensures ParseFragment(Query(Not(HasKey(k)))) == Some(Not(HasKey(k)))
  {
    var nb := "!" + b;
    assert Query(Not(HasKey(k))) == "[" + nb + "]";
    FragmentBody(nb);
    NegatedKeyFilter(k, b);
  }

  lemma NegatedKeyFilter(k: string, b: string)
    requires ReadQuoted(b) == Some((k, ""))
    ensures ParseFilter("!" + b) == Some(Not(HasKey(k)))
  {
    assert ("!" + b)[1..] == b;
  }

  /** `hasKey` half of `RoundTripKey`; `b` is the quoted key, passed in so
      that both halves share it and each proof stays small. */
  lemma RoundTripHasKey(k: string, b: string)
    requires QuoteFree(k) && b == "\"" + k + "\"" + ""
    ensures ParseFragment(Query(HasKey(k))) == Some(HasKey(k))
    ensures ReadQuoted(b) == Some((k, ""))
  {
    assert Query(HasKey(k)) == "[" + b + "]";
    FragmentBody(b);
    ReadQuotedOf(k, "");
  }

  lemma RoundTripKeyAndValue(k: string, v: string)
    requires QuoteFree(k) && QuoteFree(v)
    ensures ParseFragment(Query(MatchesKeyAndValue(k, v))) == Some(MatchesKeyAndValue(k, v))
  {
    var rest := "~" + "\"" + v + "\"";
    var b := "~" + ("\"" + k + "\"" + rest);
    assert Query(MatchesKeyAndValue(k, v)) == "[" + b + "]";
    FragmentBody(b);
    assert b[1..] == "\"" + k + "\"" + rest;
    ReadQuotedOf(k, rest);
    ValueAfterOf("~", v);
  }

  lemma KeyedOperator(k: string, v: string, op: string, t: Tag)
    requires QuoteFree(v)
    requires (op == "=" && t == HasValue(k, v)) || (op == "~" && t == MatchesValue(k, v))
          || (op == "!=" && t == Not(HasValue(k, v))) || (op == "!~" && t == Not(MatchesValue(k, v)))
    ensures ParseKeyed(k, op + "\"" + v + "\"") == Some(t)
  {
    var rest := op + "\"" + v + "\"";
    ValueAfterOf(op, v);
    assert rest[0] == op[0];
    if op != "=" {
      assert rest[..1] != "=" by { assert rest[..1][0] == op[0] != '='; }
      OtherOperator("=", rest);
    }
    if op != "~" {
      assert rest[..1] != "~" by { assert rest[..1][0] == op[0] != '~'; }
      OtherOperator("~", rest);
    }
    if op == "!~" {
      assert rest[..2] != "!=" by { assert rest[..2][1] == op[1] == '~'; }
      OtherOperator("!=", rest);
    }
  }

  lemma ParseQuotedKey(k: string, rest: string)
    requires QuoteFree(k)
    ensures ParseFilter("\"" + k + "\"" + rest) == ParseKeyed(k, rest)
  {
    var b := "\"" + k + "\"" + rest;
    assert b[0] == '"';
    ReadQuotedOf(k, rest);
  }

  /** The four shapes `"k"` + operator + `"v"`. */
  lemma RoundTripKeyOpValue(k: string, v: string, op: string, t: Tag)
    requires QuoteFree(k) && QuoteFree(v)
    requires (op == "=" && t == HasValue(k, v)) || (op == "~" && t == MatchesValue(k, v))
          || (op == "!=" && t == Not(HasValue(k, v))) || (op == "!~" && t == Not(MatchesValue(k, v)))
    ensures ParseFragment(Query(t)) == Some(t)
  {
    var rest := op + "\"" + v + "\"";
    var b := "\"" + k + "\"" + rest;
    assert Query(t) == "[" + b + "]" by {
      if op == "=" { assert Query(t) == "[\"" + k + "\"=\"" + v + "\"]"; }
      else if op == "~" { assert Query(t) == "[\"" + k + "\"~\"" + v + "\"]"; }
      else if op == "!=" { assert Query(t) == "[\"" + k + "\"!=\"" + v + "\"]"; }
      else { assert Query(t) == "[\"" + k + "\"!~\"" + v + "\"]"; }
    }
    FragmentBody(b);
    ParseQuotedKey(k, rest);
    KeyedOperator(k, v, op, t);
  }

  /** Reading a fragment back gives the tag it was built from, for every
      valid tag whose keys and values hold no quote. */
  lemma QueryRoundTrip(t: Tag)
    requires IsValid(t) && TagQuoteFree(t)
    ensures ParseFragment(Query(t)) == Some(t)
  {
    match t {
      case HasKey(k) => RoundTripKey(k);
      case Not(HasKey(k)) => RoundTripKey(k);
      case MatchesKeyAndValue(k, v) => RoundTripKeyAndValue(k, v);
      case HasValue(k, v) => RoundTripKeyOpValue(k, v, "=", t);
      case MatchesValue(k, v) => RoundTripKeyOpValue(k, v, "~", t);
      case Not(HasValue(k, v)) => RoundTripKeyOpValue(k, v, "!=", t);
      case Not(MatchesValue(k, v)) => RoundTripKeyOpValue(k, v, "!~", t);
    }
  }

  /** Distinct valid quote-free tags give distinct fragments, so equal
      fragments mean `==` holds between the tags. */
  lemma QueryInjective(t1: Tag, t2: Tag)
    requires IsValid(t1) && TagQuoteFree(t1) && IsValid(t2) && TagQuoteFree(t2)
    requires Query(t1) == Query(t2)
    ensures t1 == t2 && TagEq(t1, t2)
  {
    QueryRoundTrip(t1);
    QueryRoundTrip(t2);
    TagEqIsStructural(t1, t2);
  }

  /** With a quote inside a key, a key test and a value test collide. */
  lemma QuoteCollision()
    ensures Query(HasKey("a\"=\"b")) == Query(HasValue("a", "b"))
    ensures HasKey("a\"=\"b") != HasValue("a", "b")
  {
  }
}
