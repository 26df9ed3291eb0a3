/** Shared vocabulary: optional values, the clock, HTTP status codes and the
    textual form of record identifiers. */
module Base {

  datatype Option<T> = None | Some(value: T)

  datatype Result<T, E> = Success(value: T) | Failure(error: E)

  /** Instants are whole seconds on one clock; the clock itself is always a parameter. */
  type Time = int

  /** Sessions and issued tokens both live for seven days. */
  const SevenDays: int := 604800

  /** Record identifiers. The source draws them from uuid4; the model draws them
      from a counter, which gives the same uniqueness. */
  type Id = nat

  const HttpOk: int := 200
  const HttpCreated: int := 201
  const HttpBadRequest: int := 400
  const HttpUnauthorized: int := 401
  const HttpForbidden: int := 403
  const HttpNotFound: int := 404
  const HttpServerError: int := 500

  predicate IsDigit(c: char) {
    '0' <= c <= '9'
  }

  function DigitChar(d: nat): (c: char)
    requires d < 10
    ensures IsDigit(c) && c as int - '0' as int == d
  {
    ('0' as int + d) as char
  }

  /** `str(id)`: the text under which an identifier travels in cookies and token claims. */
  function IdText(n: Id): (s: string)
    ensures |s| >= 1
    ensures forall i :: 0 <= i < |s| ==> IsDigit(s[i])
  {
    if n < 10 then [DigitChar(n)] else IdText(n / 10) + [DigitChar(n % 10)]
  }

  function DigitValue(c: char): nat
    requires IsDigit(c)
  {
    c as int - '0' as int
  }

  function DigitsValue(s: string): nat
    requires forall i :: 0 <= i < |s| ==> IsDigit(s[i])
  {
    if s == [] then 0
    else DigitsValue(s[..|s| - 1]) * 10 + DigitValue(s[|s| - 1])
  }

  /** The conversion the ORM applies to an identifier given as text: `None` stands
      for the validation error the identifier column raises on text that is not an
      identifier (an exception that is not a ValueError). */
  function ParseId(s: string): (r: Option<Id>)
    ensures r.Some? <==> s != [] && forall i :: 0 <= i < |s| ==> IsDigit(s[i])
  {
    if s != [] && forall i :: 0 <= i < |s| ==> IsDigit(s[i]) then Some(DigitsValue(s)) else None
  }

  /** Reading back the text of an identifier gives the identifier. */
  lemma {:induction false} ParseIdText(n: Id)
    ensures ParseId(IdText(n)) == Some(n)
  {
    if n >= 10 {
      ParseIdText(n / 10);
      var p := IdText(n / 10);
      var s := p + [DigitChar(n % 10)];
      assert s[..|s| - 1] == p;
      assert DigitValue(s[|s| - 1]) == n % 10;
      assert DigitsValue(s) == DigitsValue(p) * 10 + n % 10;
      assert ParseId(s) == Some(DigitsValue(s));
    } else {
      var s := [DigitChar(n)];
      assert s[..0] == [];
      assert DigitsValue(s) == n;
    }
  }

  /** Distinct identifiers have distinct texts. */
  lemma IdTextInjective(a: Id, b: Id)
    ensures IdText(a) == IdText(b) ==> a == b
  {
    ParseIdText(a);
    ParseIdText(b);
  }

  predicate StartsWith(s: string, prefix: string) {
    |prefix| <= |s| && s[..|prefix|] == prefix
  }
}
