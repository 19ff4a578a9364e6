/** What the handlers share: the response shape Gin writes with `c.JSON` and the path-id
    parser `strconv.ParseUint(c.Param("id"), 10, 32)`. */
module Http {
  import opened Wrappers
  import opened Model

  const StatusOK: nat := 200
  const StatusCreated: nat := 201
  const StatusBadRequest: nat := 400
  const StatusNotFound: nat := 404
  const StatusInternalServerError: nat := 500

  /** What a `data` field holds. */
  datatype Payload =
    | AreaRecord(area: Area)
    | AreaList(areas: seq<Area>)
    | ConteoList(rows: seq<AreaConConteo>)
    | PersonaRecord(persona: Persona)
    | PersonaList(personas: seq<Persona>)

  /** A `gin.H` body: `message` and/or `data` on success, `error` and maybe `details` on
      failure. */
  datatype Body =
    | Success(message: Option<string>, data: Option<Payload>)
    | Failure(error: string, details: Option<string>)

  datatype Response = Response(status: nat, body: Body)

  /** The response every handler gives for a path id that does not parse. */
  const BadId: Response := Response(StatusBadRequest, Failure("ID inválido", None))

  // ---------------------------------------------------------------------------
  // strconv.ParseUint(s, 10, 32)
  // ---------------------------------------------------------------------------

  const MaxUint32: nat := 0xFFFF_FFFF

  predicate IsDigit(c: char)
  {
    '0' <= c <= '9'
  }

  predicate AllDigits(s: string)
  {
    forall i :: 0 <= i < |s| ==> IsDigit(s[i])
  }

  function DigitValue(c: char): nat
    requires IsDigit(c)
  {
    c as int - '0' as int
  }

  /** The value of a string of decimal digits (leading zeros allowed). */
  function Decimal(s: string): nat
    requires AllDigits(s)
    decreases |s|
  {
    if s == [] then 0 else 10 * Decimal(s[..|s| - 1]) + DigitValue(s[|s| - 1])
  }

  /** A prefix of a digit string is worth no more than the whole string. */
  lemma {:induction false} DecimalPrefixBound(s: string, i: nat)
    requires AllDigits(s) && i <= |s|
    ensures Decimal(s[..i]) <= Decimal(s)
    decreases |s| - i
  {
    if i < |s| {
      var t := s[..|s| - 1];
      assert t[..i] == s[..i];
      DecimalPrefixBound(t, i);
    } else {
      assert s[..i] == s;
    }
  }

  /** Go's digit loop from position i with accumulator n: a non-digit is a syntax error
      and a value past `1<<32 - 1` is a range error; both end the scan at once. */
  function Scan(s: string, i: nat, n: nat): (r: Option<nat>)
    requires i <= |s| && AllDigits(s[..i]) && n == Decimal(s[..i]) && n <= MaxUint32
    ensures r.Some? <==> AllDigits(s) && Decimal(s) <= MaxUint32
    ensures r.Some? ==> r.value == Decimal(s)
    decreases |s| - i
  {
    if i == |s| then
      assert s[..i] == s;
      Some(n)
    else if !IsDigit(s[i]) then
      None
    else
      assert s[..i + 1][..i] == s[..i];
      var n1 := 10 * n + DigitValue(s[i]);
      if n1 > MaxUint32 then
        (if AllDigits(s) then DecimalPrefixBound(s, i + 1); None else None)
      else
        Scan(s, i + 1, n1)
  }

  /** `strconv.ParseUint(s, 10, 32)` succeeds exactly on a non-empty string of ASCII
      digits (no sign, no prefix, no underscores) whose value fits in 32 bits. */
  function ParseUint32(s: string): (r: Option<nat>)
    ensures r.Some? <==> s != "" && AllDigits(s) && Decimal(s) <= MaxUint32
    ensures r.Some? ==> r.value == Decimal(s) && r.value <= MaxUint32
  {
    if s == "" then None else Scan(s, 0, 0)
  }

  /** Leading zeros do not change the value: "007" names id 7. */
  lemma {:induction false} LeadingZero(s: string)
    requires AllDigits(s)
    ensures AllDigits("0" + s) && Decimal("0" + s) == Decimal(s)
    decreases |s|
  {
    if s != [] {
      var t := s[..|s| - 1];
      assert ("0" + s)[..|"0" + s| - 1] == "0" + t;
      LeadingZero(t);
    }
  }

  /** The canonical decimal rendering of n (what `strconv.FormatUint(n, 10)` writes). */
  function Render(n: nat): string
    decreases n
  {
    (if n < 10 then "" else Render(n / 10)) + [('0' as int + n % 10) as char]
  }

  /** Parsing is the inverse of rendering on every 32-bit value, and every larger value
      is refused. */
  lemma {:induction false} RenderParses(n: nat)
    ensures AllDigits(Render(n)) && Decimal(Render(n)) == n
    ensures ParseUint32(Render(n)) == if n <= MaxUint32 then Some(n) else None
    decreases n
  {
    var s := Render(n);
    if n >= 10 {
      RenderParses(n / 10);
      assert s[..|s| - 1] == Render(n / 10);
    }
  }
}
