/** The registration page (frontend/src/app/pages/registro/registro.component.ts): the
    form's signals, the validation cascade `onSubmit` runs before posting, the two
    callbacks of the POST, the select's change handler and the area list load. */
module Registro {
  import opened Wrappers
  import Model

  // ---------------------------------------------------------------------------
  // JavaScript values the component handles
  // ---------------------------------------------------------------------------

  /** A JavaScript number as far as the form cares: `NaN`, or a finite value stood for by
      a real. The sign of zero is not kept (`-0 === 0`), and the infinities are not
      represented. */
  datatype JsNumber = NaN | Num(v: real)

  /** The characters ECMAScript calls WhiteSpace or LineTerminator. `String.prototype.trim`
      strips exactly these, and the regular-expression class `\s` matches exactly these. */
  predicate IsJsSpace(c: char)
  {
    || c == '\t' || c == '\n' || c == '\U{000B}' || c == '\U{000C}' || c == '\r'
    || c == ' ' || c == '\U{00A0}' || c == '\U{1680}'
    || ('\U{2000}' <= c <= '\U{200A}')
    || c == '\U{2028}' || c == '\U{2029}' || c == '\U{202F}' || c == '\U{205F}'
    || c == '\U{3000}' || c == '\U{FEFF}'
  }

  predicate AllSpace(s: string)
  {
    forall k :: 0 <= k < |s| ==> IsJsSpace(s[k])
  }

  /** Leading white space removed: what is left is a suffix of `s`, the part removed is
      all white space, and what is left does not start with white space. */
  function TrimStart(s: string): (r: string)
    ensures |r| <= |s| && r == s[|s| - |r|..]
    ensures AllSpace(s[..|s| - |r|])
    ensures r != "" ==> !IsJsSpace(r[0])
  {
    if s != "" && IsJsSpace(s[0]) then
      var r := TrimStart(s[1..]);
      assert forall k :: 0 < k < |s| - |r| ==> s[k] == s[1..][..|s| - 1 - |r|][k - 1];
      r
    else s
  }

  /** Trailing white space removed: a prefix of `s`, the part removed is all white space,
      and what is left does not end with white space. */
  function TrimEnd(s: string): (r: string)
    ensures |r| <= |s| && r == s[..|r|]
    ensures AllSpace(s[|r|..])
    ensures r != "" ==> !IsJsSpace(r[|r| - 1])
  {
    if s != "" && IsJsSpace(s[|s| - 1]) then TrimEnd(s[..|s| - 1]) else s
  }

  /** `s.trim()`. */
  function Trim(s: string): (r: string)
    ensures r == "" <==> AllSpace(s)
  {
    var t := TrimStart(s);
    var r := TrimEnd(t);
    assert r == "" ==> AllSpace(t) by { assert t[0..] == t; }
    assert t == "" ==> s[..|s| - |t|] == s;
    assert t != "" ==> t[0] == s[|s| - |t|];
    r
  }

  /** The guard `!v || v.trim() === ''` used for the name and the e-mail. */
  predicate IsBlank(s: string)
  {
    s == "" || Trim(s) == ""
  }

  /** A string is blank exactly when every character of it is white space. */
  lemma BlankIffAllSpace(s: string)
    ensures IsBlank(s) <==> AllSpace(s)
  {
  }

  // ---------------------------------------------------------------------------
  // The e-mail pattern /^[^\s@]+@[^\s@]+\.[^\s@]+$/
  // ---------------------------------------------------------------------------

  /** Index of the first `c` in `s`, or `|s|` when there is none. */
  function IndexOf(s: string, c: char): (r: nat)
    ensures r <= |s|
    ensures forall k :: 0 <= k < r ==> s[k] != c
    ensures r < |s| ==> s[r] == c
  {
    if s == "" then 0
    else if s[0] == c then 0
    else 1 + IndexOf(s[1..], c)
  }

  /** A character of the class `[^\s@]`. */
  predicate PatternChar(c: char)
  {
    !IsJsSpace(c) && c != '@'
  }

  /** A run matched by `[^\s@]+`. */
  predicate Segment(s: string)
  {
    |s| > 0 && forall k :: 0 <= k < |s| ==> PatternChar(s[k])
  }

  /** The pattern read as the regular expression it is: the whole string splits into
      `local @ host . tld`, each of the three parts a non-empty run of `[^\s@]`. */
  ghost predicate MatchesEmailRegex(s: string)
  {
    exists i, j :: 0 < i < j < |s| - 1 && s[i] == '@' && s[j] == '.' &&
      Segment(s[..i]) && Segment(s[i + 1..j]) && Segment(s[j + 1..])
  }

  /** `emailPattern.test(s)`, stated as the checks a reader of the pattern makes: no white
      space anywhere, a first '@' that is not the first character, no second '@', and a
      '.' after the '@' with at least one character between them and one after it. */
  predicate EmailPattern(s: string)
  {
    var at := IndexOf(s, '@');
    && (forall k :: 0 <= k < |s| ==> !IsJsSpace(s[k]))
    && 0 < at < |s|
    && (forall k :: at < k < |s| ==> s[k] != '@')
    && exists k :: at + 1 < k < |s| - 1 && s[k] == '.'
  }

  /** The first-occurrence index is the only index of a `c` with none before it. */
  lemma IndexOfIsFirst(s: string, c: char, i: nat)
    requires i < |s| && s[i] == c
    requires forall k :: 0 <= k < i ==> s[k] != c
    ensures IndexOf(s, c) == i
  {
  }

  /** Every string the computed check accepts matches the regular expression. */
  lemma PatternImpliesRegex(s: string)
    requires EmailPattern(s)
    ensures MatchesEmailRegex(s)
  {
    var i := IndexOf(s, '@');
    var j :| i + 1 < j < |s| - 1 && s[j] == '.';
    var local, host, tld := s[..i], s[i + 1..j], s[j + 1..];
    assert forall m :: 0 <= m < |local| ==> local[m] == s[m];
    assert forall m :: 0 <= m < |host| ==> host[m] == s[i + 1 + m];
    assert forall m :: 0 <= m < |tld| ==> tld[m] == s[j + 1 + m];
    assert Segment(local) && Segment(host) && Segment(tld);
  }

  /** Every string matching the regular expression is accepted by the computed check. */
  lemma RegexImpliesPattern(s: string)
    requires MatchesEmailRegex(s)
    ensures EmailPattern(s)
  {
    var i, j :| 0 < i < j < |s| - 1 && s[i] == '@' && s[j] == '.' &&
      Segment(s[..i]) && Segment(s[i + 1..j]) && Segment(s[j + 1..]);
    var local, host, tld := s[..i], s[i + 1..j], s[j + 1..];
    forall m | 0 <= m < |s| && m != i && m != j
      ensures PatternChar(s[m])
    {
      if m < i {
        assert s[m] == local[m];
      } else if m < j {
        assert s[m] == host[m - i - 1];
      } else {
        assert s[m] == tld[m - j - 1];
      }
    }
    assert forall k :: 0 <= k < |s| ==> !IsJsSpace(s[k]);
    assert forall k :: 0 <= k < i ==> s[k] != '@';
    IndexOfIsFirst(s, '@', i);
  }

  /** The computed check and the regular expression accept the same strings. */
  lemma EmailPatternMatchesRegex(s: string)
    ensures EmailPattern(s) <==> MatchesEmailRegex(s)
  {
    if EmailPattern(s) {
      PatternImpliesRegex(s);
    }
    if MatchesEmailRegex(s) {
      RegexImpliesPattern(s);
    }
  }

  // ---------------------------------------------------------------------------
  // Validation cascade of `onSubmit`
  // ---------------------------------------------------------------------------

  const NombreObligatorio := "El nombre es obligatorio. Por favor, ingresa el nombre completo."
  const EmailObligatorio := "El correo electrónico es obligatorio. Por favor, ingresa un correo válido."
  const EmailInvalido := "El formato del correo electrónico no es válido. Ej: nombre@empresa.com"
  const AreaObligatoria := "Debes seleccionar un área. Por favor, elige una opción del menú desplegable."
  const RegistroExitoso := "¡Persona registrada exitosamente!"
  const SinConexion := "No se pudo conectar con el servidor. Verifica que el backend esté ejecutándose."
  const ErrorGenerico := "Ocurrió un error al registrar la persona. Por favor, intenta de nuevo."
  const AreasNoCargadas := "No se pudieron cargar las áreas. Por favor, intenta de nuevo."

  /** `areaValue === null || Number.isNaN(areaValue) || areaValue === 0`. */
  predicate AreaMissing(areaId: Option<JsNumber>)
  {
    areaId.None? || areaId.value.NaN? || areaId.value.v == 0.0
  }

  /** The message of the first failed check, in the order the page checks them, or
      `None` when the form may be sent. */
  function ValidationError(nombre: string, email: string, areaId: Option<JsNumber>): Option<string>
  {
    if IsBlank(nombre) then Some(NombreObligatorio)
    else if IsBlank(email) then Some(EmailObligatorio)
    else if !EmailPattern(email) then Some(EmailInvalido)
    else if AreaMissing(areaId) then Some(AreaObligatoria)
    else None
  }

  /** What the cascade decides, in terms of white space, the regular expression and the
      selected area: the form passes exactly when the name and the e-mail are not all white
      space, the e-mail matches the pattern and an area is selected; otherwise the message
      is the one of the first check that fails. */
  lemma ValidationErrorMeaning(nombre: string, email: string, areaId: Option<JsNumber>)
    ensures var m := ValidationError(nombre, email, areaId);
      && (m.None? <==> !AllSpace(nombre) && !AllSpace(email) && MatchesEmailRegex(email) && !AreaMissing(areaId))
      && (AllSpace(nombre) ==> m == Some(NombreObligatorio))
      && (!AllSpace(nombre) && AllSpace(email) ==> m == Some(EmailObligatorio))
      && (!AllSpace(nombre) && !AllSpace(email) && !MatchesEmailRegex(email) ==> m == Some(EmailInvalido))
      && (!AllSpace(nombre) && !AllSpace(email) && MatchesEmailRegex(email) && AreaMissing(areaId)
          ==> m == Some(AreaObligatoria))
  {
    BlankIffAllSpace(nombre);
    BlankIffAllSpace(email);
    EmailPatternMatchesRegex(email);
  }

  /** A form the page accepts meets every `required` rule of the backend's `Persona`
      binding; the backend's own `email` rule is a separate check. */
  lemma AcceptedFormIsNonEmpty(nombre: string, email: string, areaId: Option<JsNumber>)
    requires ValidationError(nombre, email, areaId).None?
    ensures nombre != "" && email != "" && areaId.Some? && areaId.value.Num? && areaId.value.v != 0.0
    ensures '@' in email
  {
    var at := IndexOf(email, '@');
    assert email[at] == '@';
  }

  /** The body `onSubmit` posts to `/api/v1/personas`. */
  datatype PersonaRequest = PersonaRequest(nombre: string, email: string, areaId: real)

  /** The failure the POST reports: the HTTP status (0 when no response arrived) and the
      `error` field of the JSON body when the body has one. */
  datatype HttpFailure = HttpFailure(status: int, backendError: Option<string>)

  /** The message the page shows for a failed POST: the backend's own `error` text when
      there is a non-empty one, otherwise a connection message for status 0 and a generic
      message for any other status. */
  function SubmitErrorMessage(f: HttpFailure): (m: string)
    ensures f.backendError.Some? && f.backendError.value != "" ==> m == f.backendError.value
    ensures (f.backendError.None? || f.backendError.value == "") && f.status == 0 ==> m == SinConexion
    ensures (f.backendError.None? || f.backendError.value == "") && f.status != 0 ==> m == ErrorGenerico
    ensures m != ""
  {
    if f.backendError.Some? && f.backendError.value != "" then f.backendError.value
    else if f.status == 0 then SinConexion
    else ErrorGenerico
  }

  /** The page's signals. */
  class RegistroComponent {
    var nombre: string
    var email: string
    var areaId: Option<JsNumber>
    var areas: seq<Model.Area>
    var loading: bool
    var errorMessage: string
    var successMessage: string

    /** The initial signal values. */
    constructor()
      ensures nombre == "" && email == "" && areaId == None && areas == []
      ensures !loading && errorMessage == "" && successMessage == ""
    {
      nombre, email, areaId, areas := "", "", None, [];
      loading, errorMessage, successMessage := false, "", "";
    }

    /** The success callback of `loadAreas`: the list the backend sent becomes the options.
        For an empty list the callback throws (`Object.keys(areasArray[0])` on `undefined`)
        before the options are set, so they keep their old value; the error callback is not
        called for an exception thrown in `next`, so no message appears either. */
    method OnAreasLoaded(list: seq<Model.Area>)
      modifies this
      ensures list != [] ==> areas == list
      ensures list == [] ==> areas == old(areas)
      ensures nombre == old(nombre) && email == old(email) && areaId == old(areaId)
      ensures loading == old(loading) && errorMessage == old(errorMessage)
      ensures successMessage == old(successMessage)
    {
      if list != [] {
        areas := list;
      }
    }

    /** The error callback of `loadAreas`. */
    method OnAreasError()
      modifies this
      ensures errorMessage == AreasNoCargadas
      ensures nombre == old(nombre) && email == old(email) && areaId == old(areaId)
      ensures areas == old(areas) && loading == old(loading) && successMessage == old(successMessage)
    {
      errorMessage := AreasNoCargadas;
    }

    /** `onSubmit` up to the POST: both messages are cleared, the checks of
        `ValidationError` run in order and the first failure becomes the error message. When every check passes the page starts
        loading and returns the body it posts, the fields exactly as typed (untrimmed). */
    method OnSubmit() returns (request: Option<PersonaRequest>)
      modifies this
      ensures var v := ValidationError(old(nombre), old(email), old(areaId));
        && (v.Some? ==> request.None? && errorMessage == v.value && loading == old(loading))
        && (v.None? ==> request.Some? && errorMessage == "" && loading)
      ensures request.Some? ==>
        old(areaId).Some? && old(areaId).value.Num? &&
        request.value == PersonaRequest(old(nombre), old(email), old(areaId).value.v)
      ensures successMessage == ""
      ensures nombre == old(nombre) && email == old(email) && areaId == old(areaId) && areas == old(areas)
    {
      errorMessage := "";
      successMessage := "";
      var failed := ValidationError(nombre, email, areaId);
      if failed.Some? {
        errorMessage := failed.value;
        return None;
      }
      loading := true;
      request := Some(PersonaRequest(nombre, email, areaId.value.v));
    }

    /** The success callback of the POST: the page reports success, stops loading and
        clears the form. */
    method OnSubmitSuccess()
      modifies this
      ensures successMessage == RegistroExitoso && !loading
      ensures nombre == "" && email == "" && areaId == None
      ensures errorMessage == old(errorMessage) && areas == old(areas)
    {
      successMessage := RegistroExitoso;
      loading := false;
      nombre, email, areaId := "", "", None;
    }

    /** The error callback of the POST: the page stops loading and shows the message
        `SubmitErrorMessage` picks; the form keeps what was typed. */
    method OnSubmitError(failure: HttpFailure)
      modifies this
      ensures !loading && errorMessage == SubmitErrorMessage(failure)
      ensures nombre == old(nombre) && email == old(email) && areaId == old(areaId)
      ensures areas == old(areas) && successMessage == old(successMessage)
    {
      loading := false;
      if failure.backendError.Some? && failure.backendError.value != "" {
        errorMessage := failure.backendError.value;
      } else if failure.status == 0 {
        errorMessage := SinConexion;
      } else {
        errorMessage := ErrorGenerico;
      }
    }

    /** `onAreaChange`: an empty value or the text "undefined" clears the selection;
        anything else becomes `Number(value)`, given here as `asNumber`, `NaN` included. */
    method OnAreaChange(value: string, asNumber: JsNumber)
      modifies this
      ensures areaId == (if value == "" || value == "undefined" then None else Some(asNumber))
      ensures nombre == old(nombre) && email == old(email) && areas == old(areas)
      ensures loading == old(loading) && errorMessage == old(errorMessage)
      ensures successMessage == old(successMessage)
    {
      if value == "" || value == "undefined" {
        areaId := None;
        return;
      }
      areaId := Some(asNumber);
    }
  }
}
