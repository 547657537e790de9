/**
 * The new-status form: a status needs a name and a colour written as `#`
 * followed by six hexadecimal digits.
 */
module EstadoForm {
  import opened Wrappers

  /** A hexadecimal digit of either case. */
  predicate IsHexDigit(c: char)
  {
    ('0' <= c <= '9') || ('a' <= c <= 'f') || ('A' <= c <= 'F')
  }

  /**
   * The pattern `^#[0-9a-fA-F]{6}$` run as an automaton: `pos` is how many
   * characters of the pattern have been matched, 0 before the `#` and 7
   * once all six digits have been read.
   */
  function MatchColorFrom(s: string, pos: nat): bool
    requires pos <= 7
  {
    if s == [] then pos == 7
    else if pos == 0 then s[0] == '#' && MatchColorFrom(s[1..], 1)
    else if pos < 7 then IsHexDigit(s[0]) && MatchColorFrom(s[1..], pos + 1)
    else false
  }

  /** Whether the whole text matches the colour pattern. */
  function MatchesColor(s: string): bool
  {
    MatchColorFrom(s, 0)
  }

  /** A colour as the pattern describes it: seven characters, a `#` and six hexadecimal digits. */
  predicate HexColor(s: string)
  {
    |s| == 7 && s[0] == '#' && forall i :: 1 <= i < 7 ==> IsHexDigit(s[i])
  }

  /** From position `pos` on, the automaton accepts exactly the rest of a colour. */
  lemma {:induction false} MatchColorFromIff(s: string, pos: nat)
    requires 1 <= pos <= 7
    ensures MatchColorFrom(s, pos) <==> |s| == 7 - pos && forall i :: 0 <= i < |s| ==> IsHexDigit(s[i])
    decreases |s|
  {
    if s != [] && pos < 7 {
      MatchColorFromIff(s[1..], pos + 1);
      assert forall i :: 1 <= i < |s| ==> s[i] == s[1..][i - 1];
    }
  }

  /** The automaton accepts exactly the colours. */
  lemma MatchesColorIffHexColor(s: string)
    ensures MatchesColor(s) <==> HexColor(s)
  {
    if s != [] {
      MatchColorFromIff(s[1..], 1);
      assert forall i :: 1 <= i < |s| ==> s[i] == s[1..][i - 1];
    }
  }

  /** The status name's message. */
  const NombreRequerido := "El nombre del estado es requerido."
  /** The colour's message. */
  const ColorInvalido := "Debe ser un color hexadecimal válido (ej: #FFFFFF)."

  /** The form's two inputs. */
  datatype EstadoValues = EstadoValues(estado: string, color: string)

  /** The message under each input, if its value is refused. */
  datatype EstadoErrors = EstadoErrors(estado: Option<string>, color: Option<string>)

  /** The form's validation: a non-empty name, and a colour that matches the pattern. */
  function Validate(v: EstadoValues): (e: EstadoErrors)
    ensures e.estado.None? <==> |v.estado| >= 1
    ensures e.estado.Some? ==> e.estado.value == NombreRequerido
    ensures e.color.None? <==> HexColor(v.color)
    ensures e.color.Some? ==> e.color.value == ColorInvalido
  {
    MatchesColorIffHexColor(v.color);
    EstadoErrors(
      if |v.estado| >= 1 then None else Some(NombreRequerido),
      if MatchesColor(v.color) then None else Some(ColorInvalido))
  }

  /** The form submits only when neither input is refused. */
  predicate Submits(v: EstadoValues)
  {
    Validate(v) == EstadoErrors(None, None)
  }

  /** The form's initial values: no name, black. */
  const Defaults: EstadoValues := EstadoValues("", "#000000")

  /** The initial colour is accepted but the empty name is not, so the untouched form does not submit. */
  lemma DefaultsRefusedForNameOnly()
    ensures Validate(Defaults) == EstadoErrors(Some(NombreRequerido), None)
    ensures !Submits(Defaults)
  {
    assert HexColor(Defaults.color);
  }

  /** A colour missing its `#` or of any other length is refused. */
  lemma MalformedColorsRefused(s: string)
    requires |s| != 7 || (|s| > 0 && s[0] != '#')
    ensures Validate(EstadoValues("Recibido", s)).color == Some(ColorInvalido)
  {
  }
}
