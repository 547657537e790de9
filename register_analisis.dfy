/**
 * The new-analysis form: a name, one of the seven kinds, and at least one
 * fully filled field; and the list of field rows the user grows and shrinks.
 */
module AnalisisForm {
  import opened Wrappers
  import opened Schema

  /** The kinds the form offers, in the order of its menu. */
  const TiposDeAnalisis: seq<string> := ["Hematología clínica", "Perfil de rutina", "Química clínica",
                                         "Coprología", "Serología", "Uroanálisis", "Hormonales"]

  /** The menu offers exactly the kinds the database accepts. */
  lemma MenuMatchesServerKinds()
    ensures |TiposDeAnalisis| == 7
    ensures forall s :: s in TiposDeAnalisis <==> ParseTipo(s).Some?
    ensures forall t: Tipo :: TipoLiteral(t) in TiposDeAnalisis
  {
    forall t: Tipo ensures TipoLiteral(t) in TiposDeAnalisis {
      match t
      case HematologiaClinica => assert TipoLiteral(t) == TiposDeAnalisis[0];
      case PerfilDeRutina => assert TipoLiteral(t) == TiposDeAnalisis[1];
      case QuimicaClinica => assert TipoLiteral(t) == TiposDeAnalisis[2];
      case Coprologia => assert TipoLiteral(t) == TiposDeAnalisis[3];
      case Serologia => assert TipoLiteral(t) == TiposDeAnalisis[4];
      case Uroanalisis => assert TipoLiteral(t) == TiposDeAnalisis[5];
      case Hormonales => assert TipoLiteral(t) == TiposDeAnalisis[6];
    }
    forall s | s in TiposDeAnalisis ensures ParseTipo(s).Some? {
      var i :| 0 <= i < 7 && TiposDeAnalisis[i] == s;
    }
  }

  /** The form's inputs; the kind is unset until one is picked. */
  datatype AnalisisValues = AnalisisValues(nombre: string, descripcion: Option<string>, tipo: Option<string>,
                                           campos: seq<Campo>)

  /** What the form sends once validated. */
  datatype AnalisisInput = AnalisisInput(nombre: string, descripcion: Option<string>, tipo: Tipo, campos: seq<Campo>)

  /** A field row is complete when its name, unit and reference value are all non-empty. */
  predicate CampoComplete(c: Campo)
  {
    |c.nombre| >= 1 && |c.medicion| >= 1 && |c.valorReferencia| >= 1
  }

  /** Whether every field row is complete, checked row by row. */
  function AllComplete(campos: seq<Campo>): (r: bool)
    ensures r <==> forall i :: 0 <= i < |campos| ==> CampoComplete(campos[i])
  {
    if campos == [] then true else CampoComplete(campos[0]) && AllComplete(campos[1..])
  }

  /**
   * The form's validation: the values to send when the name is non-empty,
   * the kind is one of the seven, there is at least one field row and every
   * row is complete; nothing otherwise.
   */
  function Validate(v: AnalisisValues): (r: Option<AnalisisInput>)
    ensures r.Some? <==> && |v.nombre| >= 1
                         && v.tipo.Some? && v.tipo.value in TiposDeAnalisis
                         && |v.campos| >= 1
                         && forall i :: 0 <= i < |v.campos| ==> CampoComplete(v.campos[i])
    ensures r.Some? ==> r.value == AnalisisInput(v.nombre, v.descripcion, r.value.tipo, v.campos)
    ensures r.Some? ==> TipoLiteral(r.value.tipo) == v.tipo.value
  {
    MenuMatchesServerKinds();
    if |v.nombre| >= 1 && v.tipo.Some? && ParseTipo(v.tipo.value).Some? && |v.campos| >= 1 && AllComplete(v.campos) then
      Some(AnalisisInput(v.nombre, v.descripcion, ParseTipo(v.tipo.value).value, v.campos))
    else None
  }

  /** A blank field row. */
  const BlankCampo: Campo := Campo("", "", "")

  /** The form's initial values: no name, empty description, no kind, one blank row. */
  const Defaults: AnalisisValues := AnalisisValues("", Some(""), None, [BlankCampo])

  /** A blank row is refused wherever it stands, so the untouched form does not submit. */
  lemma BlankRowRefused(v: AnalisisValues, i: nat)
    requires i < |v.campos| && v.campos[i] == BlankCampo
    ensures Validate(v).None?
  {
    assert !CampoComplete(v.campos[i]);
  }

  /** The untouched form is refused. */
  lemma DefaultsRefused()
    ensures Validate(Defaults).None?
  {
    BlankRowRefused(Defaults, 0);
  }

  /** The field rows (`useFieldArray`). */
  class CamposArray {
    var campos: seq<Campo>

    /** The removal button is disabled at one row, so at least one row remains. */
    ghost predicate Valid()
      reads this
    {
      |campos| >= 1
    }

    /** The form opens with one blank row. */
    constructor ()
      ensures Valid() && campos == [BlankCampo]
    {
      campos := [BlankCampo];
    }

    /** "Añadir Campo": a blank row at the end. */
    method Append()
      requires Valid()
      modifies this
      ensures Valid()
      ensures campos == old(campos) + [BlankCampo]
    {
      campos := campos + [BlankCampo];
    }

    /** A row's remove button: disabled while only one row is left; otherwise that row goes. */
    method Remove(index: nat)
      requires Valid() && index < |campos|
      modifies this
      ensures Valid()
      ensures |old(campos)| <= 1 ==> campos == old(campos)
      ensures |old(campos)| > 1 ==> campos == old(campos)[..index] + old(campos)[index + 1..]
    {
      if |campos| <= 1 {
        return;
      }
      campos := campos[..index] + campos[index + 1..];
    }
  }

  /** Appending a row and removing it again gives back the rows as they were. */
  lemma AppendThenRemoveLast(campos: seq<Campo>)
    requires |campos| >= 1
    ensures var grown := campos + [BlankCampo];
            grown[..|campos|] + grown[|campos| + 1..] == campos
  {
    var grown := campos + [BlankCampo];
    assert grown[..|campos|] == campos;
  }
}
