/**
 * The per-sample actions of the samples table: the edit form's handling of
 * result values (null shown as an empty box, an empty box saved as null),
 * saving and deleting, and which controls the stored permissions show.
 */
module SampleActions {
  import opened Wrappers
  import opened Schema
  import Store
  import opened Muestras
  import opened ClientPermissions

  /** The value the edit form shows for a stored value: an empty box for null, the value itself otherwise. */
  function LoadValor(v: Valor): (r: Valor)
    ensures v.Nulo? ==> r == Texto("")
    ensures !v.Nulo? ==> r == v
  {
    if v.Nulo? then Texto("") else v
  }

  /** The value saved for what the form holds: null for an empty box, the value itself otherwise. */
  function SubmitValor(v: Valor): (r: Valor)
    ensures v == Texto("") ==> r == Nulo
    ensures v != Texto("") ==> r == v
  {
    if v == Texto("") then Nulo else v
  }

  /**
   * The form's rows when the edit dialog opens: each stored result with its
   * value loaded. A sample with no result list makes the dialog fail (`None`).
   */
  function LoadForm(resultados: Option<seq<Resultado>>): (r: Option<seq<Resultado>>)
    ensures r.None? <==> resultados.None?
    ensures r.Some? ==> |r.value| == |resultados.value|
    ensures r.Some? ==> forall i :: 0 <= i < |r.value| ==>
              r.value[i] == resultados.value[i].(valor := LoadValor(resultados.value[i].valor))
  {
    if resultados.None? then None
    else Some(seq(|resultados.value|, i requires 0 <= i < |resultados.value| =>
                    resultados.value[i].(valor := LoadValor(resultados.value[i].valor))))
  }

  /** The rows sent to `updateMuestra`: each form row with its value submitted. */
  function SubmitForm(rows: seq<Resultado>): (r: seq<Resultado>)
    ensures |r| == |rows|
    ensures forall i :: 0 <= i < |r| ==> r[i] == rows[i].(valor := SubmitValor(rows[i].valor))
  {
    seq(|rows|, i requires 0 <= i < |rows| => rows[i].(valor := SubmitValor(rows[i].valor)))
  }

  /**
   * The form's validator accepts a value that is a string or null and
   * nothing else; a loaded number or boolean is refused.
   */
  predicate FormValorValid(v: Valor)
  {
    v.Texto? || v.Nulo?
  }

  /** Every row of the form passes the validator. */
  predicate FormValid(rows: seq<Resultado>)
  {
    forall i :: 0 <= i < |rows| ==> FormValorValid(rows[i].valor)
  }

  /** A value survives being loaded and saved unchanged exactly when it is null or a non-empty string. */
  lemma ValorRoundTrip(v: Valor)
    ensures FormValorValid(LoadValor(v)) ==> (SubmitValor(LoadValor(v)) == v <==> v != Texto(""))
    ensures FormValorValid(LoadValor(v)) <==> v.Texto? || v.Nulo?
  {
  }

  /**
   * Opening the dialog and saving without edits gives back the stored
   * results when none of them holds an empty string; names, units and
   * reference values always pass through unchanged.
   */
  lemma {:induction false} FormRoundTrip(resultados: seq<Resultado>)
    requires forall i :: 0 <= i < |resultados| ==> resultados[i].valor.Nulo? || resultados[i].valor.Texto?
    ensures FormValid(LoadForm(Some(resultados)).value)
    ensures var saved := SubmitForm(LoadForm(Some(resultados)).value);
            && |saved| == |resultados|
            && (forall i :: 0 <= i < |saved| ==>
                  saved[i].nombre == resultados[i].nombre && saved[i].medicion == resultados[i].medicion
                  && saved[i].estandar == resultados[i].estandar)
            && ((forall i :: 0 <= i < |resultados| ==> resultados[i].valor != Texto("")) ==> saved == resultados)
  {
    var saved := SubmitForm(LoadForm(Some(resultados)).value);
    if forall i :: 0 <= i < |resultados| ==> resultados[i].valor != Texto("") {
      forall i | 0 <= i < |saved| ensures saved[i] == resultados[i] {
        ValorRoundTrip(resultados[i].valor);
      }
    }
  }

  /** A stored number or boolean cannot be saved back until its box is retyped. */
  lemma LoadedNumberBlocksSave(resultados: seq<Resultado>, i: nat)
    requires i < |resultados| && (resultados[i].valor.Numero? || resultados[i].valor.Booleano?)
    ensures !FormValid(LoadForm(Some(resultados)).value)
  {
    assert !FormValorValid(LoadForm(Some(resultados)).value[i].valor);
  }

  /**
   * `onUpdateSubmit`: the sample's status and its submitted rows are
   * patched in, its client is left alone.
   */
  method OnUpdateSubmit(db: Store.Database, id: Id, estado: Id, rows: seq<Resultado>, now: Millis) returns (ok: bool)
    requires db.Valid()
    modifies db`muestras
    ensures db.Valid()
    ensures ok <==> id in old(db.muestras)
    ensures ok ==> db.muestras == old(db.muestras)[id := Patch(old(db.muestras)[id], None, Some(estado), Some(SubmitForm(rows)), now)]
    ensures ok ==> db.muestras[id].clienteId == old(db.muestras)[id].clienteId
    ensures !ok ==> db.muestras == old(db.muestras)
  {
    ok := UpdateMuestra(db, id, None, Some(estado), Some(SubmitForm(rows)), now);
  }

  /** `handleDelete`: the row's sample is deleted; deleting one already gone fails. */
  method HandleDelete(db: Store.Database, id: Id) returns (ok: bool)
    requires db.Valid()
    modifies db`muestras
    ensures db.Valid()
    ensures ok <==> id in old(db.muestras)
    ensures db.muestras == old(db.muestras) - {id}
  {
    ok := DeleteMuestra(db, id);
  }

  /** Permission names the action column checks. */
  const EliminarMuestra := "EliminarMuestra"
  const EditarMuestra := "EditarMuestra"
  const VerDetallesMuestra := "VerDetallesMuestra"
  const VerNotasMuestras := "VerNotasMuestras"

  /** Which of the four actions a row shows. */
  datatype Controls = Controls(puedeEliminar: bool, puedeEditar: bool, puedeVerDetalles: bool, puedeVerNotas: bool)

  /** The flags, each read from the stored permission snapshot. */
  function ActionControls(hasWindow: bool, slot: Slot): (c: Controls)
    ensures c.puedeEliminar <==> hasWindow && slot.Stored? && slot.data.permissions.Some?
                                 && EliminarMuestra in slot.data.permissions.value
    ensures c.puedeEditar <==> hasWindow && slot.Stored? && slot.data.permissions.Some?
                               && EditarMuestra in slot.data.permissions.value
    ensures c.puedeVerDetalles <==> hasWindow && slot.Stored? && slot.data.permissions.Some?
                                    && VerDetallesMuestra in slot.data.permissions.value
    ensures c.puedeVerNotas <==> hasWindow && slot.Stored? && slot.data.permissions.Some?
                                 && VerNotasMuestras in slot.data.permissions.value
  {
    Controls(
      HasPermission(hasWindow, slot, EliminarMuestra),
      HasPermission(hasWindow, slot, EditarMuestra),
      HasPermission(hasWindow, slot, VerDetallesMuestra),
      HasPermission(hasWindow, slot, VerNotasMuestras))
  }

  /** With nothing stored every action is hidden. */
  lemma NoSnapshotNoActions(hasWindow: bool)
    ensures ActionControls(hasWindow, Empty) == Controls(false, false, false, false)
  {
  }
}
