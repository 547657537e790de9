/**
 * The scan button: a decoded QR text selects the sample whose id it is,
 * the selected sample's results are edited as text, and the edit is saved
 * through `updateMuestra`.
 */
module ScanSample {
  import opened Wrappers
  import opened Schema
  import Store
  import opened Muestras
  import opened ClientPermissions

  /** The character of a decimal digit. */
  function DigitChar(d: nat): char
    requires d < 10
  {
    (('0' as int) + d) as char
  }

  /** The decimal digits of `n`, most significant first, with no leading zero. */
  function NatToString(n: nat): (s: string)
    ensures |s| >= 1
    ensures forall i :: 0 <= i < |s| ==> '0' <= s[i] <= '9'
    decreases n
  {
    if n < 10 then [DigitChar(n)] else NatToString(n / 10) + [DigitChar(n % 10)]
  }

  /** The number a string of decimal digits spells. */
  function ParseNat(s: string): nat
    requires forall i :: 0 <= i < |s| ==> '0' <= s[i] <= '9'
  {
    if s == [] then 0
    else ParseNat(s[..|s| - 1]) * 10 + ((s[|s| - 1] as int) - ('0' as int))
  }

  /** Reading the digits of `n` gives back `n`. */
  lemma {:induction false} NatToStringRoundTrip(n: nat)
    ensures ParseNat(NatToString(n)) == n
    decreases n
  {
    if n >= 10 {
      NatToStringRoundTrip(n / 10);
      var s := NatToString(n);
      assert s[..|s| - 1] == NatToString(n / 10);
    }
  }

  /** Different numbers have different digits. */
  lemma NatToStringInjective(a: nat, b: nat)
    ensures NatToString(a) == NatToString(b) ==> a == b
  {
    NatToStringRoundTrip(a);
    NatToStringRoundTrip(b);
  }

  /** `String(n)` for a whole number: its digits, after a minus sign when negative. */
  function IntToString(n: int): string
  {
    if n < 0 then "-" + NatToString(-n) else NatToString(n)
  }

  /** `String(v)` for a stored value that is not null. */
  function ValorText(v: Valor): string
    requires !v.Nulo?
  {
    match v
    case Texto(s) => s
    case Numero(n) => IntToString(n)
    case Booleano(b) => if b then "true" else "false"
  }

  /** The text a document id is printed as, and so the text its QR code holds. */
  function IdText(id: Id): string
  {
    NatToString(id)
  }

  /**
   * `todasLasMuestras.find(m => m._id === decodedText)`: the position of
   * the first sample whose id is the decoded text, if any.
   */
  function FindById(todas: seq<MuestraDetalle>, decoded: string): (r: Option<nat>)
    ensures r.None? <==> forall i :: 0 <= i < |todas| ==> IdText(todas[i].id) != decoded
    ensures r.Some? ==> r.value < |todas| && IdText(todas[r.value].id) == decoded
    ensures r.Some? ==> forall i :: 0 <= i < r.value ==> IdText(todas[i].id) != decoded
  {
    if todas == [] then None
    else if IdText(todas[0].id) == decoded then Some(0)
    else
      var rest := FindById(todas[1..], decoded);
      if rest.None? then None else Some(rest.value + 1)
  }

  /** The text of a sample's id finds that sample in any list of distinct samples that holds it. */
  lemma ScanningAnIdFindsIt(todas: seq<MuestraDetalle>, k: nat)
    requires k < |todas|
    requires forall i, j :: 0 <= i < j < |todas| ==> todas[i].id != todas[j].id
    ensures FindById(todas, IdText(todas[k].id)) == Some(k)
  {
    var r := FindById(todas, IdText(todas[k].id));
    if r.value != k {
      NatToStringInjective(todas[r.value].id, todas[k].id);
    }
  }

  /** The value the edit form shows: an empty box for null, the value's text otherwise. */
  function LoadValor(v: Valor): (r: string)
    ensures v.Nulo? ==> r == ""
    ensures !v.Nulo? ==> r == ValorText(v)
  {
    if v.Nulo? then "" else ValorText(v)
  }

  /** The value saved for a box: null for an empty or missing box, its text otherwise. */
  function SubmitValor(box: Option<string>): (r: Valor)
    ensures box.None? || box == Some("") ==> r == Nulo
    ensures box.Some? && box.value != "" ==> r == Texto(box.value)
  {
    if box.None? || box.value == "" then Nulo else Texto(box.value)
  }

  /** One row of the edit form: the result's fields, with its value as a text box. */
  datatype FormRow = FormRow(nombre: string, medicion: string, estandar: string, valor: Option<string>)

  /** The form's rows for a sample: one per result, none when the sample has no result list. */
  function LoadForm(resultados: Option<seq<Resultado>>): (r: seq<FormRow>)
    ensures resultados.None? ==> r == []
    ensures resultados.Some? ==> |r| == |resultados.value|
    ensures resultados.Some? ==> forall i :: 0 <= i < |r| ==>
              var res := resultados.value[i];
              r[i] == FormRow(res.nombre, res.medicion, res.estandar, Some(LoadValor(res.valor)))
  {
    var rs := if resultados.Some? then resultados.value else [];
    seq(|rs|, i requires 0 <= i < |rs| => FormRow(rs[i].nombre, rs[i].medicion, rs[i].estandar, Some(LoadValor(rs[i].valor))))
  }

  /** The results sent to `updateMuestra` for the form's rows. */
  function SubmitForm(rows: seq<FormRow>): (r: seq<Resultado>)
    ensures |r| == |rows|
    ensures forall i :: 0 <= i < |r| ==>
              r[i] == Resultado(rows[i].nombre, rows[i].medicion, rows[i].estandar, SubmitValor(rows[i].valor))
  {
    seq(|rows|, i requires 0 <= i < |rows| =>
          Resultado(rows[i].nombre, rows[i].medicion, rows[i].estandar, SubmitValor(rows[i].valor)))
  }

  /**
   * Saving a scanned sample without edits keeps null values and non-empty
   * strings, turns an empty string into null, and stores a number or a
   * boolean as its text.
   */
  lemma ValorRoundTrip(v: Valor)
    ensures v.Nulo? ==> SubmitValor(Some(LoadValor(v))) == Nulo
    ensures v == Texto("") ==> SubmitValor(Some(LoadValor(v))) == Nulo
    ensures v.Texto? && v.text != "" ==> SubmitValor(Some(LoadValor(v))) == v
    ensures v.Numero? ==> SubmitValor(Some(LoadValor(v))) == Texto(IntToString(v.num))
    ensures v.Booleano? ==> SubmitValor(Some(LoadValor(v))) == Texto(if v.flag then "true" else "false")
  {
    if v.Numero? {
      assert IntToString(v.num) != "";
    }
  }

  /** The permission the scan button needs. */
  const EditarMuestra := "EditarMuestra"

  /** The button renders only in the browser, once the user has loaded, with "EditarMuestra" stored. */
  function Renders(isClient: bool, isLoaded: bool, hasWindow: bool, slot: Slot): (r: bool)
    ensures r <==> isClient && isLoaded && hasWindow && slot.Stored? && slot.data.permissions.Some?
                   && EditarMuestra in slot.data.permissions.value
  {
    isClient && isLoaded && HasPermission(hasWindow, slot, EditarMuestra)
  }

  /** The scan button's state: the scanner dialog, the selected sample and the edit form. */
  class ScanState {
    var isScannerOpen: bool
    var scanned: Option<MuestraDetalle>
    var formEstado: Id
    var formRows: seq<FormRow>

    /** Scanner closed, nothing selected. */
    constructor ()
      ensures !isScannerOpen && scanned.None? && formRows == []
    {
      isScannerOpen := false;
      scanned := None;
      formEstado := 0;
      formRows := [];
    }

    /** "Escanear Muestra" opens the scanner. */
    method OpenScanner()
      modifies this`isScannerOpen
      ensures isScannerOpen
    {
      isScannerOpen := true;
    }

    /**
     * `handleScanSuccess`: the scanner closes; the first listed sample whose
     * id is the decoded text is selected and the form reset to it, or,
     * when there is none, the selection stays and the scan is reported not found.
     */
    method HandleScanSuccess(todas: seq<MuestraDetalle>, decoded: string) returns (notFound: bool)
      modifies this
      ensures !isScannerOpen
      ensures notFound <==> forall i :: 0 <= i < |todas| ==> IdText(todas[i].id) != decoded
      ensures notFound ==> scanned == old(scanned) && formEstado == old(formEstado) && formRows == old(formRows)
      ensures !notFound ==>
                var k := FindById(todas, decoded).value;
                && scanned == Some(todas[k])
                && formEstado == todas[k].muestra.estado
                && formRows == LoadForm(todas[k].muestra.resultados)
    {
      isScannerOpen := false;
      var found := FindById(todas, decoded);
      if found.None? {
        return true;
      }
      var m := todas[found.value];
      scanned := Some(m);
      formEstado := m.muestra.estado;
      formRows := LoadForm(m.muestra.resultados);
      return false;
    }

    /** `handleScanError`: whatever the error, the scanner closes and the selection stays. */
    method HandleScanError()
      modifies this`isScannerOpen
      ensures !isScannerOpen
    {
      isScannerOpen := false;
    }

    /**
     * `onUpdateSubmit`: without a selection nothing happens; otherwise the
     * selected sample's status and results are patched and, once that
     * succeeds, the selection is cleared.
     */
    method OnUpdateSubmit(db: Store.Database, estado: Id, rows: seq<FormRow>, now: Millis) returns (ok: bool)
      requires db.Valid()
      modifies this`scanned, db`muestras
      ensures db.Valid()
      ensures old(scanned).None? ==> !ok && scanned == old(scanned) && db.muestras == old(db.muestras)
      ensures old(scanned).Some? ==>
                var id := old(scanned).value.id;
                && (ok <==> id in old(db.muestras))
                && (ok ==> db.muestras == old(db.muestras)[id := Patch(old(db.muestras)[id], None, Some(estado),
                                                                      Some(SubmitForm(rows)), now)]
                           && scanned.None?)
                && (!ok ==> db.muestras == old(db.muestras) && scanned == old(scanned))
    {
      if scanned.None? {
        return false;
      }
      ok := UpdateMuestra(db, scanned.value.id, None, Some(estado), Some(SubmitForm(rows)), now);
      if ok {
        scanned := None;
      }
    }
  }
}
