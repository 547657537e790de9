/**
 * The samples page: the list of samples narrowed by client name, status
 * and a registration date range, and the button that clears the filters.
 */
module SamplesPage {
  import opened Wrappers
  import opened Schema
  import opened Text
  import opened Seqs
  import opened Muestras
  import opened Dashboard

  /**
   * The filter inputs: the client text, the selected status, and the first
   * and last day of the date range (day numbers), each unset when absent.
   */
  datatype Filters = Filters(cliente: string, estado: Option<Id>, fechaInicio: Option<int>, fechaFin: Option<int>)

  /** Every input cleared. */
  const NoFilters: Filters := Filters("", None, None, None)

  /** The client filter's condition: the lower-cased client name includes the lower-cased input. */
  function ClienteMatches(input: string): MuestraDetalle -> bool
  {
    (m: MuestraDetalle) => Contains(ToLower(m.clienteNombre), ToLower(input))
  }

  /** The status filter's condition. */
  function EstadoIs(estado: Id): MuestraDetalle -> bool
  {
    (m: MuestraDetalle) => m.muestra.estado == estado
  }

  /** The date filter's condition: registered between the two instants, both included. */
  function RegisteredBetween(from: Millis, to: Millis): MuestraDetalle -> bool
  {
    (m: MuestraDetalle) => m.muestra.fechaRegistro >= from && m.muestra.fechaRegistro <= to
  }

  /** One stage of the pipeline: filter by `p` when the stage is active, keep everything otherwise. */
  function Stage(data: seq<MuestraDetalle>, active: bool, p: MuestraDetalle -> bool): (r: seq<MuestraDetalle>)
    ensures IsSubsequence(r, data)
    ensures forall m :: m in r <==> m in data && (!active || p(m))
  {
    if active then
      FilterIsSubsequence(data, p);
      Filter(data, p)
    else
      SubsequenceRefl(data);
      data
  }

  /** The date range applies only when both days are set and the first is not after the last. */
  predicate DateRangeActive(f: Filters)
  {
    f.fechaInicio.Some? && f.fechaFin.Some? && StartOfDay(f.fechaInicio.value) <= EndOfDay(f.fechaFin.value)
  }

  /** Comparing the two instants is comparing the two days. */
  lemma DateRangeActiveIffOrdered(f: Filters)
    requires f.fechaInicio.Some? && f.fechaFin.Some?
    ensures DateRangeActive(f) <==> f.fechaInicio.value <= f.fechaFin.value
  {
    var a, b := f.fechaInicio.value, f.fechaFin.value;
    if a > b {
      assert a * MsPerDay >= b * MsPerDay + MsPerDay;
    }
  }

  /**
   * `filteredData`: nothing while the samples load; otherwise the client
   * filter when its text is non-empty, then the status filter when a status
   * is selected, then the date filter when the range is active.
   */
  function FilteredData(todas: Option<seq<MuestraDetalle>>, f: Filters): (r: seq<MuestraDetalle>)
    ensures todas.None? ==> r == []
    ensures todas.Some? ==> IsSubsequence(r, todas.value)
  {
    if todas.None? then []
    else
      var data0 := todas.value;
      var data1 := Stage(data0, f.cliente != "", ClienteMatches(f.cliente));
      var data2 := Stage(data1, f.estado.Some?, if f.estado.Some? then EstadoIs(f.estado.value) else _ => true);
      var data3 := Stage(data2, DateRangeActive(f),
                         if DateRangeActive(f) then RegisteredBetween(StartOfDay(f.fechaInicio.value), EndOfDay(f.fechaFin.value))
                         else _ => true);
      SubsequenceTrans(data2, data1, data0);
      SubsequenceTrans(data3, data2, data0);
      data3
  }

  /**
   * Whether a sample passes every active filter, stated directly: its
   * client name includes the text, it has the selected status, and it was
   * registered from the first day's midnight to the last day's final millisecond.
   */
  predicate Passes(f: Filters, m: MuestraDetalle)
  {
    && (f.cliente == "" || Contains(ToLower(m.clienteNombre), ToLower(f.cliente)))
    && (f.estado.None? || m.muestra.estado == f.estado.value)
    && (!(f.fechaInicio.Some? && f.fechaFin.Some? && f.fechaInicio.value <= f.fechaFin.value) ||
        StartOfDay(f.fechaInicio.value) <= m.muestra.fechaRegistro <= EndOfDay(f.fechaFin.value))
  }

  /** The pipeline keeps exactly the loaded samples that pass every active filter. */
  lemma FilteredDataKeepsPassing(todas: seq<MuestraDetalle>, f: Filters, m: MuestraDetalle)
    ensures m in FilteredData(Some(todas), f) <==> m in todas && Passes(f, m)
  {
    if f.fechaInicio.Some? && f.fechaFin.Some? {
      DateRangeActiveIffOrdered(f);
    }
  }

  /** With every input cleared the page lists every loaded sample, in order. */
  lemma ClearedShowsAll(todas: seq<MuestraDetalle>)
    ensures FilteredData(Some(todas), NoFilters) == todas
  {
  }

  /** The page's filter inputs. */
  class FilterInputs {
    var clienteInput: string
    var estadoInput: Option<Id>
    var fechaInicioInput: Option<int>
    var fechaFinInput: Option<int>

    /** The inputs as one value. */
    function Current(): Filters
      reads this
    {
      Filters(clienteInput, estadoInput, fechaInicioInput, fechaFinInput)
    }

    /** The page opens with every input cleared. */
    constructor ()
      ensures Current() == NoFilters
    {
      clienteInput, estadoInput, fechaInicioInput, fechaFinInput := "", None, None, None;
    }

    /** `limpiarFiltros`: clear every input. */
    method LimpiarFiltros()
      modifies this
      ensures Current() == NoFilters
    {
      clienteInput := "";
      estadoInput := None;
      fechaInicioInput := None;
      fechaFinInput := None;
    }
  }
}
