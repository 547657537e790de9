/**
 * The dashboard statistics: how many clients there are, how many samples
 * still lack results, and how many samples were registered today, this
 * week, this month and this year.
 */
module Dashboard {
  import opened Wrappers
  import opened Schema
  import opened Store
  import opened Seqs
  import Muestras

  /** Some result of the list has a null value (`resultados.some(r => r.valor === null)`). */
  predicate HasNullValue(resultados: seq<Resultado>)
  {
    exists i :: 0 <= i < |resultados| && resultados[i].valor == Nulo
  }

  /** A sample still lacks results: its list is absent or empty, or some value in it is null. */
  predicate Pending(m: Muestra)
  {
    m.resultados.None? || |m.resultados.value| == 0 || HasNullValue(m.resultados.value)
  }

  /** Every sample `createMuestra` inserts is pending, whatever the analysis's fields. */
  lemma FreshSampleIsPending(campos: seq<Campo>, clienteId: Id, estado: Id, analisisNombre: string, now: Millis)
    ensures Pending(Muestra(clienteId, Some(Muestras.InitialResults(campos)), estado, analisisNombre, now, now))
  {
    if |campos| > 0 {
      assert Muestras.InitialResults(campos)[0].valor == Nulo;
    }
  }

  /** A sample with at least one result and a value in every result is not pending. */
  lemma CompleteSampleNotPending(m: Muestra)
    requires m.resultados.Some? && |m.resultados.value| > 0
    requires forall i :: 0 <= i < |m.resultados.value| ==> m.resultados.value[i].valor != Nulo
    ensures !Pending(m)
  {
  }

  /** Every row of `m` below `bound`, in creation order (`.collect()`). */
  function Rows<T>(m: map<Id, T>, bound: nat): (r: seq<T>)
    ensures |r| <= bound
  {
    if bound == 0 then []
    else Rows(m, bound - 1) + (if bound - 1 in m then [m[bound - 1]] else [])
  }

  /** The ids of `m` below `bound` whose row satisfies `p`. */
  function IdsBelow<T>(m: map<Id, T>, p: T -> bool, bound: nat): set<Id>
  {
    set id | id in m && id < bound && p(m[id])
  }

  /** The ids of `m` whose row satisfies `p`. */
  function IdsWhere<T>(m: map<Id, T>, p: T -> bool): set<Id>
  {
    set id | id in m && p(m[id])
  }

  /** Filtering a concatenation filters each part. */
  lemma {:induction false} FilterAppend<T(!new)>(a: seq<T>, b: seq<T>, p: T -> bool)
    ensures Filter(a + b, p) == Filter(a, p) + Filter(b, p)
  {
    if a == [] {
      assert a + b == b;
    } else {
      var head := if p(a[0]) then [a[0]] else [];
      assert (a + b)[0] == a[0] && (a + b)[1..] == a[1..] + b;
      calc {
        Filter(a + b, p);
        head + Filter(a[1..] + b, p);
        { FilterAppend(a[1..], b, p); }
        head + (Filter(a[1..], p) + Filter(b, p));
        (head + Filter(a[1..], p)) + Filter(b, p);
        Filter(a, p) + Filter(b, p);
      }
    }
  }

  /** Filtering the collected rows keeps one row per matching id. */
  lemma {:induction false} RowsFilterCount<T(!new)>(m: map<Id, T>, p: T -> bool, bound: nat)
    ensures |Filter(Rows(m, bound), p)| == |IdsBelow(m, p, bound)|
  {
    if bound > 0 {
      var id := bound - 1;
      RowsFilterCount(m, p, id);
      var last := if id in m then [m[id]] else [];
      assert Rows(m, bound) == Rows(m, id) + last;
      FilterAppend(Rows(m, id), last, p);
      IdsBelowStep(m, p, id);
    }
  }

  /** Raising the bound by one adds the id `id` exactly when its row matches, and one row to the filter. */
  lemma IdsBelowStep<T(!new)>(m: map<Id, T>, p: T -> bool, id: nat)
    ensures var last := if id in m then [m[id]] else [];
            && (id in m && p(m[id]) ==> IdsBelow(m, p, id + 1) == IdsBelow(m, p, id) + {id} && Filter(last, p) == [m[id]])
            && (!(id in m && p(m[id])) ==> IdsBelow(m, p, id + 1) == IdsBelow(m, p, id) && Filter(last, p) == [])
  {
    var last := if id in m then [m[id]] else [];
    if id in m {
      assert Filter(last, p) == (if p(m[id]) then [m[id]] else []) + Filter(last[1..], p);
      assert last[1..] == [];
    }
  }

  /** Every row is collected once. */
  lemma {:induction false} RowsCount<T>(m: map<Id, T>, bound: nat)
    ensures |Rows(m, bound)| == |set id | id in m && id < bound|
  {
    if bound > 0 {
      var id := bound - 1;
      RowsCount(m, id);
      if id in m {
        assert (set k | k in m && k < bound) == (set k | k in m && k < id) + {id};
      } else {
        assert (set k | k in m && k < bound) == (set k | k in m && k < id);
      }
    }
  }

  /** Below the counter, the matching ids are all the matching ids. */
  lemma AllBelowBound<T>(m: map<Id, T>, p: T -> bool, bound: nat)
    requires Bounded(m, bound)
    ensures IdsBelow(m, p, bound) == IdsWhere(m, p)
    ensures (set id | id in m && id < bound) == m.Keys
  {
  }

  /** Whether a sample was registered at or after `t`. */
  function RegisteredSince(t: Millis): Muestra -> bool
  {
    (m: Muestra) => m.fechaRegistro >= t
  }

  /** The samples registered at or after `t`. */
  function SinceIds(muestras: map<Id, Muestra>, t: Millis): set<Id>
  {
    set id | id in muestras && muestras[id].fechaRegistro >= t
  }

  /** The samples that still lack results. */
  function PendingIds(muestras: map<Id, Muestra>): set<Id>
  {
    set id | id in muestras && Pending(muestras[id])
  }

  /** The start of today, this week (Monday), this month and this year, in milliseconds. */
  datatype Thresholds = Thresholds(startOfDay: Millis, startOfWeek: Millis, startOfMonth: Millis, startOfYear: Millis)

  /** What `getDashboardStats` returns. */
  datatype DashboardStats = DashboardStats(
    totalClientes: nat,
    muestrasSinResultados: nat,
    muestrasHoy: nat,
    muestrasSemana: nat,
    muestrasMes: nat,
    muestrasAno: nat)

  /** How many rows of `m` satisfy `p`, by a filter over the collected rows. */
  function CountRows(m: map<Id, Muestra>, p: Muestra -> bool, bound: nat): (n: nat)
    requires Bounded(m, bound)
    ensures n == |IdsWhere(m, p)|
  {
    RowsFilterCount(m, p, bound);
    AllBelowBound(m, p, bound);
    |Filter(Rows(m, bound), p)|
  }

  /**
   * `getDashboardStats`: the number of clients, of pending samples, and of
   * samples registered at or after each threshold.
   */
  function GetDashboardStats(clientes: map<Id, Cliente>, muestras: map<Id, Muestra>, bound: nat, t: Thresholds)
    : (r: DashboardStats)
    requires Bounded(clientes, bound) && Bounded(muestras, bound)
    ensures r.totalClientes == |clientes|
    ensures r.muestrasSinResultados == |PendingIds(muestras)|
    ensures r.muestrasHoy == |SinceIds(muestras, t.startOfDay)|
    ensures r.muestrasSemana == |SinceIds(muestras, t.startOfWeek)|
    ensures r.muestrasMes == |SinceIds(muestras, t.startOfMonth)|
    ensures r.muestrasAno == |SinceIds(muestras, t.startOfYear)|
  {
    RowsCount(clientes, bound);
    AllBelowBound(clientes, _ => true, bound);
    var sinResultados := CountRows(muestras, Pending, bound);
    assert IdsWhere(muestras, Pending) == PendingIds(muestras);
    DashboardStats(
      |Rows(clientes, bound)|,
      sinResultados,
      SinceCount(muestras, t.startOfDay, bound),
      SinceCount(muestras, t.startOfWeek, bound),
      SinceCount(muestras, t.startOfMonth, bound),
      SinceCount(muestras, t.startOfYear, bound))
  }

  /** How many samples were registered at or after `t`. */
  function SinceCount(muestras: map<Id, Muestra>, t: Millis, bound: nat): (n: nat)
    requires Bounded(muestras, bound)
    ensures n == |SinceIds(muestras, t)|
  {
    var n := CountRows(muestras, RegisteredSince(t), bound);
    assert IdsWhere(muestras, RegisteredSince(t)) == SinceIds(muestras, t);
    n
  }

  /** A subset is no larger than its superset. */
  lemma SubsetNoLarger(a: set<Id>, b: set<Id>)
    requires a <= b
    ensures |a| <= |b|
  {
    assert b == (b - a) + a;
  }

  /** An earlier threshold counts at least as many samples. */
  lemma SinceMonotone(muestras: map<Id, Muestra>, early: Millis, late: Millis, bound: nat)
    requires Bounded(muestras, bound) && early <= late
    ensures SinceCount(muestras, late, bound) <= SinceCount(muestras, early, bound) <= |muestras|
  {
    SubsetNoLarger(SinceIds(muestras, late), SinceIds(muestras, early));
    SubsetNoLarger(SinceIds(muestras, early), muestras.Keys);
  }

  /**
   * With earlier thresholds for longer periods, the counts grow with the
   * period: today's count is at most this week's and this month's, and
   * this month's at most this year's; pending samples are some of the samples.
   */
  lemma CountsOrdered(clientes: map<Id, Cliente>, muestras: map<Id, Muestra>, bound: nat, t: Thresholds)
    requires Bounded(clientes, bound) && Bounded(muestras, bound)
    requires t.startOfYear <= t.startOfMonth <= t.startOfDay && t.startOfWeek <= t.startOfDay
    ensures var r := GetDashboardStats(clientes, muestras, bound, t);
            && r.muestrasHoy <= r.muestrasSemana
            && r.muestrasHoy <= r.muestrasMes <= r.muestrasAno
            && r.muestrasAno <= |muestras| && r.muestrasSinResultados <= |muestras|
  {
    SinceMonotone(muestras, t.startOfWeek, t.startOfDay, bound);
    SinceMonotone(muestras, t.startOfMonth, t.startOfDay, bound);
    SinceMonotone(muestras, t.startOfYear, t.startOfMonth, bound);
    SubsetNoLarger(PendingIds(muestras), muestras.Keys);
  }

  /** Milliseconds in a day. */
  const MsPerDay: int := 86400000

  /** Midnight at the start of day number `day` (days counted in local time). */
  function StartOfDay(day: int): Millis
  {
    day * MsPerDay
  }

  /** The last millisecond of day number `day` (23:59:59.999). */
  function EndOfDay(day: int): Millis
  {
    StartOfDay(day) + MsPerDay - 1
  }

  /**
   * Days since Monday, from the weekday number with 0 for Sunday: 6 on a
   * Sunday and one less than the weekday number otherwise.
   */
  function WeekOffset(dayOfWeek: int): (d: int)
    requires 0 <= dayOfWeek <= 6
    ensures 0 <= d <= 6
    ensures d == (dayOfWeek + 6) % 7
    ensures (dayOfWeek - d + 7) % 7 == 1
  {
    if dayOfWeek == 0 then 6 else dayOfWeek - 1
  }

  /**
   * The current date: its day number, its weekday (0 for Sunday), and its
   * day of the month and of the year, both counted from 1.
   */
  datatype Today = Today(day: int, dayOfWeek: int, dayOfMonth: int, dayOfYear: int)

  /** A date as the calendar gives it: a weekday in 0..6, and no later in the month than in the year. */
  predicate ValidToday(t: Today)
  {
    0 <= t.dayOfWeek <= 6 && 1 <= t.dayOfMonth <= t.dayOfYear
  }

  /**
   * The four thresholds for a date: midnight today, midnight of this
   * week's Monday, of the first of the month and of the first of January.
   */
  function ThresholdsFor(t: Today): (r: Thresholds)
    requires ValidToday(t)
    ensures r.startOfYear <= r.startOfMonth <= r.startOfDay
    ensures r.startOfWeek <= r.startOfDay
    ensures r.startOfDay - r.startOfWeek == WeekOffset(t.dayOfWeek) * MsPerDay
    ensures r.startOfDay - r.startOfWeek < 7 * MsPerDay
  {
    Thresholds(
      StartOfDay(t.day),
      StartOfDay(t.day - WeekOffset(t.dayOfWeek)),
      StartOfDay(t.day - (t.dayOfMonth - 1)),
      StartOfDay(t.day - (t.dayOfYear - 1)))
  }

  /** On any date the dashboard's counts come out ordered. */
  lemma CountsOrderedOnAnyDate(clientes: map<Id, Cliente>, muestras: map<Id, Muestra>, bound: nat, today: Today)
    requires Bounded(clientes, bound) && Bounded(muestras, bound) && ValidToday(today)
    ensures var r := GetDashboardStats(clientes, muestras, bound, ThresholdsFor(today));
            && r.muestrasHoy <= r.muestrasSemana
            && r.muestrasHoy <= r.muestrasMes <= r.muestrasAno
  {
    CountsOrdered(clientes, muestras, bound, ThresholdsFor(today));
  }
}
