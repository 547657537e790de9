/**
 * The hosted document database: one map per table from document id to
 * record, and the three ways the handlers read a table (`collect` in
 * creation order, `.first()` and `.unique()`).
 */
module Store {
  import opened Wrappers
  import opened Schema

  /** Every id of `m` is below `bound`, i.e. was handed out before the counter reached `bound`. */
  predicate Bounded<T>(m: map<Id, T>, bound: nat)
  {
    forall id :: id in m ==> id < bound
  }

  /**
   * The ids of the rows of `m` whose record satisfies `p`, in creation
   * order, counting ids below `bound` (a `.filter(p).collect()`).
   */
  function Where<T>(m: map<Id, T>, p: T -> bool, bound: nat): (r: seq<Id>)
    decreases bound
  {
    if bound == 0 then []
    else
      var id := bound - 1;
      Where(m, p, id) + (if id in m && p(m[id]) then [id] else [])
  }

  /** `Where` lists, oldest first, exactly the matching rows below `bound`. */
  lemma {:induction false} WhereSpec<T>(m: map<Id, T>, p: T -> bool, bound: nat)
    ensures forall i :: 0 <= i < |Where(m, p, bound)| ==>
      Where(m, p, bound)[i] < bound && Where(m, p, bound)[i] in m && p(m[Where(m, p, bound)[i]])
    ensures forall id :: id in m && id < bound && p(m[id]) ==> id in Where(m, p, bound)
    ensures forall i, j :: 0 <= i < j < |Where(m, p, bound)| ==> Where(m, p, bound)[i] < Where(m, p, bound)[j]
  {
    if bound > 0 {
      WhereSpec(m, p, bound - 1);
    }
  }

  /** `Where` adds the id `bound - 1` after the older ones. */
  lemma WhereStep<T>(m: map<Id, T>, p: T -> bool, bound: nat)
    requires bound > 0
    ensures Where(m, p, bound)
         == Where(m, p, bound - 1) + (if bound - 1 in m && p(m[bound - 1]) then [bound - 1] else [])
  {
  }

  /** The outcome of `.unique()`: no row, the only row, or several rows (the query throws). */
  datatype Lookup = NoMatch | Match(id: Id) | Ambiguous

  /** `.unique()` over the rows that satisfy `p`. */
  function Unique<T>(m: map<Id, T>, p: T -> bool, bound: nat): (r: Lookup)
    requires Bounded(m, bound)
    ensures r.NoMatch? <==> forall id :: id in m ==> !p(m[id])
    ensures r.Match? ==> r.id in m && p(m[r.id]) && forall id :: id in m && p(m[id]) ==> id == r.id
    ensures r.Ambiguous? <==> exists a, b :: a in m && b in m && a != b && p(m[a]) && p(m[b])
  {
    var ids := Where(m, p, bound);
    WhereSpec(m, p, bound);
    if |ids| == 0 then NoMatch
    else if |ids| == 1 then
      assert forall id :: id in m && p(m[id]) ==> id == ids[0] by {
        forall id | id in m && p(m[id]) ensures id == ids[0] {
          assert id in ids;
        }
      }
      Match(ids[0])
    else
      assert ids[0] != ids[1];
      Ambiguous
  }

  /** When exactly one row satisfies `p`, `.unique()` returns that row. */
  lemma UniqueOfOnlyMatch<T>(m: map<Id, T>, p: T -> bool, bound: nat, id: Id)
    requires Bounded(m, bound)
    requires id in m && p(m[id]) && forall k :: k in m && p(m[k]) ==> k == id
    ensures Unique(m, p, bound) == Match(id)
  {
    match Unique(m, p, bound)
    case NoMatch => assert false;
    case Ambiguous => assert false;
    case Match(k) =>
  }

  /** `.first()` over the rows that satisfy `p`: the oldest one, if any. */
  function First<T>(m: map<Id, T>, p: T -> bool, bound: nat): (r: Option<Id>)
    requires Bounded(m, bound)
    ensures r.None? <==> forall id :: id in m ==> !p(m[id])
    ensures r.Some? ==> r.value in m && p(m[r.value]) && forall id :: id in m && p(m[id]) ==> r.value <= id
  {
    var ids := Where(m, p, bound);
    WhereSpec(m, p, bound);
    if |ids| == 0 then None
    else
      assert forall id :: id in m && p(m[id]) ==> ids[0] <= id by {
        forall id | id in m && p(m[id]) ensures ids[0] <= id {
          assert id in ids;
        }
      }
      Some(ids[0])
  }

  /** Every row, in creation order (`.collect()`). */
  function All<T>(m: map<Id, T>, bound: nat): (r: seq<Id>)
    requires Bounded(m, bound)
    ensures forall id :: id in r <==> id in m
    ensures forall i, j :: 0 <= i < j < |r| ==> r[i] < r[j]
  {
    WhereSpec(m, _ => true, bound);
    Where(m, _ => true, bound)
  }

  /** The hosted database: one map per table, and the counter that hands out fresh ids. */
  class Database {
    var clientes: map<Id, Cliente>
    var estados: map<Id, EstadoMuestra>
    var analisis: map<Id, Analisis>
    var muestras: map<Id, Muestra>
    var usuarios: map<Id, Usuario>
    var roles: map<Id, Rol>
    var rolPer: map<Id, RolPer>
    var permisos: map<Id, Permiso>
    var nextId: nat

    /** Every stored id was handed out by the counter. */
    ghost predicate Valid()
      reads this
    {
      && Bounded(clientes, nextId)
      && Bounded(estados, nextId)
      && Bounded(analisis, nextId)
      && Bounded(muestras, nextId)
      && Bounded(usuarios, nextId)
      && Bounded(roles, nextId)
      && Bounded(rolPer, nextId)
      && Bounded(permisos, nextId)
    }

    /** An empty database. */
    constructor ()
      ensures Valid() && nextId == 0
      ensures clientes == map[] && estados == map[] && analisis == map[] && muestras == map[]
      ensures usuarios == map[] && roles == map[] && rolPer == map[] && permisos == map[]
    {
      clientes, estados, analisis, muestras := map[], map[], map[], map[];
      usuarios, roles, rolPer, permisos := map[], map[], map[], map[];
      nextId := 0;
    }

    /** Hands out a fresh id, one no table holds yet (the id part of `db.insert`). */
    method NewId() returns (id: Id)
      requires Valid()
      modifies this`nextId
      ensures Valid()
      ensures id == old(nextId) && nextId == id + 1
      ensures id !in clientes && id !in estados && id !in analisis && id !in muestras
      ensures id !in usuarios && id !in roles && id !in rolPer && id !in permisos
    {
      id := nextId;
      nextId := nextId + 1;
    }
  }
}
