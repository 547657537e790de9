/**
 * The sample handlers: reading samples with their client's name and their
 * status's name and colour, creating a sample from an analysis's fields,
 * patching and deleting one.
 */
module Muestras {
  import opened Wrappers
  import opened Schema
  import opened Store

  /** A sample as the readers return it: the document with three display fields added. */
  datatype MuestraDetalle = MuestraDetalle(
    id: Id,
    muestra: Muestra,
    clienteNombre: string,
    estadoNombre: string,
    estadoColor: string)

  /** The colour shown for a sample whose status is missing. */
  const GrisPorDefecto := "#808080"

  /** The error `getMuestraById` raises for a missing sample. */
  const MuestraNoEncontrada := "Muestra no encontrada"

  /** The error `createMuestra` raises for a missing analysis. */
  const AnalisisNoExiste := "El tipo de análisis seleccionado no existe."

  /**
   * The sample `id` with its display fields: the client's full name and
   * the status's name and colour when those documents exist, the given
   * defaults otherwise (the colour default is always grey).
   */
  function WithDetails(clientes: map<Id, Cliente>, estados: map<Id, EstadoMuestra>, id: Id, m: Muestra,
                       noCliente: string, noEstado: string): (d: MuestraDetalle)
    ensures d.id == id && d.muestra == m
    ensures m.clienteId in clientes ==> d.clienteNombre == clientes[m.clienteId].nombreCompleto
    ensures m.clienteId !in clientes ==> d.clienteNombre == noCliente
    ensures m.estado in estados ==> d.estadoNombre == estados[m.estado].estado && d.estadoColor == estados[m.estado].color
    ensures m.estado !in estados ==> d.estadoNombre == noEstado && d.estadoColor == GrisPorDefecto
  {
    var clienteNombre := if m.clienteId in clientes then clientes[m.clienteId].nombreCompleto else noCliente;
    var estadoNombre := if m.estado in estados then estados[m.estado].estado else noEstado;
    var estadoColor := if m.estado in estados then estados[m.estado].color else GrisPorDefecto;
    MuestraDetalle(id, m, clienteNombre, estadoNombre, estadoColor)
  }

  /** The ids of `ids` in reverse order. */
  function Reverse(ids: seq<Id>): (r: seq<Id>)
    ensures |r| == |ids|
    ensures forall i :: 0 <= i < |r| ==> r[i] == ids[|ids| - 1 - i]
    ensures forall x :: x in r <==> x in ids
  {
    if ids == [] then [] else Reverse(ids[1..]) + [ids[0]]
  }

  /** The samples `ids`, in that order, each with its display fields. */
  function DetailsOf(clientes: map<Id, Cliente>, estados: map<Id, EstadoMuestra>, muestras: map<Id, Muestra>,
                     ids: seq<Id>, noCliente: string, noEstado: string): (r: seq<MuestraDetalle>)
    requires forall id :: id in ids ==> id in muestras
    ensures |r| == |ids|
    ensures forall i :: 0 <= i < |r| ==> r[i].id == ids[i] && r[i].muestra == muestras[ids[i]]
    ensures forall i :: 0 <= i < |r| ==> r[i] == WithDetails(clientes, estados, ids[i], muestras[ids[i]], noCliente, noEstado)
  {
    if ids == [] then []
    else [WithDetails(clientes, estados, ids[0], muestras[ids[0]], noCliente, noEstado)]
         + DetailsOf(clientes, estados, muestras, ids[1..], noCliente, noEstado)
  }

  /** `r` lists every sample exactly once, newest first, each with its own record. */
  ghost predicate ListsEverySampleNewestFirst(r: seq<MuestraDetalle>, muestras: map<Id, Muestra>)
  {
    && (forall id :: id in muestras <==> exists i :: 0 <= i < |r| && r[i].id == id)
    && (forall i :: 0 <= i < |r| ==> r[i].id in muestras && r[i].muestra == muestras[r[i].id])
    && (forall i, j :: 0 <= i < j < |r| ==> r[i].id > r[j].id)
  }

  /**
   * `getMuestras`: every sample, newest first, with "N/A" for a missing
   * client or status and grey for a missing status.
   */
  function GetMuestras(clientes: map<Id, Cliente>, estados: map<Id, EstadoMuestra>, muestras: map<Id, Muestra>,
                       bound: nat): (r: seq<MuestraDetalle>)
    requires Bounded(muestras, bound)
    ensures ListsEverySampleNewestFirst(r, muestras)
  {
    var all := All(muestras, bound);
    NewestFirst(all);
    DetailsNewestFirst(clientes, estados, muestras, Reverse(all));
    DetailsOf(clientes, estados, muestras, Reverse(all), "N/A", "N/A")
  }

  /** The details of the sample ids listed newest first hold each sample once, in that order. */
  lemma DetailsNewestFirst(clientes: map<Id, Cliente>, estados: map<Id, EstadoMuestra>, muestras: map<Id, Muestra>,
                           ids: seq<Id>)
    requires forall id :: id in ids <==> id in muestras
    requires forall i, j :: 0 <= i < j < |ids| ==> ids[i] > ids[j]
    ensures ListsEverySampleNewestFirst(DetailsOf(clientes, estados, muestras, ids, "N/A", "N/A"), muestras)
  {
    var r := DetailsOf(clientes, estados, muestras, ids, "N/A", "N/A");
    forall i | 0 <= i < |r| ensures r[i].id in muestras && r[i].muestra == muestras[r[i].id] {
      assert r[i].id == ids[i] && ids[i] in ids;
    }
    forall id | id in muestras ensures exists i :: 0 <= i < |r| && r[i].id == id {
      var i :| 0 <= i < |ids| && ids[i] == id;
      assert r[i].id == id;
    }
    forall i, j | 0 <= i < j < |r| ensures r[i].id > r[j].id {
      assert r[i].id == ids[i] && r[j].id == ids[j];
    }
  }

  /**
   * Each listed sample shows its client's and status's names and colour,
   * or "N/A" and grey for those that no longer exist.
   */
  lemma GetMuestrasDetails(clientes: map<Id, Cliente>, estados: map<Id, EstadoMuestra>, muestras: map<Id, Muestra>,
                           bound: nat, i: nat)
    requires Bounded(muestras, bound) && i < |GetMuestras(clientes, estados, muestras, bound)|
    ensures var d := GetMuestras(clientes, estados, muestras, bound)[i];
            && (d.muestra.clienteId in clientes ==> d.clienteNombre == clientes[d.muestra.clienteId].nombreCompleto)
            && (d.muestra.clienteId !in clientes ==> d.clienteNombre == "N/A")
            && (d.muestra.estado in estados ==> d.estadoNombre == estados[d.muestra.estado].estado
                                                && d.estadoColor == estados[d.muestra.estado].color)
            && (d.muestra.estado !in estados ==> d.estadoNombre == "N/A" && d.estadoColor == GrisPorDefecto)
  {
  }

  /** Reversing a list of increasing ids gives a list of decreasing ids. */
  lemma NewestFirst(all: seq<Id>)
    requires forall i, j :: 0 <= i < j < |all| ==> all[i] < all[j]
    ensures forall i, j :: 0 <= i < j < |Reverse(all)| ==> Reverse(all)[i] > Reverse(all)[j]
  {
  }

  /**
   * `getMuestraById`: the sample with its display fields, the descriptive
   * defaults for a missing client or status, and an error for a missing sample.
   */
  function GetMuestraById(clientes: map<Id, Cliente>, estados: map<Id, EstadoMuestra>, muestras: map<Id, Muestra>,
                          id: Id): (r: Result<MuestraDetalle>)
    ensures r.Failure? <==> id !in muestras
    ensures r.Failure? ==> r.error == MuestraNoEncontrada
    ensures r.Success? ==> r.value.id == id && r.value.muestra == muestras[id]
    ensures r.Success? && muestras[id].clienteId in clientes ==>
              r.value.clienteNombre == clientes[muestras[id].clienteId].nombreCompleto
    ensures r.Success? && muestras[id].estado in estados ==>
              r.value.estadoNombre == estados[muestras[id].estado].estado
              && r.value.estadoColor == estados[muestras[id].estado].color
    ensures r.Success? && muestras[id].clienteId !in clientes ==> r.value.clienteNombre == "Cliente no encontrado"
    ensures r.Success? && muestras[id].estado !in estados ==>
              r.value.estadoNombre == "Estado no definido" && r.value.estadoColor == GrisPorDefecto
  {
    if id !in muestras then Failure(MuestraNoEncontrada)
    else Success(WithDetails(clientes, estados, id, muestras[id], "Cliente no encontrado", "Estado no definido"))
  }

  /** A pending result for one field of an analysis. */
  function PendingResult(campo: Campo): Resultado
  {
    Resultado(campo.nombre, campo.medicion, campo.valorReferencia, Nulo)
  }

  /**
   * The initial results of a new sample: one per field of its analysis, in
   * order, each a field's name, unit and reference value with no value yet.
   */
  function InitialResults(campos: seq<Campo>): (r: seq<Resultado>)
    ensures |r| == |campos|
    ensures forall i :: 0 <= i < |r| ==> r[i].valor == Nulo
  {
    if campos == [] then [] else [PendingResult(campos[0])] + InitialResults(campos[1..])
  }

  /** The fields a list of results was built from (the reference value is the `estandar`). */
  function TemplateOf(resultados: seq<Resultado>): (r: seq<Campo>)
    ensures |r| == |resultados|
  {
    if resultados == [] then []
    else [Campo(resultados[0].nombre, resultados[0].medicion, resultados[0].estandar)] + TemplateOf(resultados[1..])
  }

  /** The initial results give back exactly the analysis's fields, in order. */
  lemma {:induction false} InitialResultsFollowTemplate(campos: seq<Campo>)
    ensures TemplateOf(InitialResults(campos)) == campos
  {
    if campos != [] {
      InitialResultsFollowTemplate(campos[1..]);
      assert InitialResults(campos)[1..] == InitialResults(campos[1..]);
    }
  }

  /**
   * `createMuestra`: a missing analysis raises an error and inserts nothing;
   * otherwise a new sample with the analysis's initial results and both
   * timestamps `now`.
   */
  method CreateMuestra(db: Database, clienteId: Id, analisisId: Id, estado: Id, analisisNombre: string, now: Millis)
    returns (r: Result<Id>)
    requires db.Valid()
    modifies db`muestras, db`nextId
    ensures db.Valid()
    ensures r.Failure? <==> analisisId !in old(db.analisis)
    ensures r.Failure? ==> r.error == AnalisisNoExiste && db.muestras == old(db.muestras) && db.nextId == old(db.nextId)
    ensures r.Success? ==>
              && r.value == old(db.nextId) && r.value !in old(db.muestras)
              && db.muestras == old(db.muestras)[r.value := Muestra(clienteId, Some(InitialResults(db.analisis[analisisId].campos)),
                                                                   estado, analisisNombre, now, now)]
  {
    if analisisId !in db.analisis {
      return Failure(AnalisisNoExiste);
    }
    var resultadosIniciales := InitialResults(db.analisis[analisisId].campos);
    var id := db.NewId();
    db.muestras := db.muestras[id := Muestra(clienteId, Some(resultadosIniciales), estado, analisisNombre, now, now)];
    return Success(id);
  }

  /**
   * The patch `updateMuestra` applies: each supplied field replaces the
   * stored one, the others are kept, and the update time is `now`.
   */
  function Patch(m: Muestra, clienteId: Option<Id>, estado: Option<Id>, resultados: Option<seq<Resultado>>,
                 now: Millis): (r: Muestra)
    ensures r.clienteId == (if clienteId.Some? then clienteId.value else m.clienteId)
    ensures r.estado == (if estado.Some? then estado.value else m.estado)
    ensures r.resultados == (if resultados.Some? then resultados else m.resultados)
    ensures r.analisisNombre == m.analisisNombre && r.fechaRegistro == m.fechaRegistro
    ensures r.fechaActualizacion == now
  {
    m.(clienteId := if clienteId.Some? then clienteId.value else m.clienteId,
       estado := if estado.Some? then estado.value else m.estado,
       resultados := if resultados.Some? then resultados else m.resultados,
       fechaActualizacion := now)
  }

  /** A patch with no fields only moves the update time. */
  lemma EmptyPatchTouchesOnly(m: Muestra, now: Millis)
    ensures Patch(m, None, None, None, now) == m.(fechaActualizacion := now)
  {
  }

  /** Applying the same patch twice is applying it once. */
  lemma PatchIdempotent(m: Muestra, clienteId: Option<Id>, estado: Option<Id>, resultados: Option<seq<Resultado>>,
                        now: Millis)
    ensures Patch(Patch(m, clienteId, estado, resultados, now), clienteId, estado, resultados, now)
         == Patch(m, clienteId, estado, resultados, now)
  {
  }

  /**
   * `updateMuestra`: patching a missing sample fails and changes nothing;
   * otherwise only that sample changes, by `Patch`.
   */
  method UpdateMuestra(db: Database, id: Id, clienteId: Option<Id>, estado: Option<Id>,
                       resultados: Option<seq<Resultado>>, now: Millis) returns (ok: bool)
    requires db.Valid()
    modifies db`muestras
    ensures db.Valid()
    ensures ok <==> id in old(db.muestras)
    ensures ok ==> db.muestras == old(db.muestras)[id := Patch(old(db.muestras)[id], clienteId, estado, resultados, now)]
    ensures !ok ==> db.muestras == old(db.muestras)
  {
    if id !in db.muestras {
      return false;
    }
    db.muestras := db.muestras[id := Patch(db.muestras[id], clienteId, estado, resultados, now)];
    return true;
  }

  /** `deleteMuestra`: deleting a missing sample fails; otherwise exactly that sample goes. */
  method DeleteMuestra(db: Database, id: Id) returns (ok: bool)
    requires db.Valid()
    modifies db`muestras
    ensures db.Valid()
    ensures ok <==> id in old(db.muestras)
    ensures db.muestras == old(db.muestras) - {id}
  {
    ok := id in db.muestras;
    if ok {
      db.muestras := db.muestras - {id};
    }
  }
}
