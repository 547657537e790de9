/**
 * The record shapes of the hosted database's tables. Every table row is
 * identified by its document id, the key under which `Store.Database`
 * keeps it; the `_id` and `_creationTime` system fields are not part of
 * the records.
 */
module Schema {
  import opened Wrappers

  /**
   * A document id. The database hands out opaque, globally unique ids; the
   * model numbers documents in creation order.
   */
  type Id = nat

  /** A timestamp in milliseconds (`Date.now()`, a parameter of every mutation that reads it). */
  type Millis = int

  datatype Cliente = Cliente(
    nombreCompleto: string,
    correo: Option<string>,
    telefono: Option<string>,
    fechaRegistro: Millis,
    fechaActualizacion: Millis)

  datatype EstadoMuestra = EstadoMuestra(
    estado: string,
    color: string,
    fechaRegistro: Millis,
    fechaActualizacion: Millis)

  /** One field an analysis measures. */
  datatype Campo = Campo(nombre: string, medicion: string, valorReferencia: string)

  /** The seven kinds of analysis. */
  datatype Tipo =
    | HematologiaClinica
    | PerfilDeRutina
    | QuimicaClinica
    | Coprologia
    | Serologia
    | Uroanalisis
    | Hormonales

  datatype Analisis = Analisis(
    nombre: string,
    descripcion: Option<string>,
    campos: seq<Campo>,
    tipo: Tipo,
    fechaRegistro: Millis,
    fechaActualizacion: Millis)

  /**
   * A measured value: exactly one of a string, a number, a boolean or null.
   * Numbers are whole numbers here.
   */
  datatype Valor = Texto(text: string) | Numero(num: int) | Booleano(flag: bool) | Nulo

  datatype Resultado = Resultado(nombre: string, medicion: string, estandar: string, valor: Valor)

  /** A sample. `resultados` may be absent, which is not the same as an empty list. */
  datatype Muestra = Muestra(
    clienteId: Id,
    resultados: Option<seq<Resultado>>,
    estado: Id,
    analisisNombre: string,
    fechaRegistro: Millis,
    fechaActualizacion: Millis)

  /** A user: at most one role, as a single optional role id. */
  datatype Usuario = Usuario(
    nombreCompleto: string,
    correo: string,
    clerkId: string,
    fechaRegistro: Millis,
    fechaActualizacion: Millis,
    rol: Option<Id>)

  datatype Rol = Rol(nombre: string, fechaRegistro: Millis, fechaActualizacion: Millis)

  /** A row of the join table: exactly one (role, permission) pair. */
  datatype RolPer = RolPer(rolId: Id, permisoId: Id)

  datatype Permiso = Permiso(nombre: string, descripcion: string)

  /** The string literal that stands for each kind of analysis. */
  function TipoLiteral(t: Tipo): string
  {
    match t
    case HematologiaClinica => "Hematología clínica"
    case PerfilDeRutina => "Perfil de rutina"
    case QuimicaClinica => "Química clínica"
    case Coprologia => "Coprología"
    case Serologia => "Serología"
    case Uroanalisis => "Uroanálisis"
    case Hormonales => "Hormonales"
  }

  /** The union validator for `Tipo`: accepts exactly the seven literals. */
  function ParseTipo(s: string): (r: Option<Tipo>)
    ensures r.Some? ==> TipoLiteral(r.value) == s
    ensures r.None? ==> forall t: Tipo :: TipoLiteral(t) != s
  {
    if s == "Hematología clínica" then Some(HematologiaClinica)
    else if s == "Perfil de rutina" then Some(PerfilDeRutina)
    else if s == "Química clínica" then Some(QuimicaClinica)
    else if s == "Coprología" then Some(Coprologia)
    else if s == "Serología" then Some(Serologia)
    else if s == "Uroanálisis" then Some(Uroanalisis)
    else if s == "Hormonales" then Some(Hormonales)
    else None
  }

  /** Each literal is read back as the kind it stands for, so the seven literals are distinct. */
  lemma TipoLiteralRoundTrip(t: Tipo)
    ensures ParseTipo(TipoLiteral(t)) == Some(t)
  {
  }
}
