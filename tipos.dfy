/** Value types shared by the entities. */
module Tipos {
  /** A `Long` database identity. Identity columns are modelled without an upper bound. */
  type Id = int

  /** A `java.time.LocalDate`; the core compares and copies dates but never computes with them. */
  datatype Fecha = Fecha(anio: int, mes: int, dia: int)
}
