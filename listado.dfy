/** The selection chain of `listado_cheques.py`: validate the customer
    identifier, select the customer's records, reject repeated checks, then
    narrow by type, by status and by date. Every `sys.exit(1)` on the way is
    a `Failure`. */
module Listado {
  import opened Wrappers
  import opened Records
  import opened Strings
  import opened Duplicates

  datatype Error =
    | NotDigits                                  // identifier is not all digits
    | DniNotFound                                // no record of that customer
    | Duplicate(cheque: string, cuenta: string)  // check number repeated in an account

  /** The command-line arguments that steer the selection. */
  datatype Query = Query(
    dni: string,
    tipo: CheckType,
    estado: Option<Status>,
    fechaInicio: Option<string>,
    fechaFin: Option<string>)

  /** The customer filter: fails when no record carries the identifier,
      otherwise keeps exactly that customer's records in their order. */
  function ByCustomer(notas: seq<Row>, dni: string): (r: Result<seq<Row>, Error>)
    ensures r.Failure? <==> forall i :: 0 <= i < |notas| ==> notas[i][DNI] != dni
    ensures r.Failure? ==> r.error == DniNotFound
    ensures r.Success? ==> r.value != [] && IsSubsequence(r.value, notas)
    ensures r.Success? ==> forall x :: x in r.value <==> x in notas && x[DNI] == dni
    ensures r.Success? ==> forall x: Row :: x[DNI] == dni ==> multiset(r.value)[x] == multiset(notas)[x]
  {
    if exists i :: 0 <= i < |notas| && notas[i][DNI] == dni then
      var kept := Filter(notas, (x: Row) => x[DNI] == dni);
      var i :| 0 <= i < |notas| && notas[i][DNI] == dni;
      assert notas[i] in kept;
      Success(kept)
    else
      Failure(DniNotFound)
  }

  /** The type filter keeps exactly the records of the requested type. */
  function ByType(rows: seq<Row>, tipo: CheckType): (r: seq<Row>)
    ensures IsSubsequence(r, rows)
    ensures forall x :: x in r <==> x in rows && x[TIPO] == tipo.Name()
    ensures forall x: Row :: x[TIPO] == tipo.Name() ==> multiset(r)[x] == multiset(rows)[x]
  {
    Filter(rows, (x: Row) => x[TIPO] == tipo.Name())
  }

  /** The status filter: no status keeps everything, a status keeps exactly
      the records in that status. */
  function ByStatus(rows: seq<Row>, estado: Option<Status>): (r: seq<Row>)
    ensures IsSubsequence(r, rows)
    ensures estado.None? ==> r == rows
    ensures estado.Some? ==> forall x :: x in r <==> x in rows && x[ESTADO] == estado.value.Name()
    ensures estado.Some? ==>
      forall x: Row :: x[ESTADO] == estado.value.Name() ==> multiset(r)[x] == multiset(rows)[x]
  {
    match estado
    case None =>
      SubsequenceReflexive(rows);
      rows
    case Some(s) => Filter(rows, (x: Row) => x[ESTADO] == s.Name())
  }

  /** Python's `a and b` on two optional strings: both given and non-empty. */
  predicate DatesGiven(fechaInicio: Option<string>, fechaFin: Option<string>) {
    fechaInicio.Some? && fechaInicio.value != [] && fechaFin.Some? && fechaFin.value != []
  }

  /** The record's origin date is at least the start bound and its payment
      date at least the end bound, both compared as text; when each date has
      as many digits as its bound this is the numeric comparison. */
  predicate InDates(x: Row, inicio: string, fin: string)
    ensures SameDigitCount(x[FECHA_ORIGEN], inicio) && SameDigitCount(x[FECHA_PAGO], fin) ==>
      (InDates(x, inicio, fin) <==> Value(x[FECHA_ORIGEN]) >= Value(inicio) && Value(x[FECHA_PAGO]) >= Value(fin))
  {
    AtLeastOnDigitsIsNumeric(x[FECHA_ORIGEN], inicio);
    AtLeastOnDigitsIsNumeric(x[FECHA_PAGO], fin);
    AtLeast(x[FECHA_ORIGEN], inicio) && AtLeast(x[FECHA_PAGO], fin)
  }

  /** The date filter: applies only when both bounds are given, and then
      keeps exactly the records within them. */
  function ByDates(rows: seq<Row>, fechaInicio: Option<string>, fechaFin: Option<string>): (r: seq<Row>)
    ensures IsSubsequence(r, rows)
    ensures !DatesGiven(fechaInicio, fechaFin) ==> r == rows
    ensures DatesGiven(fechaInicio, fechaFin) ==>
      forall x :: x in r <==> x in rows && InDates(x, fechaInicio.value, fechaFin.value)
    ensures DatesGiven(fechaInicio, fechaFin) ==>
      forall x :: InDates(x, fechaInicio.value, fechaFin.value) ==> multiset(r)[x] == multiset(rows)[x]
  {
    if DatesGiven(fechaInicio, fechaFin) then
      Filter(rows, (x: Row) => InDates(x, fechaInicio.value, fechaFin.value))
    else
      SubsequenceReflexive(rows);
      rows
  }

  /** The selection of `main`, up to the choice of output. */
  method Select(notas: seq<Row>, q: Query) returns (r: Result<seq<Row>, Error>)
    ensures !IsDigits(q.dni) ==> r == Failure(NotDigits)
    ensures IsDigits(q.dni) && (forall i :: 0 <= i < |notas| ==> notas[i][DNI] != q.dni) ==>
      r == Failure(DniNotFound)
    ensures r.Failure? ==> (r.error == NotDigits <==> !IsDigits(q.dni))
    ensures r.Failure? ==>
      (r.error == DniNotFound <==> IsDigits(q.dni) && ByCustomer(notas, q.dni).Failure?)
    ensures IsDigits(q.dni) && ByCustomer(notas, q.dni).Success? && !Unique(ByCustomer(notas, q.dni).value, q.tipo) ==>
      r.Failure? && r.error.Duplicate?
    ensures r.Success? <==>
      IsDigits(q.dni) && ByCustomer(notas, q.dni).Success? && Unique(ByCustomer(notas, q.dni).value, q.tipo)
    ensures r.Failure? && r.error.Duplicate? ==>
      && IsDigits(q.dni) && ByCustomer(notas, q.dni).Success?
      && exists j :: && FirstRepeatAt(ByCustomer(notas, q.dni).value, q.tipo, j)
                     && SlotOf(ByCustomer(notas, q.dni).value[j], q.tipo) == Slot(r.error.cuenta, r.error.cheque)
    ensures r.Success? ==>
      r.value == ByDates(ByStatus(ByType(ByCustomer(notas, q.dni).value, q.tipo), q.estado), q.fechaInicio, q.fechaFin)
    ensures r.Success? ==> IsSubsequence(r.value, notas) && Unique(r.value, q.tipo)
    ensures r.Success? ==> forall x :: x in r.value ==>
      && x in notas
      && x[DNI] == q.dni
      && x[TIPO] == q.tipo.Name()
      && (q.estado.Some? ==> x[ESTADO] == q.estado.value.Name())
      && (DatesGiven(q.fechaInicio, q.fechaFin) ==> InDates(x, q.fechaInicio.value, q.fechaFin.value))
  {
    if !IsDigits(q.dni) {
      return Failure(NotDigits);
    }
    var cliente := ByCustomer(notas, q.dni);
    if cliente.Failure? {
      return Failure(cliente.error);
    }
    var filas := cliente.value;
    var repetido := FindDuplicate(filas, q.tipo);
    if repetido.Some? {
      return Failure(Duplicate(repetido.value.cheque, repetido.value.cuenta));
    }
    var porTipo := ByType(filas, q.tipo);
    var porEstado := ByStatus(porTipo, q.estado);
    var porFecha := ByDates(porEstado, q.fechaInicio, q.fechaFin);
    UniqueSubsequence(porTipo, filas, q.tipo);
    UniqueSubsequence(porEstado, porTipo, q.tipo);
    UniqueSubsequence(porFecha, porEstado, q.tipo);
    SubsequenceTransitive(porEstado, porTipo, filas);
    SubsequenceTransitive(porFecha, porEstado, filas);
    SubsequenceTransitive(porFecha, filas, notas);
    return Success(porFecha);
  }
}
