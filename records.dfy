/** The check records of the input file and the order-preserving filter
    that every selection stage of the listing is built from. */
module Records {

  /** One row of the input file as `csv.DictReader` yields it: column name
      to the raw text of the cell. */
  type Record = map<string, string>

  const DNI := "DNI"
  const NRO_CHEQUE := "NroCheque"
  const CUENTA_ORIGEN := "NumeroCuentaOrigen"
  const CUENTA_DESTINO := "NumeroCuentaDestino"
  const TIPO := "Tipo"
  const ESTADO := "Estado"
  const FECHA_ORIGEN := "FechaOrigen"
  const FECHA_PAGO := "FechaPago"

  /** The columns the listing looks up by name. */
  const COLUMNS: set<string> :=
    {DNI, NRO_CHEQUE, CUENTA_ORIGEN, CUENTA_DESTINO, TIPO, ESTADO, FECHA_ORIGEN, FECHA_PAGO}

  predicate HasColumns(r: Record) {
    COLUMNS <= r.Keys
  }

  /** A record that holds every column the listing reads. `csv.DictReader`
      gives every row every column of the header, so this is the case for
      all rows as soon as the header names these columns. */
  type Row = r: Record | HasColumns(r)
    witness map[DNI := "", NRO_CHEQUE := "", CUENTA_ORIGEN := "", CUENTA_DESTINO := "",
                TIPO := "", ESTADO := "", FECHA_ORIGEN := "", FECHA_PAGO := ""]

  /** The two values `tipo_cheque` may take. */
  datatype CheckType = Emitido | Depositado {
    function Name(): string {
      match this
      case Emitido => "EMITIDO"
      case Depositado => "DEPOSITADO"
    }
  }

  /** The three values `--estado_cheque` may take. */
  datatype Status = Pendiente | Aprobado | Rechazado {
    function Name(): string {
      match this
      case Pendiente => "PENDIENTE"
      case Aprobado => "APROBADO"
      case Rechazado => "RECHAZADO"
    }
  }

  /** `s` is `t` with some elements left out, the rest kept in their order. */
  ghost predicate IsSubsequence<T>(s: seq<T>, t: seq<T>)
    decreases |t|
  {
    s == [] ||
    (t != [] && ((s[0] == t[0] && IsSubsequence(s[1..], t[1..])) || IsSubsequence(s, t[1..])))
  }

  /** A Python list comprehension `[x for x in s if keep(x)]`: the result is
      a subsequence of `s`, holds only elements that pass, and holds every
      element that passes as often as `s` does. */
  function Filter<T(==,!new)>(s: seq<T>, keep: T -> bool): (r: seq<T>)
    ensures |r| <= |s|
    ensures IsSubsequence(r, s)
    ensures forall x :: x in r <==> x in s && keep(x)
    ensures forall x :: keep(x) ==> multiset(r)[x] == multiset(s)[x]
  {
    if s == [] then []
    else
      assert s == [s[0]] + s[1..];
      if keep(s[0]) then [s[0]] + Filter(s[1..], keep)
      else Filter(s[1..], keep)
  }

  lemma {:induction false} SubsequenceReflexive<T>(s: seq<T>)
    ensures IsSubsequence(s, s)
  {
    if s != [] {
      SubsequenceReflexive(s[1..]);
    }
  }

  lemma {:induction false} SubsequenceMembers<T>(s: seq<T>, t: seq<T>)
    requires IsSubsequence(s, t)
    ensures forall x :: x in s ==> x in t
    decreases |t|
  {
    if s != [] {
      if s[0] == t[0] && IsSubsequence(s[1..], t[1..]) {
        SubsequenceMembers(s[1..], t[1..]);
        forall x | x in s ensures x in t {
          if x != s[0] {
            assert x in s[1..];
          }
        }
      } else {
        SubsequenceMembers(s, t[1..]);
      }
    }
  }

  lemma {:induction false} SubsequenceTransitive<T>(s: seq<T>, t: seq<T>, u: seq<T>)
    requires IsSubsequence(s, t) && IsSubsequence(t, u)
    ensures IsSubsequence(s, u)
    decreases |u|
  {
    if s != [] {
      if t[0] == u[0] && IsSubsequence(t[1..], u[1..]) {
        if s[0] == t[0] && IsSubsequence(s[1..], t[1..]) {
          SubsequenceTransitive(s[1..], t[1..], u[1..]);
        } else {
          SubsequenceTransitive(s, t[1..], u[1..]);
        }
      } else {
        SubsequenceTransitive(s, t, u[1..]);
      }
    }
  }
}
