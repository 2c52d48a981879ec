/** The repeated-check detector: among one customer's records no account may
    hold the same check number twice. */
module Duplicates {
  import opened Wrappers
  import opened Records

  /** An account together with a check number drawn on it. */
  datatype Slot = Slot(cuenta: string, cheque: string)

  /** The account a record is filed under: the origin account for issued
      checks, the destination account otherwise. */
  function Account(r: Row, tipo: CheckType): string {
    if tipo == Emitido then r[CUENTA_ORIGEN] else r[CUENTA_DESTINO]
  }

  function SlotOf(r: Row, tipo: CheckType): Slot {
    Slot(Account(r, tipo), r[NRO_CHEQUE])
  }

  /** No two records share both account and check number. */
  ghost predicate Unique(rows: seq<Row>, tipo: CheckType) {
    forall i, j :: 0 <= i < j < |rows| ==> SlotOf(rows[i], tipo) != SlotOf(rows[j], tipo)
  }

  /** Record `j` is the first, in scan order, whose account and check number
      an earlier record already had. */
  ghost predicate FirstRepeatAt(rows: seq<Row>, tipo: CheckType, j: int) {
    && 0 <= j < |rows|
    && Unique(rows[..j], tipo)
    && exists k :: 0 <= k < j && SlotOf(rows[k], tipo) == SlotOf(rows[j], tipo)
  }

  /** The accounts of the first `n` records. */
  ghost function AccountsSeen(rows: seq<Row>, tipo: CheckType, n: nat): set<string>
    requires n <= |rows|
  {
    set k | 0 <= k < n :: Account(rows[k], tipo)
  }

  /** The check numbers of the first `n` records that are filed under `c`. */
  ghost function ChequesSeen(rows: seq<Row>, tipo: CheckType, n: nat, c: string): set<string>
    requires n <= |rows|
  {
    set k | 0 <= k < n && Account(rows[k], tipo) == c :: rows[k][NRO_CHEQUE]
  }

  /** `seen` is the detector's dictionary after the first `n` records: its
      keys are their accounts, and each account maps to the check numbers of
      those records filed under it. */
  ghost predicate SeenIs(seen: map<string, set<string>>, rows: seq<Row>, tipo: CheckType, n: nat)
    requires n <= |rows|
  {
    && seen.Keys == AccountsSeen(rows, tipo, n)
    && forall c :: c in seen ==> seen[c] == ChequesSeen(rows, tipo, n, c)
  }

  lemma SeenLookup(seen: map<string, set<string>>, rows: seq<Row>, tipo: CheckType, n: nat)
    requires n < |rows| && SeenIs(seen, rows, tipo, n)
    ensures (Account(rows[n], tipo) in seen && rows[n][NRO_CHEQUE] in seen[Account(rows[n], tipo)])
      <==> exists k :: 0 <= k < n && SlotOf(rows[k], tipo) == SlotOf(rows[n], tipo)
  {
  }

  lemma SeenAdd(seen: map<string, set<string>>, withKey: map<string, set<string>>,
                rows: seq<Row>, tipo: CheckType, n: nat)
    requires n < |rows| && SeenIs(seen, rows, tipo, n)
    requires withKey == if Account(rows[n], tipo) in seen then seen else seen[Account(rows[n], tipo) := {}]
    ensures Account(rows[n], tipo) in withKey
    ensures SeenIs(withKey[Account(rows[n], tipo) := withKey[Account(rows[n], tipo)] + {rows[n][NRO_CHEQUE]}],
                   rows, tipo, n + 1)
  {
  }

  lemma UniqueExtend(rows: seq<Row>, tipo: CheckType, n: nat)
    requires n < |rows| && Unique(rows[..n], tipo)
    requires forall k :: 0 <= k < n ==> SlotOf(rows[k], tipo) != SlotOf(rows[n], tipo)
    ensures Unique(rows[..n + 1], tipo)
  {
  }

  /** Scans the records in order, keeping per account the set of check
      numbers seen so far, and stops at the first repeated one. */
  method FindDuplicate(rows: seq<Row>, tipo: CheckType) returns (dup: Option<Slot>)
    ensures dup.None? <==> Unique(rows, tipo)
    ensures dup.Some? ==> exists j :: FirstRepeatAt(rows, tipo, j) && dup.value == SlotOf(rows[j], tipo)
  {
    var seen: map<string, set<string>> := map[];
    for i := 0 to |rows|
      invariant SeenIs(seen, rows, tipo, i)
      invariant Unique(rows[..i], tipo)
    {
      var numero := rows[i][NRO_CHEQUE];
      var cuenta := Account(rows[i], tipo);
      ghost var before := seen;
      SeenLookup(seen, rows, tipo, i);
      if cuenta !in seen {
        seen := seen[cuenta := {}];
      }
      if numero in seen[cuenta] {
        assert FirstRepeatAt(rows, tipo, i);
        return Some(Slot(cuenta, numero));
      }
      SeenAdd(before, seen, rows, tipo, i);
      UniqueExtend(rows, tipo, i);
      seen := seen[cuenta := seen[cuenta] + {numero}];
    }
    assert rows[..|rows|] == rows;
    return None;
  }

  /** The first repeat is well defined: at most one record is it. */
  lemma FirstRepeatIsUnique(rows: seq<Row>, tipo: CheckType, j1: int, j2: int)
    requires FirstRepeatAt(rows, tipo, j1) && FirstRepeatAt(rows, tipo, j2)
    ensures j1 == j2
  {
  }

  /** Dropping records keeps the remaining ones free of repeats. */
  lemma {:induction false} UniqueSubsequence(s: seq<Row>, t: seq<Row>, tipo: CheckType)
    requires IsSubsequence(s, t) && Unique(t, tipo)
    ensures Unique(s, tipo)
    decreases |t|
  {
    if s != [] {
      assert Unique(t[1..], tipo) by {
        forall i, j | 0 <= i < j < |t[1..]|
          ensures SlotOf(t[1..][i], tipo) != SlotOf(t[1..][j], tipo)
        {
          assert t[1..][i] == t[i + 1] && t[1..][j] == t[j + 1];
        }
      }
      if s[0] == t[0] && IsSubsequence(s[1..], t[1..]) {
        UniqueSubsequence(s[1..], t[1..], tipo);
        SubsequenceMembers(s[1..], t[1..]);
        forall i, j | 0 <= i < j < |s|
          ensures SlotOf(s[i], tipo) != SlotOf(s[j], tipo)
        {
          assert s[j] == s[1..][j - 1];
          if i == 0 {
            assert s[j] in t[1..];
            var m :| 0 <= m < |t[1..]| && t[1..][m] == s[j];
            assert t[m + 1] == s[j];
          } else {
            assert s[i] == s[1..][i - 1];
          }
        }
      } else {
        UniqueSubsequence(s, t[1..], tipo);
      }
    }
  }
}
