/** The `configurazioni` key-value table and its two read helpers. Keys are
    unique in the table (a unique index on `chiave`). */
module Configurazione {
  import opened Wrappers

  datatype ConfigRow = ConfigRow(key: string, value: string)

  ghost predicate UniqueKeys(rows: seq<ConfigRow>) {
    forall i, j :: 0 <= i < j < |rows| ==> rows[i].key != rows[j].key
  }

  predicate HasKey(rows: seq<ConfigRow>, k: string) {
    exists i :: 0 <= i < |rows| && rows[i].key == k
  }

  /** Row `i` is the last row with key `k`. */
  predicate LastWith(rows: seq<ConfigRow>, k: string, i: int) {
    0 <= i < |rows| && rows[i].key == k && forall j :: i < j < |rows| ==> rows[j].key != k
  }

  /** `pluck('valore', 'chiave')`: every key maps to the value of its last row. */
  function AllAssoc(rows: seq<ConfigRow>): (m: map<string, string>)
    ensures forall k :: k in m <==> HasKey(rows, k)
    ensures forall k :: k in m ==> exists i :: LastWith(rows, k, i) && m[k] == rows[i].value
  {
    if rows == [] then map[]
    else
      var init := rows[..|rows| - 1];
      var last := rows[|rows| - 1];
      var m := AllAssoc(init)[last.key := last.value];
      assert forall k :: k in m <==> HasKey(rows, k) by {
        forall k ensures k in m <==> HasKey(rows, k) {
          if HasKey(rows, k) {
            var i :| 0 <= i < |rows| && rows[i].key == k;
            if i < |init| { assert init[i] == rows[i]; }
          }
          if HasKey(init, k) {
            var i :| 0 <= i < |init| && init[i].key == k;
            assert rows[i] == init[i];
          }
        }
      }
      assert forall k :: k in m ==> exists i :: LastWith(rows, k, i) && m[k] == rows[i].value by {
        forall k | k in m ensures exists i :: LastWith(rows, k, i) && m[k] == rows[i].value {
          if k == last.key {
            assert LastWith(rows, k, |rows| - 1);
          } else {
            var i :| LastWith(init, k, i) && AllAssoc(init)[k] == init[i].value;
            assert rows[i] == init[i];
            assert LastWith(rows, k, i);
          }
        }
      }
      m
  }

  /** With unique keys, every row's value is the one the map holds for its key. */
  lemma AllAssocOfUnique(rows: seq<ConfigRow>)
    requires UniqueKeys(rows)
    ensures forall i :: 0 <= i < |rows| ==> rows[i].key in AllAssoc(rows) && AllAssoc(rows)[rows[i].key] == rows[i].value
  {
    forall i | 0 <= i < |rows| ensures rows[i].key in AllAssoc(rows) && AllAssoc(rows)[rows[i].key] == rows[i].value {
      var m := AllAssoc(rows);
      assert HasKey(rows, rows[i].key);
      var j :| LastWith(rows, rows[i].key, j) && m[rows[i].key] == rows[j].value;
      assert i == j;
    }
  }

  /** The index of the first row with key `k`, the row `where(...)->first()` finds. */
  function FirstWithKey(rows: seq<ConfigRow>, k: string): (r: Option<nat>)
    ensures r.Some? ==> r.value < |rows| && rows[r.value].key == k
    ensures r.Some? ==> forall i :: 0 <= i < r.value ==> rows[i].key != k
    ensures r.None? <==> !HasKey(rows, k)
  {
    if rows == [] then None
    else if rows[0].key == k then Some(0)
    else
      match FirstWithKey(rows[1..], k)
      case None =>
        assert forall i :: 0 < i < |rows| ==> rows[i] == rows[1..][i - 1];
        None
      case Some(i) => Some(i + 1)
  }

  /** `getValue($chiave, $default = null)`: the first row's value, else the
      default; None plays PHP's `null`. */
  function GetValue(rows: seq<ConfigRow>, k: string, default: Option<string>): (r: Option<string>)
    ensures !HasKey(rows, k) ==> r == default
    ensures HasKey(rows, k) ==> r.Some? && exists i :: 0 <= i < |rows| && rows[i].key == k && r.value == rows[i].value
  {
    match FirstWithKey(rows, k)
    case Some(i) => Some(rows[i].value)
    case None => default
  }

  /** The two helpers agree on a table with unique keys: the mapped value when
      the key is present, the default otherwise. */
  lemma {:induction false} GetValueAgreesWithAllAssoc(rows: seq<ConfigRow>, k: string, default: Option<string>)
    requires UniqueKeys(rows)
    ensures GetValue(rows, k, default) == if k in AllAssoc(rows) then Some(AllAssoc(rows)[k]) else default
  {
    AllAssocOfUnique(rows);
    var f := FirstWithKey(rows, k);
    if f.Some? {
      assert AllAssoc(rows)[rows[f.value].key] == rows[f.value].value;
    }
  }
}
