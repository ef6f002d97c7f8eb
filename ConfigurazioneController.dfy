/** `PUT /api/configurazione` and `GET /api/configurazione` over the
    configuration table. */
module ConfigurazioneController {
  import opened Wrappers
  import opened Configurazione

  const Ok := 200
  const Unprocessable := 422
  const MaxKeyLength := 100
  const MaxValueLength := 255

  /** The characters PHP's `trim` removes by default. */
  predicate PhpTrimmed(c: char) {
    c == ' ' || c == '\t' || c == '\n' || c == '\r' || c == '\0' || c == '\U{000B}'
  }

  /** `required`: present, and not empty once trimmed. */
  predicate Required(s: Option<string>) {
    s.Some? && exists i :: 0 <= i < |s.value| && !PhpTrimmed(s.value[i])
  }

  /** `required|string|max:100` on the key and `required|string|max:255` on the value. */
  function Validate(key: Option<string>, value: Option<string>): (r: Option<ConfigRow>)
    ensures r.Some? <==>
      && Required(key) && |key.value| <= MaxKeyLength
      && Required(value) && |value.value| <= MaxValueLength
    ensures r.Some? ==> r.value == ConfigRow(key.value, value.value)
  {
    if Required(key) && |key.value| <= MaxKeyLength && Required(value) && |value.value| <= MaxValueLength
    then Some(ConfigRow(key.value, value.value))
    else None
  }

  /** The table after storing `v` under `k`: the first row with the key takes
      the value, or a row is appended. */
  function Upsert(rows: seq<ConfigRow>, k: string, v: string): (r: seq<ConfigRow>)
    ensures HasKey(rows, k) ==> |r| == |rows|
    ensures !HasKey(rows, k) ==> r == rows + [ConfigRow(k, v)]
    ensures HasKey(rows, k) ==>
      exists i :: 0 <= i < |rows| && rows[i].key == k && r == rows[i := ConfigRow(k, v)] && (forall j :: 0 <= j < i ==> rows[j].key != k)
  {
    match FirstWithKey(rows, k)
    case Some(i) => rows[i := ConfigRow(k, v)]
    case None => rows + [ConfigRow(k, v)]
  }

  /** Upserting keeps the keys unique. */
  lemma UpsertKeepsUnique(rows: seq<ConfigRow>, k: string, v: string)
    requires UniqueKeys(rows)
    ensures UniqueKeys(Upsert(rows, k, v))
  {
    var r := Upsert(rows, k, v);
    if !HasKey(rows, k) {
      forall i, j | 0 <= i < j < |r| ensures r[i].key != r[j].key {
        if j == |rows| {
          assert rows[i].key != k;
        }
      }
    }
  }

  /** On a table with unique keys, `getAllAssoc` is the one map that has
      exactly the table's keys and holds each row's value. */
  lemma AllAssocUniqueChar(rows: seq<ConfigRow>, m: map<string, string>)
    requires UniqueKeys(rows)
    requires forall x :: x in m <==> HasKey(rows, x)
    requires forall i :: 0 <= i < |rows| ==> rows[i].key in m && m[rows[i].key] == rows[i].value
    ensures AllAssoc(rows) == m
  {
    var a := AllAssoc(rows);
    assert SameKeys: a.Keys == m.Keys by {
      forall x ensures x in a <==> x in m {
        assert x in a <==> HasKey(rows, x);
      }
    }
    assert SameValues: forall x :: x in m ==> x in a && a[x] == m[x] by {
      AllAssocOfUnique(rows);
      forall x | x in m ensures x in a && a[x] == m[x] {
        assert HasKey(rows, x);
        var i :| 0 <= i < |rows| && rows[i].key == x;
        assert a[rows[i].key] == rows[i].value;
      }
    }
    MapExt(a, m);
  }

  lemma MapExt(a: map<string, string>, b: map<string, string>)
    requires a.Keys == b.Keys
    requires forall x :: x in b ==> x in a && a[x] == b[x]
    ensures a == b
  {
  }

  /** Seen through `getAllAssoc`, the upsert sets `k` to `v` and nothing else. */
  lemma {:induction false} UpsertIsMapUpdate(rows: seq<ConfigRow>, k: string, v: string)
    requires UniqueKeys(rows)
    ensures AllAssoc(Upsert(rows, k, v)) == AllAssoc(rows)[k := v]
  {
    UpsertKeepsUnique(rows, k, v);
    if HasKey(rows, k) {
      var i0 :| 0 <= i0 < |rows| && rows[i0].key == k && Upsert(rows, k, v) == rows[i0 := ConfigRow(k, v)];
      UpdateInPlaceMap(rows, i0, v);
    } else {
      AppendMap(rows, k, v);
    }
  }

  lemma {:induction false} UpdateInPlaceMap(rows: seq<ConfigRow>, i0: int, v: string)
    requires UniqueKeys(rows) && 0 <= i0 < |rows|
    requires UniqueKeys(rows[i0 := ConfigRow(rows[i0].key, v)])
    ensures AllAssoc(rows[i0 := ConfigRow(rows[i0].key, v)]) == AllAssoc(rows)[rows[i0].key := v]
  {
    var k := rows[i0].key;
    var r := rows[i0 := ConfigRow(k, v)];
    var b := AllAssoc(rows)[k := v];
    forall x ensures x in b <==> HasKey(r, x) {
      if HasKey(rows, x) {
        var i :| 0 <= i < |rows| && rows[i].key == x;
        assert r[i].key == x;
      }
      if HasKey(r, x) {
        var i :| 0 <= i < |r| && r[i].key == x;
        assert rows[i].key == x;
      }
    }
    forall i | 0 <= i < |r| ensures r[i].key in b && b[r[i].key] == r[i].value {
      if i != i0 {
        AllAssocOfUnique(rows);
        assert rows[i].key != k;
      }
    }
    AllAssocUniqueChar(r, b);
  }

  lemma {:induction false} AppendMap(rows: seq<ConfigRow>, k: string, v: string)
    requires UniqueKeys(rows) && !HasKey(rows, k)
    requires UniqueKeys(rows + [ConfigRow(k, v)])
    ensures AllAssoc(rows + [ConfigRow(k, v)]) == AllAssoc(rows)[k := v]
  {
    var r := rows + [ConfigRow(k, v)];
    var b := AllAssoc(rows)[k := v];
    forall x ensures x in b <==> HasKey(r, x) {
      if HasKey(rows, x) {
        var i :| 0 <= i < |rows| && rows[i].key == x;
        assert r[i].key == x;
      }
      if HasKey(r, x) {
        var i :| 0 <= i < |r| && r[i].key == x;
        if i < |rows| { assert rows[i].key == x; }
      }
      if x == k { assert r[|rows|].key == k; }
    }
    forall i | 0 <= i < |r| ensures r[i].key in b && b[r[i].key] == r[i].value {
      if i < |rows| {
        AllAssocOfUnique(rows);
        assert r[i] == rows[i] && rows[i].key != k;
      }
    }
    AllAssocUniqueChar(r, b);
  }

  /** Storing the same pair twice leaves the table as storing it once. */
  lemma UpsertIdempotent(rows: seq<ConfigRow>, k: string, v: string)
    requires UniqueKeys(rows)
    ensures Upsert(Upsert(rows, k, v), k, v) == Upsert(rows, k, v)
  {
    var r := Upsert(rows, k, v);
    UpsertKeepsUnique(rows, k, v);
    var f := FirstWithKey(r, k);
    assert HasKey(r, k) by {
      if HasKey(rows, k) {
        var i :| 0 <= i < |rows| && rows[i].key == k && r == rows[i := ConfigRow(k, v)];
        assert r[i].key == k;
      } else {
        assert r[|rows|].key == k;
      }
    }
    var i := f.value;
    assert r[i] == ConfigRow(k, v) by {
      if HasKey(rows, k) {
        var j :| 0 <= j < |rows| && rows[j].key == k && r == rows[j := ConfigRow(k, v)];
        assert r[j].key == k;
      } else {
        assert r[|rows|].key == k;
      }
    }
    assert r[i := ConfigRow(k, v)] == r;
  }

  /** The table with its auto-increment ids left out. */
  class ConfigTable {
    var rows: seq<ConfigRow>

    ghost predicate Valid()
      reads this
    {
      UniqueKeys(rows)
    }

    constructor (rows: seq<ConfigRow>)
      requires UniqueKeys(rows)
      ensures Valid() && this.rows == rows
    {
      this.rows := rows;
    }

    /** `GET /api/configurazione`: every key with its value. */
    method Show() returns (m: map<string, string>)
      requires Valid()
      ensures forall i :: 0 <= i < |rows| ==> rows[i].key in m && m[rows[i].key] == rows[i].value
      ensures forall k :: k in m <==> HasKey(rows, k)
    {
      AllAssocOfUnique(rows);
      m := AllAssoc(rows);
    }

    /** `PUT /api/configurazione`: 422 when validation fails; otherwise the
        row with the key takes the value in place, or one row is created. */
    method Update(key: Option<string>, value: Option<string>) returns (status: int, saved: Option<ConfigRow>)
      requires Valid()
      modifies this
      ensures Valid()
      ensures Validate(key, value).None? ==> status == Unprocessable && saved.None? && rows == old(rows)
      ensures Validate(key, value).Some? ==>
        && status == Ok && saved == Validate(key, value)
        && rows == Upsert(old(rows), key.value, value.value)
        && AllAssoc(rows) == AllAssoc(old(rows))[key.value := value.value]
    {
      var data := Validate(key, value);
      if data.None? {
        return Unprocessable, None;
      }
      var k, v := data.value.key, data.value.value;
      UpsertKeepsUnique(rows, k, v);
      UpsertIsMapUpdate(rows, k, v);
      var found := FirstWithKey(rows, k);
      if found.Some? {
        rows := rows[found.value := rows[found.value].(value := v)];
      } else {
        rows := rows + [ConfigRow(k, v)];
      }
      return Ok, data;
    }
  }
}
