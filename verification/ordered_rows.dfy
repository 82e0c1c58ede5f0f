/** std::map<std::string, V>: rows strictly sorted by key, with lower_bound and operator[]. */
module OrderedRows {
  import opened Bytes
  import opened Wrappers

  datatype Row<V> = Row(key: Bytes, value: V)

  predicate Sorted<V>(rows: seq<Row<V>>) {
    forall i, j :: 0 <= i < j < |rows| ==> Less(rows[i].key, rows[j].key)
  }

  /** The position of the first row whose key is not less than k. */
  function LowerBound<V>(rows: seq<Row<V>>, k: Bytes): (i: nat)
    ensures i <= |rows|
    ensures forall j :: 0 <= j < i ==> Less(rows[j].key, k)
    ensures i < |rows| ==> !Less(rows[i].key, k)
  {
    if rows == [] || !Less(rows[0].key, k) then 0 else 1 + LowerBound(rows[1..], k)
  }

  function Lookup<V>(rows: seq<Row<V>>, k: Bytes): Option<V> {
    var i := LowerBound(rows, k);
    if i < |rows| && rows[i].key == k then Some(rows[i].value) else None
  }

  function Put<V>(rows: seq<Row<V>>, k: Bytes, v: V): seq<Row<V>> {
    var i := LowerBound(rows, k);
    if i < |rows| && rows[i].key == k then rows[i := Row(k, v)]
    else rows[..i] + [Row(k, v)] + rows[i..]
  }

  lemma {:induction false} AfterLowerBound<V>(rows: seq<Row<V>>, k: Bytes, j: nat)
    requires Sorted(rows) && LowerBound(rows, k) <= j < |rows|
    ensures !Less(rows[j].key, k)
    ensures rows[j].key == k ==> j == LowerBound(rows, k)
  {
    var i := LowerBound(rows, k);
    LessTotal(rows[i].key, k);
    if i < j {
      assert Less(rows[i].key, rows[j].key);
      if Less(rows[j].key, k) { LessTransitive(rows[i].key, rows[j].key, k); }
      LessTotal(rows[i].key, rows[j].key);
      LessIrreflexive(k);
    }
  }

  /** Lookup finds exactly the row with the key. */
  lemma {:induction false} LookupFinds<V>(rows: seq<Row<V>>, j: nat)
    requires Sorted(rows) && j < |rows|
    ensures Lookup(rows, rows[j].key) == Some(rows[j].value) && LowerBound(rows, rows[j].key) == j
  {
    LessIrreflexive(rows[j].key);
    AfterLowerBound(rows, rows[j].key, j);
  }

  lemma {:induction false} PutSorted<V>(rows: seq<Row<V>>, k: Bytes, v: V)
    requires Sorted(rows)
    ensures Sorted(Put(rows, k, v))
  {
    var at, rows' := LowerBound(rows, k), Put(rows, k, v);
    if at < |rows| && rows[at].key == k {
    } else {
      forall i, j | 0 <= i < j < |rows'| ensures Less(rows'[i].key, rows'[j].key) {
        if i == at {
          AfterLowerBound(rows, k, j - 1);
          LessTotal(rows[j - 1].key, k);
        } else if j == at {
          assert rows'[i] == rows[i];
        } else {
          var i', j' := if i < at then i else i - 1, if j < at then j else j - 1;
          assert rows'[i] == rows[i'] && rows'[j] == rows[j'];
        }
      }
    }
  }

  lemma {:induction false} LookupNone<V>(rows: seq<Row<V>>, k: Bytes)
    requires Sorted(rows)
    ensures Lookup(rows, k) == None <==> forall j :: 0 <= j < |rows| ==> rows[j].key != k
  {
    forall j | 0 <= j < |rows| && rows[j].key == k ensures Lookup(rows, k) != None {
      LookupFinds(rows, j);
    }
  }

  /** Put changes what is found under its own key and nothing else. */
  lemma {:induction false} PutLookup<V>(rows: seq<Row<V>>, k: Bytes, v: V, other: Bytes)
    requires Sorted(rows)
    ensures Lookup(Put(rows, k, v), other) == if other == k then Some(v) else Lookup(rows, other)
  {
    var at, rows' := LowerBound(rows, k), Put(rows, k, v);
    PutSorted(rows, k, v);
    assert rows'[at] == Row(k, v);
    LookupFinds(rows', at);
    if other != k {
      if j :| 0 <= j < |rows| && rows[j].key == other {
        var j' := if j < at || (at < |rows| && rows[at].key == k) then j else j + 1;
        assert rows'[j'] == rows[j];
        LookupFinds(rows, j);
        LookupFinds(rows', j');
      } else {
        LookupNone(rows, other);
        LookupNone(rows', other);
      }
    }
  }

  /** Assigning the first n rows of a list, in order, to an empty map. */
  function Build<V>(rows: seq<Row<V>>, n: nat): seq<Row<V>>
    requires n <= |rows|
  {
    if n == 0 then [] else Put(Build(rows, n - 1), rows[n - 1].key, rows[n - 1].value)
  }

  lemma {:induction false} BuildSorted<V>(rows: seq<Row<V>>, n: nat)
    requires Sorted(rows) && n <= |rows|
    ensures Build(rows, n) == rows[..n]
  {
    if n > 0 {
      BuildSorted(rows, n - 1);
      assert rows[n - 1] == Row(rows[n - 1].key, rows[n - 1].value);
    }
  }

  lemma {:induction false} BuildSame<V>(a: seq<Row<V>>, b: seq<Row<V>>, n: nat)
    requires n <= |a| && n <= |b| && a[..n] == b[..n]
    ensures Build(a, n) == Build(b, n)
  {
    if n > 0 {
      assert a[n - 1] == a[..n][n - 1] == b[..n][n - 1] == b[n - 1];
      assert a[..n - 1] == a[..n][..n - 1] == b[..n][..n - 1] == b[..n - 1];
      BuildSame(a, b, n - 1);
    }
  }

  lemma {:induction false} BuildPrefix<V>(rows: seq<Row<V>>, row: Row<V>)
    ensures Build(rows + [row], |rows| + 1) == Put(Build(rows, |rows|), row.key, row.value)
  {
    BuildSame(rows, rows + [row], |rows|);
  }
}
