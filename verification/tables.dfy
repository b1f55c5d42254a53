/** The tables the extractor writes: a pandas DataFrame built from a list of
    dicts, reduced to its column order and its rows. A row lacking a column
    holds no value there (pandas writes an empty cell). */
module Tables {
  import opened Records

  datatype Table = Table(columns: seq<string>, rows: seq<map<string, Value>>)

  /** Appends the keys of `ks` not yet present, in their order. */
  function AppendNew(cols: seq<string>, ks: seq<string>): (r: seq<string>)
    ensures cols <= r
    ensures Distinct(cols) ==> Distinct(r)
    ensures forall x :: x in r <==> x in cols || x in ks
    decreases |ks|
  {
    if |ks| == 0 then cols
    else AppendNew(if ks[0] in cols then cols else cols + [ks[0]], ks[1..])
  }

  /** `cols` followed by every key of the dicts `ds` not already present, in
      order of first appearance, scanning the dicts in list order. */
  function UnionKeys(cols: seq<string>, ds: seq<Dict>): (r: seq<string>)
    ensures cols <= r
    ensures Distinct(cols) ==> Distinct(r)
    ensures forall x :: x in r <==> x in cols || exists i :: 0 <= i < |ds| && HasKey(ds[i], x)
    decreases |ds|
  {
    if |ds| == 0 then cols
    else
      var r := UnionKeys(AppendNew(cols, Keys(ds[0])), ds[1..]);
      forall x | x in r ensures x in cols || exists i :: 0 <= i < |ds| && HasKey(ds[i], x) {
        if x !in cols && x in Keys(ds[0]) {
          var k :| 0 <= k < |Keys(ds[0])| && Keys(ds[0])[k] == x;
          assert HasKey(ds[0], x);
        } else if x !in cols && x !in Keys(ds[0]) {
          var i :| 0 <= i < |ds[1..]| && HasKey(ds[1..][i], x);
          assert HasKey(ds[i + 1], x);
        }
      }
      forall x | exists i :: 0 <= i < |ds| && HasKey(ds[i], x) ensures x in r {
        var i :| 0 <= i < |ds| && HasKey(ds[i], x);
        if i == 0 {
          var k :| 0 <= k < |ds[0]| && ds[0][k].key == x;
          assert Keys(ds[0])[k] == x;
        } else {
          assert HasKey(ds[1..][i - 1], x);
        }
      }
      r
  }

  /** The columns pandas gives a non-empty list of dicts: the first dict's keys
      in their order, then every further key in order of first appearance. */
  function Columns(ds: seq<Dict>): (r: seq<string>)
    requires |ds| > 0
    ensures Keys(ds[0]) <= r
    ensures Distinct(r)
    ensures forall x :: x in r <==> exists i :: 0 <= i < |ds| && HasKey(ds[i], x)
  {
    var r := UnionKeys(Keys(ds[0]), ds[1..]);
    forall x | x in r ensures exists i :: 0 <= i < |ds| && HasKey(ds[i], x) {
      if x in Keys(ds[0]) {
        var k :| 0 <= k < |Keys(ds[0])| && Keys(ds[0])[k] == x;
        assert HasKey(ds[0], x);
      } else {
        var i :| 0 <= i < |ds[1..]| && HasKey(ds[1..][i], x);
        assert HasKey(ds[i + 1], x);
      }
    }
    forall x | exists i :: 0 <= i < |ds| && HasKey(ds[i], x) ensures x in r {
      var i :| 0 <= i < |ds| && HasKey(ds[i], x);
      if i == 0 {
        var k :| 0 <= k < |ds[0]| && ds[0][k].key == x;
        assert Keys(ds[0])[k] == x;
      } else {
        assert HasKey(ds[1..][i - 1], x);
      }
    }
    r
  }

  /** Every string of `s` once, at the place of its first appearance: the
      order in which a `DataFrame` built from `s` would meet new columns. */
  function Dedupe(s: seq<string>): seq<string>
    decreases |s|
  {
    if |s| == 0 then []
    else
      var init := Dedupe(s[..|s| - 1]);
      var x := s[|s| - 1];
      if x in init then init else init + [x]
  }

  /** The first-appearance order holds the same strings as `s`. */
  lemma {:induction false} DedupeMembers(s: seq<string>)
    ensures forall x :: x in Dedupe(s) <==> x in s
    decreases |s|
  {
    if |s| > 0 {
      DedupeMembers(s[..|s| - 1]);
      assert s == s[..|s| - 1] + [s[|s| - 1]];
    }
  }

  /** The first-appearance order holds each string once. */
  lemma {:induction false} DedupeDistinct(s: seq<string>)
    ensures Distinct(Dedupe(s))
    decreases |s|
  {
    if |s| > 0 {
      DedupeDistinct(s[..|s| - 1]);
      DedupeMembers(s[..|s| - 1]);
    }
  }

  /** The keys of all the dicts, one dict after the other. */
  function AllKeys(ds: seq<Dict>): seq<string> {
    if |ds| == 0 then [] else Keys(ds[0]) + AllKeys(ds[1..])
  }

  /** A sequence without repeats is its own first-appearance order. */
  lemma {:induction false} DedupeOfDistinct(s: seq<string>)
    requires Distinct(s)
    ensures Dedupe(s) == s
    decreases |s|
  {
    if |s| > 0 {
      var init := s[..|s| - 1];
      DedupeOfDistinct(init);
      DedupeMembers(init);
      assert s[|s| - 1] !in init;
      assert s == init + [s[|s| - 1]];
    }
  }

  /** What follows a prefix is deduplicated the same way whenever two
      prefixes have the same first-appearance order and the same elements. */
  lemma {:induction false} DedupeCongruence(a: seq<string>, a': seq<string>, b: seq<string>)
    requires Dedupe(a) == Dedupe(a')
    requires forall x :: x in a <==> x in a'
    ensures Dedupe(a + b) == Dedupe(a' + b)
    decreases |b|
  {
    if |b| == 0 {
      assert a + b == a && a' + b == a';
    } else {
      var b0 := b[..|b| - 1];
      DedupeCongruence(a, a', b0);
      DedupeMembers(a + b0);
      DedupeMembers(a' + b0);
      assert (a + b)[..|a + b| - 1] == a + b0;
      assert (a' + b)[..|a' + b| - 1] == a' + b0;
    }
  }

  /** The columns `AppendNew` carries to its next step. */
  function NextColumns(cols: seq<string>, k: string): seq<string> {
    if k in cols then cols else cols + [k]
  }

  /** One step of `AppendNew` does not change the first-appearance order of
      the columns and the keys still to come. */
  lemma AppendNewStep(cols: seq<string>, k: string, ks: seq<string>)
    ensures Dedupe(NextColumns(cols, k) + ks) == Dedupe(cols + [k] + ks)
  {
    if k in cols {
      assert (cols + [k])[..|cols + [k]| - 1] == cols;
      DedupeMembers(cols);
      DedupeCongruence(cols + [k], cols, ks);
    }
  }

  lemma DistinctNext(cols: seq<string>, k: string)
    requires Distinct(cols)
    ensures Distinct(NextColumns(cols, k))
  {
  }

  /** The first step of `AppendNew`. */
  lemma AppendNewUnfold(cols: seq<string>, ks: seq<string>)
    requires |ks| > 0
    ensures AppendNew(cols, ks) == AppendNew(NextColumns(cols, ks[0]), ks[1..])
  {
  }

  /** Splitting the first key off the keys that follow the columns. */
  lemma SplitFirst(cols: seq<string>, ks: seq<string>)
    requires |ks| > 0
    ensures cols + [ks[0]] + ks[1..] == cols + ks
  {
  }

  /** Adding new keys one at a time keeps them in first-appearance order. */
  lemma {:induction false} AppendNewOrder(cols: seq<string>, ks: seq<string>)
    requires Distinct(cols)
    ensures AppendNew(cols, ks) == Dedupe(cols + ks)
    decreases |ks|
  {
    if |ks| == 0 {
      assert cols + ks == cols;
      DedupeOfDistinct(cols);
    } else {
      DistinctNext(cols, ks[0]);
      AppendNewUnfold(cols, ks);
      AppendNewOrder(NextColumns(cols, ks[0]), ks[1..]);
      SplitFirst(cols, ks);
      AppendNewStep(cols, ks[0], ks[1..]);
    }
  }

  /** Deduplicating a prefix first does not change the overall order. */
  lemma DedupePrefix(a: seq<string>, b: seq<string>)
    ensures Dedupe(Dedupe(a) + b) == Dedupe(a + b)
  {
    DedupeDistinct(a);
    DedupeMembers(a);
    DedupeOfDistinct(Dedupe(a));
    DedupeCongruence(Dedupe(a), a, b);
  }

  /** The first step of `UnionKeys` and of `AllKeys`. */
  lemma UnionKeysUnfold(cols: seq<string>, ds: seq<Dict>)
    requires |ds| > 0
    ensures UnionKeys(cols, ds) == UnionKeys(AppendNew(cols, Keys(ds[0])), ds[1..])
    ensures cols + Keys(ds[0]) + AllKeys(ds[1..]) == cols + AllKeys(ds)
  {
  }

  /** Scanning the dicts in list order meets their keys in `AllKeys` order. */
  lemma {:induction false} UnionKeysOrder(cols: seq<string>, ds: seq<Dict>)
    requires Distinct(cols)
    ensures UnionKeys(cols, ds) == Dedupe(cols + AllKeys(ds))
    decreases |ds|
  {
    if |ds| == 0 {
      assert cols + AllKeys(ds) == cols;
      DedupeOfDistinct(cols);
    } else {
      UnionKeysUnfold(cols, ds);
      AppendNewOrder(cols, Keys(ds[0]));
      UnionKeysOrder(AppendNew(cols, Keys(ds[0])), ds[1..]);
      DedupePrefix(cols + Keys(ds[0]), AllKeys(ds[1..]));
    }
  }

  /** The columns of a `DataFrame` built from records are every key of the
      records once, in order of first appearance. */
  lemma ColumnsOrder(ds: seq<Dict>)
    requires |ds| > 0
    ensures Columns(ds) == Dedupe(AllKeys(ds))
  {
    UnionKeysOrder(Keys(ds[0]), ds[1..]);
  }

  /** `DataFrame(records)` followed by moving the `key` column to the front. */
  function FromRecords(ds: seq<Dict>, key: string): (t: Table)
    requires forall i :: 0 <= i < |ds| ==> HasKey(ds[i], key)
    requires |ds| > 0
    ensures |t.columns| >= 1 && t.columns[0] == key && Distinct(t.columns)
    ensures t.columns[1..] == Without(Columns(ds), key)
    ensures forall x :: x in t.columns <==> exists i :: 0 <= i < |ds| && HasKey(ds[i], x)
    ensures |t.rows| == |ds|
    ensures forall i :: 0 <= i < |ds| ==> t.rows[i] == ToMap(ds[i])
    ensures forall i, x :: 0 <= i < |t.rows| && x in t.rows[i] ==> x in t.columns
  {
    var cols := Columns(ds);
    assert HasKey(ds[0], key);
    var t := Table(MoveToFront(cols, key), seq(|ds|, i requires 0 <= i < |ds| => ToMap(ds[i])));
    RowKeysInColumns(ds);
    forall i, x | 0 <= i < |t.rows| && x in t.rows[i] ensures x in t.columns {
      assert t.rows[i] == ToMap(ds[i]);
      assert x in cols;
    }
    t
  }

  /** Every key of every record is a column of the table built from them. */
  lemma RowKeysInColumns(ds: seq<Dict>)
    requires |ds| > 0
    ensures forall i, x :: 0 <= i < |ds| && x in ToMap(ds[i]) ==> x in Columns(ds)
  {
    forall i, x | 0 <= i < |ds| && x in ToMap(ds[i]) ensures x in Columns(ds) {
      assert HasKey(ds[i], x);
    }
  }
}
