/** Python dicts with string keys as the extractor uses them: ordered
    association lists with distinct keys (insertion order is iteration order).
    `ToMap` gives a dict's meaning as a map; the operations are stated against
    it. */
module Records {
  import opened Text
  import opened Sorting

  /** A feature value as produced by the feature engine, or a text cell. Numeric
      feature values are opaque: the model never computes with them. */
  datatype Value = Str(str: string) | Opaque(id: int)

  datatype Field = Field(key: string, value: Value)

  predicate DistinctKeys(d: seq<Field>) {
    forall i, j :: 0 <= i < j < |d| ==> d[i].key != d[j].key
  }

  /** An ordered dictionary. */
  type Dict = d: seq<Field> | DistinctKeys(d) witness []

  function Keys(d: seq<Field>): (r: seq<string>)
    ensures |r| == |d|
    ensures forall i :: 0 <= i < |d| ==> r[i] == d[i].key
    ensures DistinctKeys(d) ==> Distinct(r)
  {
    seq(|d|, i requires 0 <= i < |d| => d[i].key)
  }

  predicate HasKey(d: seq<Field>, k: string) {
    exists i :: 0 <= i < |d| && d[i].key == k
  }

  /** The mapping a dict denotes. */
  function ToMap(d: Dict): (m: map<string, Value>)
    ensures forall k :: k in m <==> HasKey(d, k)
    ensures forall i :: 0 <= i < |d| ==> d[i].key in m && m[d[i].key] == d[i].value
  {
    map i | 0 <= i < |d| :: d[i].key := d[i].value
  }

  /** `{k: v for k, v in d.items() if not k.startswith(prefix)}`. */
  function DropPrefixed(d: Dict, prefix: string): (r: Dict)
    ensures forall i :: 0 <= i < |r| ==> !StartsWith(r[i].key, prefix)
    ensures ToMap(r) == map k | k in ToMap(d) && !StartsWith(k, prefix) :: ToMap(d)[k]
    ensures Keys(r) == Filter(Keys(d), Unprefixed(prefix))
  {
    if |d| == 0 then []
    else
      var rest := DropPrefixed(d[1..], prefix);
      assert Keys(d) == [d[0].key] + Keys(d[1..]);
      assert ToMap(d) == ToMap(d[1..])[d[0].key := d[0].value] by {
        ToMapCons(d);
      }
      if StartsWith(d[0].key, prefix) then rest
      else
        assert !HasKey(rest, d[0].key) by {
          assert !HasKey(d[1..], d[0].key);
        }
        ConsDistinct(d[0], rest);
        var r: Dict := [d[0]] + rest;
        ToMapCons(r);
        assert r[1..] == rest;
        r
  }

  /** The test a kept key passes. */
  function Unprefixed(prefix: string): string -> bool {
    k => !StartsWith(k, prefix)
  }

  lemma ConsDistinct(f: Field, d: Dict)
    requires !HasKey(d, f.key)
    ensures DistinctKeys([f] + d)
  {
    var r := [f] + d;
    forall i, j | 0 <= i < j < |r| ensures r[i].key != r[j].key {
      assert r[j] == d[j - 1];
    }
  }

  lemma TailLacksHead(d: Dict)
    requires |d| > 0
    ensures !HasKey(d[1..], d[0].key)
  {
    forall i | 0 <= i < |d[1..]| ensures d[1..][i].key != d[0].key {
      assert d[1..][i] == d[i + 1];
    }
  }

  lemma ToMapCons(d: Dict)
    requires |d| > 0
    ensures !HasKey(d[1..], d[0].key)
    ensures ToMap(d) == ToMap(d[1..])[d[0].key := d[0].value]
  {
    TailLacksHead(d);
    var rest := d[1..];
    forall k | k in ToMap(d) ensures k in ToMap(rest)[d[0].key := d[0].value] {
      var i :| 0 <= i < |d| && d[i].key == k;
      if i > 0 {
        assert rest[i - 1].key == k;
      }
    }
    forall i | 0 <= i < |rest| ensures rest[i].key in ToMap(d) && ToMap(d)[rest[i].key] == rest[i].value {
      assert d[i + 1] == rest[i];
    }
  }

  /** The position of a key present in the dict. */
  function IndexOf(d: seq<Field>, k: string): (i: nat)
    requires HasKey(d, k)
    ensures i < |d| && d[i].key == k
  {
    if d[0].key == k then 0
    else
      assert HasKey(d[1..], k) by {
        var j :| 0 <= j < |d| && d[j].key == k;
        assert d[1..][j - 1] == d[j];
      }
      1 + IndexOf(d[1..], k)
  }

  /** Replacing the value under an existing key, in place. */
  function Replace(d: Dict, k: string, v: Value): (r: Dict)
    requires HasKey(d, k)
    ensures Keys(r) == Keys(d)
    ensures ToMap(r) == ToMap(d)[k := v]
  {
    var j := IndexOf(d, k);
    var r := d[j := Field(k, v)];
    assert forall i :: 0 <= i < |d| ==> r[i].key == d[i].key;
    var r': Dict := r;
    ReplaceMap(d, j, v, r');
    r'
  }

  lemma ReplaceMap(d: Dict, j: nat, v: Value, r: Dict)
    requires j < |d| && |r| == |d| && r[j] == Field(d[j].key, v)
    requires forall i :: 0 <= i < |d| && i != j ==> r[i] == d[i]
    ensures Keys(r) == Keys(d)
    ensures ToMap(r) == ToMap(d)[d[j].key := v]
  {
    assert Keys(r) == Keys(d);
    ReplaceMapDomain(d, j, v, r);
    ReplaceMapValues(d, j, v, r);
  }

  lemma ReplaceMapDomain(d: Dict, j: nat, v: Value, r: Dict)
    requires j < |d| && |r| == |d| && r[j] == Field(d[j].key, v)
    requires forall i :: 0 <= i < |d| && i != j ==> r[i] == d[i]
    ensures forall x :: x in ToMap(r) <==> x in ToMap(d)
  {
    forall x | x in ToMap(r) ensures x in ToMap(d) {
      var i :| 0 <= i < |r| && r[i].key == x;
      assert d[i].key == x;
    }
    forall x | x in ToMap(d) ensures x in ToMap(r) {
      var i :| 0 <= i < |d| && d[i].key == x;
      assert r[i].key == x;
    }
  }

  lemma ReplaceMapValues(d: Dict, j: nat, v: Value, r: Dict)
    requires j < |d| && |r| == |d| && r[j] == Field(d[j].key, v)
    requires forall i :: 0 <= i < |d| && i != j ==> r[i] == d[i]
    ensures forall i :: 0 <= i < |d| ==> ToMap(r)[d[i].key] == if i == j then v else d[i].value
  {
    forall i | 0 <= i < |d| ensures ToMap(r)[d[i].key] == if i == j then v else d[i].value {
      assert r[i].key == d[i].key;
    }
  }

  /** Appending a field under a new key. */
  function Append(d: Dict, k: string, v: Value): (r: Dict)
    requires !HasKey(d, k)
    ensures Keys(r) == Keys(d) + [k]
    ensures ToMap(r) == ToMap(d)[k := v]
  {
    var r := d + [Field(k, v)];
    assert DistinctKeys(r) by {
      forall i | 0 <= i < |d| ensures r[i].key != k {
        assert r[i] == d[i];
      }
    }
    var r': Dict := r;
    AppendMap(d, k, v, r');
    r'
  }

  lemma AppendMap(d: Dict, k: string, v: Value, r: Dict)
    requires !HasKey(d, k) && r == d + [Field(k, v)]
    ensures Keys(r) == Keys(d) + [k]
    ensures ToMap(r) == ToMap(d)[k := v]
  {
    forall x | x in ToMap(r) ensures x in ToMap(d)[k := v] {
      var i :| 0 <= i < |r| && r[i].key == x;
      if i < |d| {
        assert d[i].key == x;
      }
    }
    forall x | x in ToMap(d) ensures x in ToMap(r) && ToMap(r)[x] == ToMap(d)[x] {
      var i :| 0 <= i < |d| && d[i].key == x;
      assert r[i] == d[i];
    }
    assert r[|d|].key == k;
  }

  /** `d[k] = v`: an existing key keeps its position and gets the new value; a
      new key is appended. */
  function Put(d: Dict, k: string, v: Value): (r: Dict)
    ensures ToMap(r) == ToMap(d)[k := v]
    ensures HasKey(d, k) ==> Keys(r) == Keys(d)
    ensures !HasKey(d, k) ==> Keys(r) == Keys(d) + [k]
  {
    if HasKey(d, k) then Replace(d, k, v) else Append(d, k, v)
  }

  predicate Distinct(s: seq<string>) {
    forall i, j :: 0 <= i < j < |s| ==> s[i] != s[j]
  }

  /** The sequence with every occurrence of `c` removed, order kept. */
  function Without(cols: seq<string>, c: string): (r: seq<string>)
    ensures c !in r
    ensures forall x :: x in r <==> x in cols && x != c
    ensures Distinct(cols) ==> Distinct(r)
    ensures c in cols && Distinct(cols) ==> |r| == |cols| - 1
    ensures c !in cols ==> r == cols
  {
    if |cols| == 0 then []
    else if cols[0] == c then Without(cols[1..], c)
    else
      var rest := Without(cols[1..], c);
      assert cols[0] !in cols[1..] ==> cols[0] !in rest;
      [cols[0]] + rest
  }

  /** Removing `c` after appending `c` is removing it from the original. */
  lemma {:induction false} WithoutLast(cols: seq<string>, c: string)
    ensures Without(cols + [c], c) == Without(cols, c)
  {
    if |cols| > 0 {
      WithoutLast(cols[1..], c);
      assert (cols + [c])[1..] == cols[1..] + [c];
    } else {
      assert [c][1..] == [];
    }
  }

  /** `pop(c)` followed by `insert(0, c)` on a column list holding `c`. */
  function MoveToFront(cols: seq<string>, c: string): (r: seq<string>)
    requires c in cols
    ensures |r| >= 1 && r[0] == c && r[1..] == Without(cols, c)
    ensures forall x :: x in r <==> x in cols
    ensures Distinct(cols) ==> Distinct(r) && |r| == |cols|
  {
    [c] + Without(cols, c)
  }
}
