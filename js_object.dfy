/**
 * Plain JavaScript objects used as dictionaries (`Record<string, V>`): the
 * own properties in creation order.  Assigning to an existing property keeps
 * its place; a new property goes last.  `Object.keys` and `Object.entries`
 * enumerate array-index keys ("0", "7", "2024", ...) first in ascending
 * numeric order and then every other key in creation order
 * (OrdinaryOwnPropertyKeys, section 10.1.11.1 of ECMA-262).
 */
module JsObject {
  import opened Wrappers
  import opened JsString

  type Record<V> = seq<(string, V)>

  /** The keys in creation order. */
  function Keys<V>(r: Record<V>): (ks: seq<string>)
    ensures |ks| == |r|
    ensures forall i :: 0 <= i < |r| ==> ks[i] == r[i].0
  {
    if r == [] then [] else [r[0].0] + Keys(r[1..])
  }

  predicate DistinctKeys<V>(r: Record<V>)
  {
    forall i, j :: 0 <= i < j < |r| ==> r[i].0 != r[j].0
  }

  /** `obj[k]`, None for undefined. */
  function Get<V>(r: Record<V>, k: string): (v: Option<V>)
    ensures v.Some? <==> k in Keys(r)
  {
    if r == [] then None
    else if r[0].0 == k then Some(r[0].1)
    else
      assert Keys(r) == [r[0].0] + Keys(r[1..]);
      Get(r[1..], k)
  }

  /** `obj[k] = v`. */
  function Put<V>(r: Record<V>, k: string, v: V): (r': Record<V>)
    ensures Keys(r') == if k in Keys(r) then Keys(r) else Keys(r) + [k]
  {
    if r == [] then [(k, v)]
    else if r[0].0 == k then
      assert Keys([(k, v)] + r[1..]) == [k] + Keys(r[1..]);
      [(k, v)] + r[1..]
    else
      assert Keys(r) == [r[0].0] + Keys(r[1..]);
      [r[0]] + Put(r[1..], k, v)
  }

  /** Reading after writing: the written key has the new value, every other key is untouched. */
  lemma {:induction false} GetPut<V>(r: Record<V>, k: string, v: V, k2: string)
    ensures Get(Put(r, k, v), k2) == if k2 == k then Some(v) else Get(r, k2)
  {
    if r != [] && r[0].0 != k {
      GetPut(r[1..], k, v, k2);
      assert Put(r, k, v)[1..] == Put(r[1..], k, v);
    }
  }

  /** Writing never duplicates a key. */
  lemma PutKeepsKeysDistinct<V>(r: Record<V>, k: string, v: V)
    requires DistinctKeys(r)
    ensures DistinctKeys(Put(r, k, v))
  {
    var r' := Put(r, k, v);
    assert forall i :: 0 <= i < |r'| ==> r'[i].0 == Keys(r')[i];
    assert forall i :: 0 <= i < |r| ==> r[i].0 == Keys(r)[i];
  }

  /** The largest array index is 2^32 - 2. */
  const MaxArrayIndex: nat := 4294967294

  /** A canonical numeral of an array index: such keys are enumerated first. */
  predicate IsArrayIndex(k: string)
  {
    IsCanonicalDecimal(k) && DecimalValue(k) <= MaxArrayIndex
  }

  predicate AllArrayIndices(ks: seq<string>)
  {
    forall i :: 0 <= i < |ks| ==> IsArrayIndex(ks[i])
  }

  predicate AscendingIndices(ks: seq<string>)
  {
    AllArrayIndices(ks) && forall i, j :: 0 <= i < j < |ks| ==> DecimalValue(ks[i]) <= DecimalValue(ks[j])
  }

  /** The array-index keys of ks, in order. */
  function ArrayIndexKeys(ks: seq<string>): (r: seq<string>)
    ensures AllArrayIndices(r)
    ensures forall x :: x in r <==> x in ks && IsArrayIndex(x)
  {
    if ks == [] then []
    else (if IsArrayIndex(ks[0]) then [ks[0]] else []) + ArrayIndexKeys(ks[1..])
  }

  /** The other keys of ks, in order. */
  function OtherKeys(ks: seq<string>): (r: seq<string>)
    ensures forall i :: 0 <= i < |r| ==> !IsArrayIndex(r[i])
    ensures forall x :: x in r <==> x in ks && !IsArrayIndex(x)
  {
    if ks == [] then []
    else (if IsArrayIndex(ks[0]) then [] else [ks[0]]) + OtherKeys(ks[1..])
  }

  function InsertIndex(k: string, ks: seq<string>): (r: seq<string>)
    requires IsArrayIndex(k) && AscendingIndices(ks)
    ensures AscendingIndices(r)
    ensures multiset(r) == multiset(ks) + multiset{k}
  {
    if ks == [] then [k]
    else if DecimalValue(k) <= DecimalValue(ks[0]) then [k] + ks
    else
      var rest := InsertIndex(k, ks[1..]);
      assert ks == [ks[0]] + ks[1..];
      HeadIsLeast(ks[0], ks[1..]);
      AscendingCons(ks[0], rest, k, ks[1..]);
      [ks[0]] + rest
  }

  lemma AscendingAt(ks: seq<string>, i: nat, j: nat)
    requires AscendingIndices(ks) && i < j < |ks|
    ensures DecimalValue(ks[i]) <= DecimalValue(ks[j])
  {
  }

  /** The head of an ascending sequence is at most every later element. */
  lemma HeadIsLeast(x: string, tail: seq<string>)
    requires IsArrayIndex(x) && AscendingIndices([x] + tail)
    ensures AscendingIndices(tail)
    ensures forall y :: y in tail ==> IsArrayIndex(y) && DecimalValue(x) <= DecimalValue(y)
  {
    var xs := [x] + tail;
    forall y | y in tail
      ensures IsArrayIndex(y) && DecimalValue(x) <= DecimalValue(y)
    {
      var j :| 0 <= j < |tail| && tail[j] == y;
      assert xs[j + 1] == y;
      AscendingAt(xs, 0, j + 1);
    }
    assert forall i :: 0 <= i < |tail| ==> tail[i] == xs[i + 1];
  }

  lemma AscendingCons(x: string, rest: seq<string>, k: string, tail: seq<string>)
    requires IsArrayIndex(x) && IsArrayIndex(k) && AscendingIndices(rest)
    requires DecimalValue(x) <= DecimalValue(k)
    requires forall y :: y in tail ==> IsArrayIndex(y) && DecimalValue(x) <= DecimalValue(y)
    requires multiset(rest) == multiset(tail) + multiset{k}
    ensures AscendingIndices([x] + rest)
  {
    forall i | 0 <= i < |rest|
      ensures DecimalValue(x) <= DecimalValue(rest[i])
    {
      assert rest[i] in multiset(rest);
      if rest[i] != k {
        assert rest[i] in multiset(tail);
      }
    }
    LeastCons(x, rest);
  }

  /** An index at most every element of an ascending sequence can go in front of it. */
  lemma LeastCons(x: string, rest: seq<string>)
    requires IsArrayIndex(x) && AscendingIndices(rest)
    requires forall i :: 0 <= i < |rest| ==> DecimalValue(x) <= DecimalValue(rest[i])
    ensures AscendingIndices([x] + rest)
  {
    var r := [x] + rest;
    forall i, j | 0 <= i < j < |r|
      ensures DecimalValue(r[i]) <= DecimalValue(r[j])
    {
      if i > 0 {
        assert r[i] == rest[i - 1] && r[j] == rest[j - 1];
        AscendingAt(rest, i - 1, j - 1);
      } else {
        assert r[j] == rest[j - 1];
      }
    }
  }

  /** Array-index keys in ascending numeric order. */
  function SortIndices(ks: seq<string>): (r: seq<string>)
    requires AllArrayIndices(ks)
    ensures AscendingIndices(r)
    ensures multiset(r) == multiset(ks)
  {
    if ks == [] then []
    else
      assert ks == [ks[0]] + ks[1..];
      InsertIndex(ks[0], SortIndices(ks[1..]))
  }

  /** `Object.keys(obj)`. */
  function OwnKeys<V>(r: Record<V>): (ks: seq<string>)
    ensures forall k :: k in ks <==> k in Keys(r)
  {
    var idx := ArrayIndexKeys(Keys(r));
    var sorted := SortIndices(idx);
    assert forall k :: k in sorted <==> k in multiset(idx);
    sorted + OtherKeys(Keys(r))
  }

  /** Splitting keys into array indices and the others loses and adds nothing. */
  lemma {:induction false} SplitKeysMultiset(ks: seq<string>)
    ensures multiset(ArrayIndexKeys(ks)) + multiset(OtherKeys(ks)) == multiset(ks)
  {
    if ks != [] {
      SplitKeysMultiset(ks[1..]);
      assert ks == [ks[0]] + ks[1..];
    }
  }

  /** `Object.keys` lists every key exactly as often as the record holds it: it is a permutation of the creation order. */
  lemma OwnKeysPermutation<V>(r: Record<V>)
    ensures multiset(OwnKeys(r)) == multiset(Keys(r))
    ensures |OwnKeys(r)| == |r|
  {
    SplitKeysMultiset(Keys(r));
    assert |OwnKeys(r)| == |multiset(OwnKeys(r))|;
  }

  predicate Distinct(ks: seq<string>)
  {
    forall i, j :: 0 <= i < j < |ks| ==> ks[i] != ks[j]
  }

  lemma {:induction false} DistinctCount(ks: seq<string>, x: string)
    requires Distinct(ks)
    ensures multiset(ks)[x] <= 1
  {
    if ks != [] {
      assert ks == [ks[0]] + ks[1..];
      assert Distinct(ks[1..]) by {
        forall i, j | 0 <= i < j < |ks[1..]| ensures ks[1..][i] != ks[1..][j] {
          assert ks[1..][i] == ks[i + 1] && ks[1..][j] == ks[j + 1];
        }
      }
      DistinctCount(ks[1..], x);
      if x == ks[0] {
        assert x !in ks[1..] by {
          forall j | 0 <= j < |ks[1..]| ensures ks[1..][j] != x {
            assert ks[1..][j] == ks[j + 1];
          }
        }
      }
    }
  }

  lemma RepeatCount(ks: seq<string>, i: nat, j: nat)
    requires i < j < |ks| && ks[i] == ks[j]
    ensures multiset(ks)[ks[i]] >= 2
  {
    assert ks == ks[..j] + ks[j..];
    assert ks[i] in ks[..j] && ks[j] in ks[j..];
  }

  /** In a record without repeated keys, `Object.keys` lists each key once, and every key. */
  lemma OwnKeysDistinct<V>(r: Record<V>)
    requires DistinctKeys(r)
    ensures |OwnKeys(r)| == |r| && Distinct(OwnKeys(r))
    ensures forall k :: k in OwnKeys(r) <==> k in Keys(r)
  {
    OwnKeysPermutation(r);
    var ks := OwnKeys(r);
    forall i, j | 0 <= i < j < |ks| ensures ks[i] != ks[j] {
      if ks[i] == ks[j] {
        RepeatCount(ks, i, j);
        DistinctCount(Keys(r), ks[i]);
        assert false;
      }
    }
  }

  /** Array-index keys come first, in ascending order, and every other key follows in creation order. */
  lemma OwnKeysOrder<V>(r: Record<V>)
    ensures var ks := OwnKeys(r); var n := |ArrayIndexKeys(Keys(r))|;
      n <= |ks| && AscendingIndices(ks[..n]) && ks[n..] == OtherKeys(Keys(r))
  {
    var idx := ArrayIndexKeys(Keys(r));
    var sorted := SortIndices(idx);
    assert |sorted| == |multiset(idx)| == |idx|;
    assert OwnKeys(r)[..|idx|] == sorted;
  }

  /** Without array-index keys, `Object.keys` is the creation order. */
  lemma {:induction false} OwnKeysWithoutIndices<V>(r: Record<V>)
    requires forall i :: 0 <= i < |r| ==> !IsArrayIndex(r[i].0)
    ensures OwnKeys(r) == Keys(r)
  {
    OtherKeysOfNonIndices(Keys(r));
    NoArrayIndexKeys(Keys(r));
  }

  lemma {:induction false} OtherKeysOfNonIndices(ks: seq<string>)
    requires forall i :: 0 <= i < |ks| ==> !IsArrayIndex(ks[i])
    ensures OtherKeys(ks) == ks
  {
    if ks != [] {
      OtherKeysOfNonIndices(ks[1..]);
    }
  }

  lemma {:induction false} NoArrayIndexKeys(ks: seq<string>)
    requires forall i :: 0 <= i < |ks| ==> !IsArrayIndex(ks[i])
    ensures ArrayIndexKeys(ks) == []
  {
    if ks != [] {
      NoArrayIndexKeys(ks[1..]);
    }
  }
}
