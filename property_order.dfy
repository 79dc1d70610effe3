/** The order in which JavaScript enumerates the own keys of a plain object
    (`$.each` over an object, `for ... in`): keys that are array indices
    come first in ascending numeric order, then every other key in the order
    it was first added. */
module PropertyOrder {

  predicate IsDigit(c: char) {
    '0' <= c <= '9'
  }

  /** The number a string of decimal digits denotes. */
  function DecimalValue(s: string): nat
  {
    if |s| == 0 then 0
    else
      var last := s[|s| - 1];
      DecimalValue(s[..|s| - 1]) * 10 + (if IsDigit(last) then last as int - '0' as int else 0)
  }

  /** 2^32 - 1: an array index is below this bound. */
  const ArrayIndexBound: nat := 4294967295

  /** A canonical numeric string for an integer in [0, 2^32 - 1): digits
      only, no leading zero unless the key is "0". */
  predicate IsArrayIndex(k: string) {
    && |k| > 0
    && (forall i | 0 <= i < |k| :: IsDigit(k[i]))
    && (k[0] != '0' || |k| == 1)
    && DecimalValue(k) < ArrayIndexBound
  }

  function IndexKeys(keys: seq<string>): (r: seq<string>)
    ensures forall k | k in r :: IsArrayIndex(k)
  {
    if |keys| == 0 then []
    else (if IsArrayIndex(keys[0]) then [keys[0]] else []) + IndexKeys(keys[1..])
  }

  function OtherKeys(keys: seq<string>): (r: seq<string>)
    ensures forall k | k in r :: !IsArrayIndex(k)
  {
    if |keys| == 0 then []
    else (if IsArrayIndex(keys[0]) then [] else [keys[0]]) + OtherKeys(keys[1..])
  }

  ghost predicate Ascending(ks: seq<string>) {
    forall i, j | 0 <= i < j < |ks| :: DecimalValue(ks[i]) <= DecimalValue(ks[j])
  }

  function Insert(k: string, ks: seq<string>): seq<string>
  {
    if |ks| == 0 then [k]
    else if DecimalValue(k) <= DecimalValue(ks[0]) then [k] + ks
    else [ks[0]] + Insert(k, ks[1..])
  }

  function SortByValue(ks: seq<string>): seq<string>
  {
    if |ks| == 0 then [] else Insert(ks[0], SortByValue(ks[1..]))
  }

  /** The enumeration order of an object whose keys were added in the order `keys`. */
  function EnumerationOrder(keys: seq<string>): seq<string>
  {
    SortByValue(IndexKeys(keys)) + OtherKeys(keys)
  }

  lemma {:induction false} InsertPermutes(k: string, ks: seq<string>)
    ensures multiset(Insert(k, ks)) == multiset(ks) + multiset{k}
  {
    if |ks| > 0 && DecimalValue(k) > DecimalValue(ks[0]) {
      InsertPermutes(k, ks[1..]);
      assert ks == [ks[0]] + ks[1..];
    }
  }

  lemma AscendingTail(ks: seq<string>)
    requires Ascending(ks) && |ks| > 0
    ensures Ascending(ks[1..])
    ensures forall x | x in ks[1..] :: DecimalValue(ks[0]) <= DecimalValue(x)
  {
    var tail := ks[1..];
    forall i, j | 0 <= i < j < |tail| ensures DecimalValue(tail[i]) <= DecimalValue(tail[j]) {
      assert tail[i] == ks[i + 1] && tail[j] == ks[j + 1];
    }
    forall x | x in tail ensures DecimalValue(ks[0]) <= DecimalValue(x) {
      var j :| 0 <= j < |tail| && tail[j] == x;
      assert tail[j] == ks[j + 1];
    }
  }

  lemma AscendingCons(head: string, r: seq<string>)
    requires Ascending(r)
    requires forall x | x in r :: DecimalValue(head) <= DecimalValue(x)
    ensures Ascending([head] + r)
  {
    var out := [head] + r;
    forall i, j | 0 <= i < j < |out| ensures DecimalValue(out[i]) <= DecimalValue(out[j]) {
      assert out[j] == r[j - 1];
      if i > 0 {
        assert out[i] == r[i - 1];
      }
    }
  }

  lemma {:induction false} InsertSorted(k: string, ks: seq<string>)
    requires Ascending(ks)
    ensures Ascending(Insert(k, ks))
  {
    if |ks| > 0 && DecimalValue(k) > DecimalValue(ks[0]) {
      var head, tail := ks[0], ks[1..];
      AscendingTail(ks);
      InsertSorted(k, tail);
      InsertPermutes(k, tail);
      var r := Insert(k, tail);
      forall x | x in r ensures DecimalValue(head) <= DecimalValue(x) {
        assert x in multiset(r);
        if x != k {
          assert x in multiset(tail);
        }
      }
      AscendingCons(head, r);
    }
  }

  lemma {:induction false} SortByValueSorted(ks: seq<string>)
    ensures Ascending(SortByValue(ks))
    ensures multiset(SortByValue(ks)) == multiset(ks)
  {
    if |ks| > 0 {
      SortByValueSorted(ks[1..]);
      InsertSorted(ks[0], SortByValue(ks[1..]));
      InsertPermutes(ks[0], SortByValue(ks[1..]));
      assert ks == [ks[0]] + ks[1..];
    }
  }

  lemma {:induction false} SplitKeys(keys: seq<string>)
    ensures multiset(IndexKeys(keys)) + multiset(OtherKeys(keys)) == multiset(keys)
  {
    if |keys| > 0 {
      SplitKeys(keys[1..]);
      assert keys == [keys[0]] + keys[1..];
    }
  }

  lemma {:induction false} OtherKeysOfAppend(a: seq<string>, b: seq<string>)
    ensures OtherKeys(a + b) == OtherKeys(a) + OtherKeys(b)
  {
    if |a| > 0 {
      assert (a + b)[1..] == a[1..] + b;
      OtherKeysOfAppend(a[1..], b);
    } else {
      assert a + b == b;
    }
  }

  lemma {:induction false} IndexKeysOfAppend(a: seq<string>, b: seq<string>)
    ensures IndexKeys(a + b) == IndexKeys(a) + IndexKeys(b)
  {
    if |a| > 0 {
      assert (a + b)[1..] == a[1..] + b;
      IndexKeysOfAppend(a[1..], b);
    } else {
      assert a + b == b;
    }
  }

  lemma {:induction false} FilterAllIndices(ks: seq<string>)
    requires forall k | k in ks :: IsArrayIndex(k)
    ensures OtherKeys(ks) == [] && IndexKeys(ks) == ks
  {
    if |ks| > 0 {
      assert ks[0] in ks;
      FilterAllIndices(ks[1..]);
      assert ks == [ks[0]] + ks[1..];
    }
  }

  lemma {:induction false} FilterNoIndices(ks: seq<string>)
    requires forall k | k in ks :: !IsArrayIndex(k)
    ensures OtherKeys(ks) == ks && IndexKeys(ks) == []
  {
    if |ks| > 0 {
      assert ks[0] in ks;
      FilterNoIndices(ks[1..]);
      assert ks == [ks[0]] + ks[1..];
    }
  }

  /** The enumeration order lists exactly the keys that were added: it is a
      permutation of them. */
  lemma EnumerationOrderPermutes(keys: seq<string>)
    ensures multiset(EnumerationOrder(keys)) == multiset(keys)
    ensures forall k :: k in EnumerationOrder(keys) <==> k in keys
  {
    var r := EnumerationOrder(keys);
    SortByValueSorted(IndexKeys(keys));
    SplitKeys(keys);
    forall k ensures k in r <==> k in keys {
      assert k in r <==> k in multiset(r);
      assert k in keys <==> k in multiset(keys);
    }
  }

  /** Array-index keys come first, ascending by numeric value; the other
      keys keep the order in which they were added. */
  lemma EnumerationOrderShape(keys: seq<string>)
    ensures var r := EnumerationOrder(keys);
      forall i, j | 0 <= i < j < |r| :: IsArrayIndex(r[j]) ==> IsArrayIndex(r[i]) && DecimalValue(r[i]) <= DecimalValue(r[j])
    ensures IndexKeys(EnumerationOrder(keys)) == SortByValue(IndexKeys(keys))
    ensures OtherKeys(EnumerationOrder(keys)) == OtherKeys(keys)
  {
    var sorted := SortByValue(IndexKeys(keys));
    var others := OtherKeys(keys);
    var r := EnumerationOrder(keys);
    SortByValueSorted(IndexKeys(keys));
    forall k | k in sorted ensures IsArrayIndex(k) {
      assert k in multiset(sorted);
      assert k in multiset(IndexKeys(keys));
    }
    forall i, j | 0 <= i < j < |r| && IsArrayIndex(r[j])
      ensures IsArrayIndex(r[i]) && DecimalValue(r[i]) <= DecimalValue(r[j])
    {
      assert j < |sorted|;
      assert r[i] == sorted[i] && r[j] == sorted[j];
      assert r[i] in sorted;
    }
    OtherKeysOfAppend(sorted, others);
    IndexKeysOfAppend(sorted, others);
    FilterAllIndices(sorted);
    FilterNoIndices(others);
  }
}
