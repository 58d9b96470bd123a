/** The PHP values the response helper handles: the arrays passed to `json`,
    `csv` and `render`, and the two built-ins whose outcome decides a branch
    (`isset`/`unset` on an array key, `substr_count`). */
module Php {
  import opened Wrappers
  import opened Assoc

  datatype Key = IntKey(n: int) | StrKey(s: string)

  /** A PHP value. Floats and objects are not part of this model. */
  datatype Value =
    | Null
    | Bool(b: bool)
    | Int(i: int)
    | Str(s: string)
    | Arr(entries: seq<(Key, Value)>)

  /** A PHP array: its entries in insertion order. */
  type PhpArray = seq<(Key, Value)>

  /** `$a[$k]` when the key exists. */
  function Get(a: PhpArray, k: Key): (r: Option<Value>)
    ensures r.Some? <==> exists i :: 0 <= i < |a| && a[i].0 == k
    ensures r.Some? ==> exists i :: 0 <= i < |a| && a[i] == (k, r.value)
  {
    if a == [] then None
    else if a[0].0 == k then Some(a[0].1)
    else
      var r := Get(a[1..], k);
      assert forall i :: 1 <= i < |a| ==> a[i] == a[1..][i - 1];
      r
  }

  /** `isset($a[$k])`: the key exists and its value is not null. */
  predicate Isset(a: PhpArray, k: Key)
  {
    Get(a, k).Some? && !Get(a, k).value.Null?
  }

  /** `unset($a[$k])`: drops the entry under `k`; the others keep their order. */
  function Unset(a: PhpArray, k: Key): PhpArray
  {
    if a == [] then []
    else if a[0].0 == k then Unset(a[1..], k)
    else [a[0]] + Unset(a[1..], k)
  }

  /** After `unset` no entry is named `k`, and `isset` is false for it. */
  lemma {:induction false} UnsetDrops(a: PhpArray, k: Key)
    ensures forall i :: 0 <= i < |Unset(a, k)| ==> Unset(a, k)[i].0 != k
    ensures Get(Unset(a, k), k) == None
  {
    if a != [] {
      UnsetDrops(a[1..], k);
    }
  }

  /** `unset` affects only its own key: every other key reads as before. */
  lemma {:induction false} UnsetGet(a: PhpArray, k: Key, k': Key)
    ensures Get(Unset(a, k), k') == if k' == k then None else Get(a, k')
  {
    if a != [] {
      UnsetGet(a[1..], k, k');
      if a[0].0 == k {
        UnsetDrops(a[1..], k);
      }
    }
  }

  /** Unsetting the key held at position `j` cuts out exactly that entry. */
  lemma {:induction false} UnsetAt(a: PhpArray, j: nat)
    requires UniqueKeys(a) && j < |a|
    ensures Unset(a, a[j].0) == a[..j] + a[j + 1..]
  {
    var k := a[j].0;
    if j == 0 {
      UnsetAbsent(a[1..], k);
    } else {
      assert a[1..][j - 1] == a[j];
      UnsetAt(a[1..], j - 1);
      assert a[..j] == [a[0]] + a[1..][..j - 1];
      assert a[j + 1..] == a[1..][j..];
    }
  }

  /** Unsetting a key the array does not hold leaves it as it is. */
  lemma {:induction false} UnsetAbsent(a: PhpArray, k: Key)
    requires forall i :: 0 <= i < |a| ==> a[i].0 != k
    ensures Unset(a, k) == a
  {
    if a != [] {
      assert forall i :: 0 <= i < |a| - 1 ==> a[1..][i] == a[i + 1];
      UnsetAbsent(a[1..], k);
    }
  }

  /** The values of an array in order: the fields `fputcsv` writes. */
  function Values(a: PhpArray): seq<Value>
  {
    seq(|a|, i requires 0 <= i < |a| => a[i].1)
  }

  /** `$needle` occurs in `$haystack` starting at position `i`. */
  predicate OccursAt(haystack: string, needle: string, i: nat)
  {
    i + |needle| <= |haystack| && haystack[i..i + |needle|] == needle
  }

  predicate Contains(haystack: string, needle: string)
  {
    exists i: nat :: i <= |haystack| && OccursAt(haystack, needle, i)
  }

  /** `substr_count($haystack, $needle)`: the number of non-overlapping
      occurrences of a non-empty needle, scanning from the left. */
  function SubstrCount(haystack: string, needle: string): nat
    requires needle != []
    decreases |haystack|
  {
    if |haystack| < |needle| then 0
    else if haystack[..|needle|] == needle then 1 + SubstrCount(haystack[|needle|..], needle)
    else SubstrCount(haystack[1..], needle)
  }

  /** `substr_count` is non-zero exactly when the needle occurs somewhere. */
  lemma {:induction false} SubstrCountPositive(haystack: string, needle: string)
    requires needle != []
    ensures SubstrCount(haystack, needle) > 0 <==> Contains(haystack, needle)
    decreases |haystack|
  {
    if |haystack| < |needle| {
      assert !Contains(haystack, needle);
    } else if haystack[..|needle|] == needle {
      assert OccursAt(haystack, needle, 0);
    } else {
      var tail := haystack[1..];
      SubstrCountPositive(tail, needle);
      if Contains(tail, needle) {
        var i: nat :| i <= |tail| && OccursAt(tail, needle, i);
        assert haystack[i + 1..i + 1 + |needle|] == tail[i..i + |needle|];
        assert OccursAt(haystack, needle, i + 1);
      }
      if Contains(haystack, needle) {
        var i: nat :| i <= |haystack| && OccursAt(haystack, needle, i);
        assert i != 0;
        assert i - 1 + |needle| <= |tail|;
        assert tail[i - 1..i - 1 + |needle|] == haystack[i..i + |needle|];
        assert OccursAt(tail, needle, i - 1);
      }
    }
  }
}
