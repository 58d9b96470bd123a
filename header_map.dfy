/** The header table of a response. In the source it is a PHP ordered array
    from header name to value: assigning to a new key appends the entry at the
    end, assigning to an existing key overwrites the value where the entry
    already sits. Here it is a sequence of (name, value) pairs in insertion
    order whose names are pairwise distinct. */
module HeaderMap {
  import opened Wrappers
  import opened Assoc

  type Headers = seq<(string, string)>

  predicate HasKey(h: Headers, k: string)
  {
    exists i :: 0 <= i < |h| && h[i].0 == k
  }

  /** The position of the first entry named `k`, if any. */
  function Find(h: Headers, k: string): Option<nat>
  {
    if h == [] then None
    else if h[0].0 == k then Some(0)
    else
      match Find(h[1..], k)
      case None => None
      case Some(i) => Some(i + 1)
  }

  /** `Find` answers with the first entry named `k`, and with None exactly
      when there is none. */
  lemma {:induction false} FindSpec(h: Headers, k: string)
    ensures Find(h, k).Some? ==> Find(h, k).value < |h| && h[Find(h, k).value].0 == k
    ensures Find(h, k).Some? ==> forall j :: 0 <= j < Find(h, k).value ==> h[j].0 != k
    ensures Find(h, k).None? <==> !HasKey(h, k)
  {
    if h != [] && h[0].0 != k {
      FindSpec(h[1..], k);
      assert forall i :: 1 <= i < |h| ==> h[i] == h[1..][i - 1];
    }
  }

  /** `$headers[$k]`: the value stored under `k`, if any. */
  function Lookup(h: Headers, k: string): (r: Option<string>)
    ensures r.Some? <==> HasKey(h, k)
    ensures r.Some? ==> exists i :: 0 <= i < |h| && h[i] == (k, r.value)
  {
    FindSpec(h, k);
    match Find(h, k)
    case None => None
    case Some(i) => Some(h[i].1)
  }

  /** `$headers[$k] = $v`: the value is stored in the entry found for `k`,
      or in a new entry at the end. */
  function Put(h: Headers, k: string, v: string): Headers
  {
    FindSpec(h, k);
    match Find(h, k)
    case None => h + [(k, v)]
    case Some(i) => h[i := (k, v)]
  }

  /** On a table with distinct names, a new name is appended at the end; an
      existing name keeps its position and only its value changes; the names
      stay distinct. */
  lemma PutSpec(h: Headers, k: string, v: string)
    requires UniqueKeys(h)
    ensures UniqueKeys(Put(h, k, v))
    ensures HasKey(Put(h, k, v), k)
    ensures !HasKey(h, k) ==> Put(h, k, v) == h + [(k, v)]
    ensures HasKey(h, k) ==>
      (|Put(h, k, v)| == |h| &&
       forall i :: 0 <= i < |h| ==> Put(h, k, v)[i] == (if h[i].0 == k then (k, v) else h[i]))
  {
    var r := Put(h, k, v);
    FindSpec(h, k);
    match Find(h, k)
    case None =>
      assert r[|h|].0 == k;
    case Some(i) =>
      assert r[i].0 == k;
      assert forall j :: 0 <= j < |h| && j != i ==> h[j].0 != h[i].0;
  }

  /** In a table with distinct names the entry at `i` is the one found for its name. */
  lemma FindUnique(h: Headers, i: nat)
    requires UniqueKeys(h) && i < |h|
    ensures Find(h, h[i].0) == Some(i)
  {
    FindSpec(h, h[i].0);
  }

  /** Reading back after `setHeader`: the new value under `k`, every other
      name as before. */
  lemma PutLookup(h: Headers, k: string, v: string, k': string)
    requires UniqueKeys(h)
    ensures Lookup(Put(h, k, v), k') == if k' == k then Some(v) else Lookup(h, k')
  {
    var r := Put(h, k, v);
    PutSpec(h, k, v);
    if HasKey(h, k') {
      var j :| 0 <= j < |h| && h[j].0 == k';
      assert r[j] == if k' == k then (k, v) else h[j];
      FindUnique(r, j);
      FindUnique(h, j);
    } else if k' == k {
      assert r[|h|] == (k, v);
      FindUnique(r, |h|);
    } else {
      assert !HasKey(r, k') by {
        forall i | 0 <= i < |r|
          ensures r[i].0 != k'
        {
          if i < |h| { assert r[i] == h[i] || r[i] == (k, v); }
        }
      }
    }
  }

  /** Setting the same header twice: the second value wins and the entry
      stands where the first write put it. */
  lemma PutTwice(h: Headers, k: string, v1: string, v2: string)
    requires UniqueKeys(h)
    ensures Put(Put(h, k, v1), k, v2) == Put(h, k, v2)
  {
    var once := Put(h, k, v1);
    PutSpec(h, k, v1);
    PutSpec(h, k, v2);
    PutSpec(once, k, v2);
    if !HasKey(h, k) {
      assert once[|h|].0 == k;
      assert forall i :: 0 <= i < |h| ==> once[i].0 != k;
    }
  }

  /** Writing the value a header already has changes nothing. */
  lemma PutCurrentValue(h: Headers, k: string)
    requires UniqueKeys(h) && HasKey(h, k)
    ensures Put(h, k, Lookup(h, k).value) == h
  {
    var i :| 0 <= i < |h| && h[i] == (k, Lookup(h, k).value);
    FindUnique(h, i);
  }

  /** A run of `setHeader` calls, one per entry of `es`, in order. */
  function PutAll(h: Headers, es: Headers): Headers
    decreases |es|
  {
    if es == [] then h
    else Put(PutAll(h, es[..|es| - 1]), es[|es| - 1].0, es[|es| - 1].1)
  }

  /** A run of writes keeps the names distinct, and every entry already in
      the table stays where it was. */
  lemma {:induction false} PutAllSpec(h: Headers, es: Headers)
    requires UniqueKeys(h)
    ensures UniqueKeys(PutAll(h, es))
    ensures |h| <= |PutAll(h, es)|
    ensures forall i :: 0 <= i < |h| ==> PutAll(h, es)[i].0 == h[i].0
    decreases |es|
  {
    if es != [] {
      var init, e := es[..|es| - 1], es[|es| - 1];
      PutAllSpec(h, init);
      PutSpec(PutAll(h, init), e.0, e.1);
    }
  }

  /** The value the last entry named `k` in `es` carries, if any. */
  function LastAssigned(es: Headers, k: string): (r: Option<string>)
    ensures r.Some? <==> HasKey(es, k)
    decreases |es|
  {
    if es == [] then None
    else if es[|es| - 1].0 == k then Some(es[|es| - 1].1)
    else
      var r := LastAssigned(es[..|es| - 1], k);
      assert forall i :: 0 <= i < |es| - 1 ==> es[i] == es[..|es| - 1][i];
      r
  }

  /** After a run of writes, a name holds the last value written to it, or its
      old value when the run did not touch it. */
  lemma {:induction false} PutAllLookup(h: Headers, es: Headers, k: string)
    requires UniqueKeys(h)
    ensures Lookup(PutAll(h, es), k) ==
      match LastAssigned(es, k)
      case Some(v) => Some(v)
      case None => Lookup(h, k)
    decreases |es|
  {
    if es != [] {
      var init, e := es[..|es| - 1], es[|es| - 1];
      PutAllLookup(h, init, k);
      PutAllSpec(h, init);
      PutLookup(PutAll(h, init), e.0, e.1, k);
    }
  }

  /** Writes to names the table does not hold yet, all distinct, append the
      entries in the order they were written. */
  lemma {:induction false} PutAllAppends(h: Headers, es: Headers)
    requires UniqueKeys(h + es)
    ensures UniqueKeys(h)
    ensures PutAll(h, es) == h + es
    decreases |es|
  {
    assert forall i :: 0 <= i < |h| ==> (h + es)[i] == h[i];
    if es != [] {
      var init, e := es[..|es| - 1], es[|es| - 1];
      assert h + es == (h + init) + [e];
      assert forall i :: 0 <= i < |h + init| ==> (h + init)[i] == (h + es)[i];
      PutAllAppends(h, init);
      PutSpec(h + init, e.0, e.1);
      assert !HasKey(h + init, e.0) by {
        forall i | 0 <= i < |h + init|
          ensures (h + init)[i].0 != e.0
        {
          assert (h + es)[i] == (h + init)[i];
          assert (h + es)[|h + es| - 1] == e;
        }
      }
    }
  }

  /** A table of writes whose names are distinct and new to `h` lands at the
      end of `h`, in the order of the table. */
  lemma FreshTableAppends(h: Headers, es: Headers)
    requires UniqueKeys(h) && UniqueKeys(es)
    requires forall i :: 0 <= i < |es| ==> !HasKey(h, es[i].0)
    ensures PutAll(h, es) == h + es
  {
    var all := h + es;
    forall i, j | 0 <= i < j < |all|
      ensures all[i].0 != all[j].0
    {
      if j >= |h| {
        assert all[j] == es[j - |h|];
        if i < |h| {
          assert all[i] == h[i];
        } else {
          assert all[i] == es[i - |h|];
        }
      } else {
        assert all[i] == h[i] && all[j] == h[j];
      }
    }
    PutAllAppends(h, es);
  }

  /** The first `n + 1` writes of a run are the first `n` and one more. */
  lemma PutAllStep(h: Headers, es: Headers, n: nat)
    requires n < |es|
    ensures PutAll(h, es[..n + 1]) == Put(PutAll(h, es[..n]), es[n].0, es[n].1)
  {
    assert es[..n + 1][..n] == es[..n];
  }
}
