/**
 * The two dictionary-building patterns the viewer uses over and over:
 *  - a list of unique ids kept in first-seen order (`if (!xs.includes(x)) xs.push(x)`), and
 *  - a dictionary filled by `d[k] = v` in a loop, where the last write to a key wins.
 */
module Collections {

  /** No element occurs twice. */
  predicate NoDuplicates<T(==)>(s: seq<T>)
  {
    forall i, j :: 0 <= i < j < |s| ==> s[i] != s[j]
  }

  /** The position of the first occurrence of x in s. */
  function FirstIndex(s: seq<string>, x: string): (k: nat)
    requires x in s
    ensures k < |s| && s[k] == x
    ensures forall j :: 0 <= j < k ==> s[j] != x
  {
    if s[0] == x then 0 else 1 + FirstIndex(s[1..], x)
  }

  /**
   * The unique elements of s in order of first occurrence: what a loop that pushes
   * every element it has not seen yet leaves in its list.
   */
  function Dedup(s: seq<string>): seq<string>
  {
    if s == [] then []
    else
      var d := Dedup(s[..|s| - 1]);
      if s[|s| - 1] in d then d else d + [s[|s| - 1]]
  }

  /** Dedup keeps exactly the elements of s. */
  lemma {:induction false} DedupElements(s: seq<string>)
    ensures forall x :: x in Dedup(s) <==> x in s
  {
    if s != [] {
      var p := s[..|s| - 1];
      DedupElements(p);
      assert s == p + [s[|s| - 1]];
    }
  }

  /** Dedup never holds an element twice. */
  lemma {:induction false} DedupNoDuplicates(s: seq<string>)
    ensures NoDuplicates(Dedup(s))
  {
    if s != [] {
      DedupNoDuplicates(s[..|s| - 1]);
    }
  }

  /** Dedup is no longer than its input. */
  lemma {:induction false} DedupLength(s: seq<string>)
    ensures |Dedup(s)| <= |s|
  {
    if s != [] {
      DedupLength(s[..|s| - 1]);
    }
  }

  /** An element Dedup listed before the last step was first seen before the last position. */
  lemma DedupPrefixFirstIndex(s: seq<string>, x: string)
    requires s != [] && x in Dedup(s[..|s| - 1])
    ensures x in s[..|s| - 1] && x in s
    ensures FirstIndex(s, x) == FirstIndex(s[..|s| - 1], x) < |s| - 1
  {
    var p := s[..|s| - 1];
    DedupElements(p);
    assert x in p;
    var k := FirstIndex(p, x);
    assert s[k] == x;
    assert forall j :: 0 <= j < k ==> s[j] == p[j];
  }

  /**
   * Dedup lists the elements in the order in which they first occur in s: an element
   * listed earlier was seen earlier.
   */
  lemma {:induction false} DedupFirstSeenOrder(s: seq<string>)
    ensures forall i, j :: 0 <= i < j < |Dedup(s)| ==>
      Dedup(s)[i] in s && Dedup(s)[j] in s &&
      FirstIndex(s, Dedup(s)[i]) < FirstIndex(s, Dedup(s)[j])
  {
    if s == [] {
      assert Dedup(s) == [];
    } else {
      var p := s[..|s| - 1];
      var d := Dedup(p);
      var r := Dedup(s);
      var last := s[|s| - 1];
      DedupFirstSeenOrder(p);
      DedupElements(p);
      forall i, j | 0 <= i < j < |r|
        ensures r[i] in s && r[j] in s && FirstIndex(s, r[i]) < FirstIndex(s, r[j])
      {
        assert r[i] == d[i];
        DedupPrefixFirstIndex(s, r[i]);
        if j < |d| {
          assert r[j] == d[j];
          DedupPrefixFirstIndex(s, r[j]);
        } else {
          assert r[j] == last && last !in p;
          assert FirstIndex(s, last) == |s| - 1 by {
            assert forall k :: 0 <= k < |p| ==> s[k] == p[k];
          }
        }
      }
      assert r == Dedup(s);
    }
  }

  /** A dictionary built by writing each pair in turn: a later pair overwrites an earlier one. */
  function Assoc<V>(pairs: seq<(string, V)>): map<string, V>
  {
    if pairs == [] then map[]
    else Assoc(pairs[..|pairs| - 1])[pairs[|pairs| - 1].0 := pairs[|pairs| - 1].1]
  }

  /** The keys of the dictionary are exactly the keys written. */
  lemma {:induction false} AssocKeys<V>(pairs: seq<(string, V)>)
    ensures forall k :: k in Assoc(pairs) <==> exists i :: 0 <= i < |pairs| && pairs[i].0 == k
  {
    if pairs != [] {
      var p := pairs[..|pairs| - 1];
      AssocKeys(p);
      forall k | k in Assoc(pairs)
        ensures exists i :: 0 <= i < |pairs| && pairs[i].0 == k
      {
        if k != pairs[|pairs| - 1].0 {
          assert k in Assoc(p);
          var i :| 0 <= i < |p| && p[i].0 == k;
          assert pairs[i].0 == k;
        } else {
          assert pairs[|pairs| - 1].0 == k;
        }
      }
      forall k | exists i :: 0 <= i < |pairs| && pairs[i].0 == k
        ensures k in Assoc(pairs)
      {
        var i :| 0 <= i < |pairs| && pairs[i].0 == k;
        if i < |p| { assert p[i].0 == k; }
      }
    }
  }

  /**
   * Last write wins: the value stored under the key of pair i is that pair's value
   * whenever no later pair has the same key.
   */
  lemma {:induction false} AssocLastWins<V>(pairs: seq<(string, V)>, i: nat)
    requires i < |pairs|
    requires forall j :: i < j < |pairs| ==> pairs[j].0 != pairs[i].0
    ensures pairs[i].0 in Assoc(pairs) && Assoc(pairs)[pairs[i].0] == pairs[i].1
  {
    if i < |pairs| - 1 {
      var p := pairs[..|pairs| - 1];
      assert p[i] == pairs[i];
      AssocLastWins(p, i);
    }
  }
}
