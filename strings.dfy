/**
 * The JavaScript string operations the viewer applies to file names, field names and
 * node names: `includes`, `split` on a one-character separator, and the
 * digit-keeping `replace(/\D/g, '')`.
 */
module Strings {

  /** sub occurs in s starting at position i. */
  predicate OccursAt(s: string, sub: string, i: int)
  {
    0 <= i && i + |sub| <= |s| && s[i..i + |sub|] == sub
  }

  /** `s.includes(sub)`: sub occurs in s at some position (the empty string occurs everywhere). */
  function Contains(s: string, sub: string): (r: bool)
    ensures r <==> exists i :: OccursAt(s, sub, i)
  {
    if |sub| > |s| then false
    else if s[..|sub|] == sub then assert OccursAt(s, sub, 0); true
    else
      var r := Contains(s[1..], sub);
      assert r ==> exists i :: OccursAt(s, sub, i) by {
        if r {
          var i :| OccursAt(s[1..], sub, i);
          assert s[i + 1..i + 1 + |sub|] == s[1..][i..i + |sub|];
          assert OccursAt(s, sub, i + 1);
        }
      }
      assert (exists i :: OccursAt(s, sub, i)) ==> r by {
        if exists i :: OccursAt(s, sub, i) {
          var i :| OccursAt(s, sub, i);
          assert i != 0;
          assert s[1..][i - 1..i - 1 + |sub|] == s[i..i + |sub|];
          assert OccursAt(s[1..], sub, i - 1);
        }
      }
      r
  }

  /** A string does not contain a substring one of whose characters it lacks. */
  lemma MissingCharNotContained(s: string, sub: string, k: nat)
    requires k < |sub| && sub[k] !in s
    ensures !Contains(s, sub)
  {
    forall i | 0 <= i <= |s| - |sub| ensures !OccursAt(s, sub, i) {
      assert s[i..i + |sub|][k] == s[i + k];
    }
  }

  /**
   * `s.split(c)` for a one-character separator c: the pieces between consecutive
   * occurrences of c, always at least one (`"".split("_")` is `[""]`).
   */
  function Split(s: string, c: char): (parts: seq<string>)
    ensures |parts| >= 1
    ensures forall k :: 0 <= k < |parts| ==> c !in parts[k]
  {
    if s == [] then [""]
    else if s[0] == c then [""] + Split(s[1..], c)
    else
      var rest := Split(s[1..], c);
      [[s[0]] + rest[0]] + rest[1..]
  }

  /** The pieces glued back together with c between them (`parts.join(c)`). */
  function Join(parts: seq<string>, c: char): string
    requires |parts| >= 1
  {
    if |parts| == 1 then parts[0] else parts[0] + [c] + Join(parts[1..], c)
  }

  /** Splitting and joining again gives back the original string. */
  lemma {:induction false} JoinSplit(s: string, c: char)
    ensures Join(Split(s, c), c) == s
  {
    if s != [] {
      JoinSplit(s[1..], c);
      var rest := Split(s[1..], c);
      if s[0] == c {
        assert Split(s, c)[1..] == rest;
      } else if |rest| == 1 {
        assert Split(s, c) == [[s[0]] + rest[0]];
      } else {
        var parts := Split(s, c);
        assert parts[1..] == rest[1..];
        assert Join(rest, c) == rest[0] + [c] + Join(rest[1..], c);
        assert s == [s[0]] + s[1..];
      }
    }
  }

  /** Joining pieces that do not contain c and splitting again gives back the pieces. */
  lemma {:induction false} SplitJoin(parts: seq<string>, c: char)
    requires |parts| >= 1
    requires forall k :: 0 <= k < |parts| ==> c !in parts[k]
    ensures Split(Join(parts, c), c) == parts
  {
    if |parts| == 1 {
      NoSeparatorSplit(parts[0], c);
    } else {
      SplitJoin(parts[1..], c);
      SplitAfterPiece(parts[0], Join(parts[1..], c), c);
      assert Join(parts, c) == parts[0] + [c] + Join(parts[1..], c);
      assert parts == [parts[0]] + parts[1..];
    }
  }

  /** A string without the separator splits into itself alone. */
  lemma {:induction false} NoSeparatorSplit(s: string, c: char)
    requires c !in s
    ensures Split(s, c) == [s]
  {
    if s != [] {
      NoSeparatorSplit(s[1..], c);
      assert [s[0]] + s[1..] == s;
    }
  }

  /** Splitting a piece without c, then c, then t: the piece comes first, then t's pieces. */
  lemma {:induction false} SplitAfterPiece(a: string, t: string, c: char)
    requires c !in a
    ensures Split(a + [c] + t, c) == [a] + Split(t, c)
  {
    if a == [] {
      assert a + [c] + t == [c] + t;
      assert ([c] + t)[1..] == t;
    } else {
      var s := a + [c] + t;
      assert s[1..] == a[1..] + [c] + t;
      SplitAfterPiece(a[1..], t, c);
      assert [a[0]] + a[1..] == a;
    }
  }

  /** There is more than one piece exactly when the separator occurs. */
  lemma {:induction false} SplitMoreThanOne(s: string, c: char)
    ensures |Split(s, c)| > 1 <==> c in s
  {
    if s != [] {
      SplitMoreThanOne(s[1..], c);
      assert c in s <==> s[0] == c || c in s[1..];
    }
  }

  /** The position of the first c in s, or |s| when it does not occur (`s.indexOf(c)` with -1 read as |s|). */
  function IndexOf(s: string, c: char): (k: nat)
    ensures k <= |s| && c !in s[..k] && (k == |s| || s[k] == c)
  {
    if s == [] then 0
    else if s[0] == c then 0
    else
      var k := 1 + IndexOf(s[1..], c);
      assert s[..k] == [s[0]] + s[1..][..k - 1];
      k
  }

  /** The first piece of a split is the text before the first separator (all of s if there is none). */
  lemma SplitFirstPiece(s: string, c: char)
    ensures Split(s, c)[0] == s[..IndexOf(s, c)]
    ensures IndexOf(s, c) < |s| ==> Split(s, c)[1..] == Split(s[IndexOf(s, c) + 1..], c)
  {
    var k := IndexOf(s, c);
    if k == |s| {
      assert s[..k] == s;
      NoSeparatorSplit(s, c);
    } else {
      assert s == s[..k] + [c] + s[k + 1..];
      SplitAfterPiece(s[..k], s[k + 1..], c);
    }
  }

  /** An ASCII decimal digit, the complement of the regular-expression class `\D`. */
  predicate IsDigit(ch: char)
  {
    '0' <= ch <= '9'
  }

  /** `s.replace(/\D/g, '')`: the digits of s, in order. */
  function DigitsOnly(s: string): (r: string)
    ensures |r| <= |s|
    ensures forall k :: 0 <= k < |r| ==> IsDigit(r[k])
    ensures multiset(r) <= multiset(s)
  {
    if s == [] then ""
    else
      assert s == [s[0]] + s[1..];
      if IsDigit(s[0]) then [s[0]] + DigitsOnly(s[1..])
      else DigitsOnly(s[1..])
  }

  /** A string of digits only is left as it is; so removing non-digits twice changes nothing more. */
  lemma {:induction false} DigitsOnlyFixpoint(s: string)
    ensures DigitsOnly(s) == s <==> forall k :: 0 <= k < |s| ==> IsDigit(s[k])
  {
    if s != [] {
      DigitsOnlyFixpoint(s[1..]);
      assert [s[0]] + s[1..] == s;
      if !IsDigit(s[0]) {
        assert |DigitsOnly(s)| < |s|;
      }
    }
  }

  /** Removing non-digits is idempotent. */
  lemma DigitsOnlyIdempotent(s: string)
    ensures DigitsOnly(DigitsOnly(s)) == DigitsOnly(s)
  {
    DigitsOnlyFixpoint(DigitsOnly(s));
  }

  /** A character survives exactly when it is a digit of s: every non-digit is removed. */
  lemma {:induction false} DigitsOnlyCharacters(s: string)
    ensures forall ch :: ch in DigitsOnly(s) <==> ch in s && IsDigit(ch)
  {
    if s != [] {
      DigitsOnlyCharacters(s[1..]);
      assert s == [s[0]] + s[1..];
    }
  }

  /** Removing non-digits distributes over concatenation. */
  lemma {:induction false} DigitsOnlyConcat(a: string, b: string)
    ensures DigitsOnly(a + b) == DigitsOnly(a) + DigitsOnly(b)
  {
    if a != [] {
      assert (a + b)[1..] == a[1..] + b;
      DigitsOnlyConcat(a[1..], b);
    } else {
      assert a + b == b;
    }
  }
}
