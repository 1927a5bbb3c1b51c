/** Composite dictionary keys.

    The parameter dictionary encodes tuple keys such as (activity, project, resource)
    as one string whose parts are separated by commas ("A11,J1,K1"); the optimizer turns
    each such key back into a tuple with `split(',')`. A tuple is modelled as the
    sequence of its parts.
 */
module Keys {

  /** The separator of the parts of a composite key. */
  const Comma: char := ','

  /** Joins `parts` with `sep` between consecutive parts (Python's `sep.join(parts)`). */
  function Join(parts: seq<string>, sep: char): string
  {
    if parts == [] then []
    else if |parts| == 1 then parts[0]
    else parts[0] + [sep] + Join(parts[1..], sep)
  }

  /** Python's `s.split(sep)` for a single-character separator: the maximal pieces of `s`
      between separators, in order; the empty string splits into one empty piece. */
  function Split(s: string, sep: char): (parts: seq<string>)
    ensures |parts| >= 1
    ensures forall n | 0 <= n < |parts| :: sep !in parts[n]
    ensures Join(parts, sep) == s
  {
    if s == [] then [[]]
    else
      var rest := Split(s[1..], sep);
      if s[0] == sep then
        assert s == [sep] + s[1..];
        [[]] + rest
      else
        var parts := [[s[0]] + rest[0]] + rest[1..];
        assert parts[1..] == rest[1..];
        assert s == [s[0]] + s[1..];
        parts
  }

  /** Splitting a string without separators gives that string alone. */
  lemma {:induction false} SplitPlain(x: string, sep: char)
    requires sep !in x
    ensures Split(x, sep) == [x]
  {
    if x != [] {
      SplitPlain(x[1..], sep);
      assert [x[0]] + x[1..] == x;
    }
  }

  /** A separator-free part followed by a separator splits off as the first piece. */
  lemma {:induction false} SplitAfterPart(x: string, sep: char, y: string)
    requires sep !in x
    ensures Split(x + [sep] + y, sep) == [x] + Split(y, sep)
  {
    if x == [] {
      assert x + [sep] + y == [sep] + y;
      assert ([sep] + y)[1..] == y;
    } else {
      var s := x + [sep] + y;
      assert s[0] == x[0] && s[1..] == x[1..] + [sep] + y;
      SplitAfterPart(x[1..], sep, y);
      assert [x[0]] + x[1..] == x;
    }
  }

  /** Splitting inverts joining whenever no part contains the separator; this is the
      assumption under which the ingestion's `f"{act},{proj}"` keys decode to the
      intended tuples. */
  lemma {:induction false} SplitJoin(parts: seq<string>, sep: char)
    requires |parts| >= 1
    requires forall n | 0 <= n < |parts| :: sep !in parts[n]
    ensures Split(Join(parts, sep), sep) == parts
  {
    if |parts| == 1 {
      SplitPlain(parts[0], sep);
    } else {
      SplitJoin(parts[1..], sep);
      SplitAfterPart(parts[0], sep, Join(parts[1..], sep));
      assert [parts[0]] + parts[1..] == parts;
    }
  }

  /** Splitting is injective, because joining undoes it. */
  lemma SplitInjective(k1: string, k2: string, sep: char)
    requires Split(k1, sep) == Split(k2, sep)
    ensures k1 == k2
  {
    assert k1 == Join(Split(k1, sep), sep);
  }

  /** `{tuple(k.split(',')): v for k, v in m.items()}`: the dictionary re-keyed by tuples. */
  function DecodeKeys<V>(m: map<string, V>): (d: map<seq<string>, V>)
    ensures d.Keys == set k | k in m :: Split(k, Comma)
    ensures forall k | k in m :: d[Split(k, Comma)] == m[k]
  {
    map parts | parts in (set k | k in m :: Split(k, Comma)) :: m[Join(parts, Comma)]
  }

  /** A comma-free tuple key is present in the decoded dictionary exactly when its
      comma-joined string is present in the original one, with the same value. */
  lemma DecodedLookup<V>(m: map<string, V>, parts: seq<string>)
    requires |parts| >= 1
    requires forall n | 0 <= n < |parts| :: Comma !in parts[n]
    ensures parts in DecodeKeys(m) <==> Join(parts, Comma) in m
    ensures parts in DecodeKeys(m) ==> DecodeKeys(m)[parts] == m[Join(parts, Comma)]
  {
    SplitJoin(parts, Comma);
    if parts in DecodeKeys(m) {
      var k :| k in m && Split(k, Comma) == parts;
      assert Join(parts, Comma) == k;
    }
  }
}
