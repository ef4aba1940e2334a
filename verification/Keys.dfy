/** Composite keys made by joining strings, and when a joined key stands for its parts. */
module Keys {
  import opened Prelude

  const COLON: char := ':'
  const SEPARATOR := "::"

  function Join(parts: seq<string>, sep: string): string {
    if parts == [] then ""
    else if |parts| == 1 then parts[0]
    else parts[0] + sep + Join(parts[1..], sep)
  }

  function Key(parts: seq<string>): string {
    Join(parts, SEPARATOR)
  }

  /** The key of two parts. */
  function PairKey(a: string, b: string): string {
    a + SEPARATOR + b
  }

  /** The key style of labels and of the older checker: one colon. */
  function ColonKey(a: string, b: string): string {
    a + [COLON] + b
  }

  /** Joining two lists joins their texts with the separator between them. */
  lemma {:induction false} JoinConcat(p: seq<string>, q: seq<string>, sep: string)
    requires p != [] && q != []
    ensures Join(p + q, sep) == Join(p, sep) + sep + Join(q, sep)
  {
    if |p| == 1 {
      assert (p + q)[1..] == q;
    } else {
      JoinConcat(p[1..], q, sep);
      assert (p + q)[1..] == p[1..] + q;
      var rest, last := Join(p[1..], sep), Join(q, sep);
      assert p[0] + sep + (rest + sep + last) == (p[0] + sep + rest) + sep + last;
    }
  }

  lemma {:induction false} JoinThree(a: string, b: string, c: string, sep: string)
    ensures Join([a, b, c], sep) == a + sep + b + sep + c
  {
    JoinConcat([a], [b, c], sep);
    JoinConcat([b], [c], sep);
    assert [a] + [b, c] == [a, b, c] && [b] + [c] == [b, c];
  }

  lemma {:induction false} JoinFive(a: string, b: string, c: string, d: string, e: string, sep: string)
    ensures Join([a, b, c, d, e], sep) == a + sep + b + sep + c + sep + d + sep + e
  {
    JoinConcat([a, b], [c, d, e], sep);
    JoinConcat([a], [b], sep);
    JoinConcat([c], [d, e], sep);
    JoinConcat([d], [e], sep);
    assert [a, b] + [c, d, e] == [a, b, c, d, e] && [c] + [d, e] == [c, d, e];
    assert [a] + [b] == [a, b] && [d] + [e] == [d, e];
  }

  /** The key of two parts, written out. */
  lemma PairKeyJoins(a: string, b: string)
    ensures Join([a], SEPARATOR) == a && Key([a, b]) == PairKey(a, b) == a + "::" + b
  {
    JoinConcat([a], [b], SEPARATOR);
    assert [a] + [b] == [a, b];
  }

  predicate FreeOf(ch: char, parts: seq<string>) {
    forall i :: 0 <= i < |parts| ==> ch !in parts[i]
  }

  /** A text cut at the first separator has one reading. Only the left parts matter. */
  lemma {:induction false} CutAtSeparator(a: string, x: string, c: string, y: string, sep: string)
    requires sep != "" && sep[0] !in a && sep[0] !in c
    requires a + sep + x == c + sep + y
    ensures a == c && x == y
  {
    var s, t := a + sep + x, c + sep + y;
    assert s[|a|] == sep[0] && t[|c|] == sep[0];
    assert forall k :: 0 <= k < |a| ==> s[k] == a[k];
    assert forall k :: 0 <= k < |c| ==> t[k] == c[k];
    assert |a| == |c|;
    assert a == s[..|a|] && c == t[..|c|];
    assert x == s[|a| + |sep|..] && y == t[|c| + |sep|..];
  }

  /** Joining is injective on equally long lists whose parts avoid the separator's first character. */
  lemma {:induction false} JoinInjective(p: seq<string>, q: seq<string>, sep: string)
    requires |p| == |q| && sep != "" && FreeOf(sep[0], p) && FreeOf(sep[0], q)
    requires Join(p, sep) == Join(q, sep)
    ensures p == q
  {
    if |p| > 1 {
      CutAtSeparator(p[0], Join(p[1..], sep), q[0], Join(q[1..], sep), sep);
      JoinInjective(p[1..], q[1..], sep);
      assert p == [p[0]] + p[1..] && q == [q[0]] + q[1..];
    }
  }

  // ---------- Two-part keys: the exact condition ----------

  predicate DoubleColonAt(s: string, i: nat) {
    i + 1 < |s| && s[i] == COLON && s[i + 1] == COLON
  }

  /** What a caller can check of two parts: neither holds the separator, and neither puts a
      colon next to it. */
  predicate CleanPair(a: string, b: string) {
    && (forall i :: 0 <= i < |a| ==> !DoubleColonAt(a, i))
    && (forall i :: 0 <= i < |b| ==> !DoubleColonAt(b, i))
    && (a != "" ==> a[|a| - 1] != COLON)
    && (b != "" ==> b[0] != COLON)
  }

  /** No other pair has the same key. */
  ghost predicate Unambiguous(a: string, b: string) {
    forall c, d :: PairKey(c, d) == PairKey(a, b) ==> c == a && d == b
  }

  lemma OnlySeparator(a: string, b: string, i: nat)
    requires CleanPair(a, b) && i != |a|
    ensures !DoubleColonAt(PairKey(a, b), i)
  {
    var s := PairKey(a, b);
    assert forall k :: 0 <= k < |a| ==> s[k] == a[k];
    assert forall k :: 0 <= k < |b| ==> s[|a| + 2 + k] == b[k];
    if i + 1 < |a| {
      assert !DoubleColonAt(a, i);
    } else if |a| + 2 <= i < |a| + 2 + |b| {
      assert !DoubleColonAt(b, i - |a| - 2);
    }
  }

  lemma SecondReading(a: string, b: string, i: nat)
    requires i != |a| && DoubleColonAt(PairKey(a, b), i)
    ensures !Unambiguous(a, b)
  {
    var s := PairKey(a, b);
    var c, d := s[..i], s[i + 2..];
    assert PairKey(c, d) == s;
    assert |c| != |a|;
  }

  /** A two-part key identifies its parts exactly when the pair is clean. In particular a part
      that contains "::", a left part that ends in a colon or a right part that starts with one
      always collides with some other pair. */
  lemma {:induction false} PairKeyUnambiguous(a: string, b: string)
    ensures Unambiguous(a, b) <==> CleanPair(a, b)
  {
    var s := PairKey(a, b);
    if CleanPair(a, b) {
      forall c, d | PairKey(c, d) == s ensures c == a && d == b {
        assert DoubleColonAt(PairKey(c, d), |c|);
        if |c| != |a| {
          OnlySeparator(a, b, |c|);
        }
        assert c == s[..|c|] && d == s[|c| + 2..];
        assert a == s[..|a|] && b == s[|a| + 2..];
      }
    } else {
      if i :| 0 <= i < |a| && DoubleColonAt(a, i) {
        SecondReading(a, b, i);
      } else if i :| 0 <= i < |b| && DoubleColonAt(b, i) {
        assert s[|a| + 2 + i] == b[i] && s[|a| + 2 + i + 1] == b[i + 1];
        SecondReading(a, b, |a| + 2 + i);
      } else if a != "" && a[|a| - 1] == COLON {
        assert DoubleColonAt(s, |a| - 1);
        SecondReading(a, b, |a| - 1);
      } else {
        assert s[|a| + 2] == b[0];
        assert DoubleColonAt(s, |a| + 1);
        SecondReading(a, b, |a| + 1);
      }
    }
  }

  // ---------- Uniqueness checks ----------

  predicate Distinct<T(==)>(xs: seq<T>) {
    forall i, j :: 0 <= i < j < |xs| ==> xs[i] != xs[j]
  }

  /** The first key that occurred before, if any. */
  method AssertUnique(keys: seq<string>) returns (duplicate: Option<string>)
    ensures duplicate.None? <==> Distinct(keys)
    ensures duplicate.Some? ==>
              exists j :: 0 <= j < |keys| && Distinct(keys[..j]) && keys[j] == duplicate.value && keys[j] in keys[..j]
  {
    var seen := {};
    for j := 0 to |keys|
      invariant seen == set k | k in keys[..j]
      invariant Distinct(keys[..j])
    {
      if keys[j] in seen {
        return Some(keys[j]);
      }
      seen := seen + {keys[j]};
      assert keys[..j + 1] == keys[..j] + [keys[j]];
    }
    assert keys[..|keys|] == keys;
    return None;
  }

  function KeysOf(tuples: seq<seq<string>>): seq<string> {
    seq(|tuples|, i requires 0 <= i < |tuples| => Key(tuples[i]))
  }

  /** Checking joined keys is checking the tuples themselves, for colon-free parts. */
  lemma {:induction false} DistinctKeysAreDistinctTuples(tuples: seq<seq<string>>, arity: nat)
    requires forall i :: 0 <= i < |tuples| ==> |tuples[i]| == arity && FreeOf(COLON, tuples[i])
    ensures Distinct(KeysOf(tuples)) <==> Distinct(tuples)
  {
    var keys := KeysOf(tuples);
    if !Distinct(keys) {
      var i, j :| 0 <= i < j < |keys| && keys[i] == keys[j];
      JoinInjective(tuples[i], tuples[j], SEPARATOR);
    }
    if !Distinct(tuples) {
      var i, j :| 0 <= i < j < |tuples| && tuples[i] == tuples[j];
      assert keys[i] == keys[j];
    }
  }
}
