/**
 * The edit distance behind the fuzzy tier of the food resolver: the classic
 * Levenshtein distance (single-character insert, delete and substitute, each
 * costing one) as a recursive definition, its basic laws, a row-by-row
 * dynamic-programming computation proved equal to it, and the resolver's
 * `levenshteinDistance`, which normalises both strings first.
 */
module Levenshtein {
  import opened Text

  function Min3(x: nat, y: nat, z: nat): nat {
    if x <= y && x <= z then x else if y <= z then y else z
  }

  /**
   * The edit distance between the first `i` characters of `a` and the first
   * `j` characters of `b`, by recursion on the last characters of those
   * prefixes: substitute (or keep) the last pair, delete the last character
   * from `a`'s side, or insert the last character of `b`'s side.
   */
  function Dist(a: string, b: string, i: nat, j: nat): nat
    requires i <= |a| && j <= |b|
    decreases i + j
  {
    if i == 0 then j
    else if j == 0 then i
    else
      Min3(Dist(a, b, i - 1, j - 1) + (if a[i - 1] == b[j - 1] then 0 else 1),
           Dist(a, b, i - 1, j) + 1,
           Dist(a, b, i, j - 1) + 1)
  }

  /** The classic Levenshtein distance between two whole strings. */
  function Lev(a: string, b: string): nat {
    Dist(a, b, |a|, |b|)
  }

  /** The distance between prefixes depends on nothing but those prefixes. */
  lemma {:induction false} DistPrefixes(a: string, b: string, a2: string, b2: string, i: nat, j: nat)
    requires i <= |a| && i <= |a2| && j <= |b| && j <= |b2|
    requires a[..i] == a2[..i] && b[..j] == b2[..j]
    ensures Dist(a, b, i, j) == Dist(a2, b2, i, j)
    decreases i + j
  {
    if i > 0 && j > 0 {
      assert a[..i - 1] == a2[..i - 1] && b[..j - 1] == b2[..j - 1];
      assert a[i - 1] == a[..i][i - 1] && a2[i - 1] == a2[..i][i - 1];
      assert b[j - 1] == b[..j][j - 1] && b2[j - 1] == b2[..j][j - 1];
      DistPrefixes(a, b, a2, b2, i - 1, j - 1);
      DistPrefixes(a, b, a2, b2, i - 1, j);
      DistPrefixes(a, b, a2, b2, i, j - 1);
    }
  }

  lemma {:induction false} DistSelf(s: string, i: nat)
    requires i <= |s|
    ensures Dist(s, s, i, i) == 0
  {
    if i > 0 {
      DistSelf(s, i - 1);
    }
  }

  lemma LevSelf(s: string)
    ensures Lev(s, s) == 0
  {
    DistSelf(s, |s|);
  }

  /** The distance is at least the difference of the lengths. */
  lemma {:induction false} DistLengthGap(a: string, b: string, i: nat, j: nat)
    requires i <= |a| && j <= |b|
    ensures Dist(a, b, i, j) >= i - j && Dist(a, b, i, j) >= j - i
    decreases i + j
  {
    if i > 0 && j > 0 {
      DistLengthGap(a, b, i - 1, j - 1);
      DistLengthGap(a, b, i - 1, j);
      DistLengthGap(a, b, i, j - 1);
    }
  }

  /** The distance is at most the larger of the lengths. */
  lemma {:induction false} DistAtMostLonger(a: string, b: string, i: nat, j: nat)
    requires i <= |a| && j <= |b|
    ensures Dist(a, b, i, j) <= if i >= j then i else j
    decreases i + j
  {
    if i > 0 && j > 0 {
      DistAtMostLonger(a, b, i - 1, j - 1);
    }
  }

  /** Only equal prefixes are at distance zero. */
  lemma {:induction false} DistZeroMeansEqual(a: string, b: string, i: nat, j: nat)
    requires i <= |a| && j <= |b|
    requires Dist(a, b, i, j) == 0
    ensures i == j && a[..i] == b[..j]
    decreases i + j
  {
    if i > 0 && j > 0 {
      DistLengthGap(a, b, i - 1, j);
      DistLengthGap(a, b, i, j - 1);
      assert Dist(a, b, i - 1, j - 1) == 0 && a[i - 1] == b[j - 1];
      DistZeroMeansEqual(a, b, i - 1, j - 1);
      assert a[..i] == a[..i - 1] + [a[i - 1]] && b[..j] == b[..j - 1] + [b[j - 1]];
    }
  }

  lemma {:induction false} DistSymmetric(a: string, b: string, i: nat, j: nat)
    requires i <= |a| && j <= |b|
    ensures Dist(a, b, i, j) == Dist(b, a, j, i)
    decreases i + j
  {
    if i > 0 && j > 0 {
      DistSymmetric(a, b, i - 1, j - 1);
      DistSymmetric(a, b, i - 1, j);
      DistSymmetric(a, b, i, j - 1);
    }
  }
  lemma LevSymmetric(a: string, b: string)
    ensures Lev(a, b) == Lev(b, a)
  {
    DistSymmetric(a, b, |a|, |b|);
  }

  /** Extending both prefixes by the same characters never increases the distance. */
  lemma {:induction false} DistCommonTail(a: string, b: string, i: nat, j: nat, k: nat)
    requires i + k <= |a| && j + k <= |b|
    requires a[i..i + k] == b[j..j + k]
    ensures Dist(a, b, i + k, j + k) <= Dist(a, b, i, j)
  {
    if k > 0 {
      var sa, sb := a[i..i + k - 1], b[j..j + k - 1];
      var ta, tb := a[i..i + k], b[j..j + k];
      forall t | 0 <= t < k - 1
        ensures sa[t] == sb[t]
      {
        assert sa[t] == ta[t] && sb[t] == tb[t];
      }
      assert sa == sb;
      DistCommonTail(a, b, i, j, k - 1);
      assert a[i + k - 1] == a[i..i + k][k - 1] && b[j + k - 1] == b[j..j + k][k - 1];
    }
  }

  /** Appending the same suffix to both strings never increases the distance. */
  lemma LevCommonSuffix(a: string, b: string, s: string)
    ensures Lev(a + s, b + s) <= Lev(a, b)
  {
    assert (a + s)[|a|..|a| + |s|] == s == (b + s)[|b|..|b| + |s|];
    DistCommonTail(a + s, b + s, |a|, |b|, |s|);
    assert (a + s)[..|a|] == a[..|a|] && (b + s)[..|b|] == b[..|b|];
    DistPrefixes(a + s, b + s, a, b, |a|, |b|);
  }

  /** One extra character at the end is exactly one edit. */
  lemma LevOneMore(p: string, c: char)
    ensures Lev(p + [c], p) == 1
  {
    var q := p + [c];
    assert q[..|p|] == p[..|p|];
    DistPrefixes(q, p, p, p, |p|, |p|);
    DistSelf(p, |p|);
    DistLengthGap(q, p, |q|, |p|);
  }

  /** One extra character anywhere is exactly one edit. */
  lemma LevOneInserted(p: string, c: char, q: string)
    ensures Lev(p + [c] + q, p + q) == 1
  {
    LevOneMore(p, c);
    LevCommonSuffix(p + [c], p, q);
    DistLengthGap(p + [c] + q, p + q, |p + [c] + q|, |p + q|);
  }

  /** Row `i + 1` of the distance table from row `i`. */
  method NextRow(a: string, b: string, i: nat, prev: seq<nat>) returns (cur: seq<nat>)
    requires i < |a| && |prev| == |b| + 1
    requires forall j :: 0 <= j <= |b| ==> prev[j] == Dist(a, b, i, j)
    ensures |cur| == |b| + 1
    ensures forall j :: 0 <= j <= |b| ==> cur[j] == Dist(a, b, i + 1, j)
  {
    cur := [i + 1];
    var j := 1;
    while j <= |b|
      invariant 1 <= j <= |b| + 1
      invariant |cur| == j
      invariant forall k :: 0 <= k < j ==> cur[k] == Dist(a, b, i + 1, k)
    {
      var cost := if a[i] == b[j - 1] then 0 else 1;
      cur := cur + [Min3(prev[j - 1] + cost, prev[j] + 1, cur[j - 1] + 1)];
      j := j + 1;
    }
  }

  /**
   * The edit distance by dynamic programming over rows: before row `i`,
   * `prev[j]` is the distance from the first `i` characters of `a` to the
   * first `j` characters of `b`.
   */
  method ComputeLev(a: string, b: string) returns (d: nat)
    ensures d == Lev(a, b)
  {
    var prev: seq<nat> := seq(|b| + 1, j requires 0 <= j <= |b| => j);
    var i := 0;
    while i < |a|
      invariant 0 <= i <= |a|
      invariant |prev| == |b| + 1
      invariant forall j :: 0 <= j <= |b| ==> prev[j] == Dist(a, b, i, j)
    {
      prev := NextRow(a, b, i, prev);
      i := i + 1;
    }
    d := prev[|b|];
  }

  /** The resolver's normal form: trimmed, then lower-cased. */
  function Normalize(s: string): string {
    Lower(Trim(s))
  }

  /**
   * `levenshteinDistance`: normalise both strings, answer 0 when they are
   * equal and the other length when one is empty, and the edit distance
   * otherwise. The shortcuts agree with the edit distance.
   */
  function Distance(s1: string, s2: string): (r: nat)
    ensures r == Lev(Normalize(s1), Normalize(s2))
  {
    var n1 := Normalize(s1);
    var n2 := Normalize(s2);
    if n1 == n2 then LevSelf(n1); 0
    else if |n1| == 0 then |n2|
    else if |n2| == 0 then |n1|
    else Lev(n1, n2)
  }

  lemma DistanceSymmetric(s1: string, s2: string)
    ensures Distance(s1, s2) == Distance(s2, s1)
  {
    LevSymmetric(Normalize(s1), Normalize(s2));
  }

  /** The distance is zero exactly when the normalised strings are equal. */
  lemma DistanceZeroIff(s1: string, s2: string)
    ensures Distance(s1, s2) == 0 <==> Normalize(s1) == Normalize(s2)
  {
    var n1, n2 := Normalize(s1), Normalize(s2);
    if Distance(s1, s2) == 0 {
      DistZeroMeansEqual(n1, n2, |n1|, |n2|);
      assert n1 == n1[..|n1|] && n2 == n2[..|n2|];
    } else if n1 == n2 {
      LevSelf(n1);
    }
  }

  /** The distance lies between the difference and the larger of the
      normalised lengths. */
  lemma DistanceBounds(s1: string, s2: string)
    ensures var n1, n2 := Normalize(s1), Normalize(s2);
      Distance(s1, s2) >= |n1| - |n2| && Distance(s1, s2) >= |n2| - |n1| &&
      Distance(s1, s2) <= if |n1| >= |n2| then |n1| else |n2|
  {
    var n1, n2 := Normalize(s1), Normalize(s2);
    DistLengthGap(n1, n2, |n1|, |n2|);
    DistAtMostLonger(n1, n2, |n1|, |n2|);
  }

  /** Nothing but lower-case ASCII letters: already in normal form. */
  predicate AllLowerLetters(s: string) {
    forall i :: 0 <= i < |s| ==> 'a' <= s[i] <= 'z'
  }

  lemma NormalizeLowerLetters(s: string)
    requires AllLowerLetters(s)
    ensures Normalize(s) == s
  {
    if |s| > 0 {
      assert !IsTrimmable(s[0]) && !IsTrimmable(s[|s| - 1]);
    }
  }

  /** Between lower-case words the distance is the plain edit distance. */
  lemma DistanceOfLowerWords(a: string, b: string)
    requires AllLowerLetters(a) && AllLowerLetters(b)
    ensures Distance(a, b) == Lev(a, b)
  {
    NormalizeLowerLetters(a);
    NormalizeLowerLetters(b);
  }

  lemma AllLowerLettersConcat(a: string, b: string)
    requires AllLowerLetters(a) && AllLowerLetters(b)
    ensures AllLowerLetters(a + b)
  {
  }

  /** A lower-case word and the same word with one more letter at the end
      are one edit apart. */
  lemma DistanceOneMore(longer: string, p: string, c: char)
    requires AllLowerLetters(p) && 'a' <= c <= 'z' && longer == p + [c]
    ensures Distance(longer, p) == 1
  {
    AllLowerLettersConcat(p, [c]);
    DistanceOfLowerWords(longer, p);
    LevOneMore(p, c);
  }

  /** A lower-case word and the same word with one more letter inside are
      one edit apart. */
  lemma DistanceOneInserted(shorter: string, longer: string, p: string, c: char, q: string)
    requires AllLowerLetters(p) && AllLowerLetters(q) && 'a' <= c <= 'z'
    requires shorter == p + q && longer == p + [c] + q
    ensures Distance(shorter, longer) == 1
  {
    AllLowerLettersConcat(p, q);
    AllLowerLettersConcat(p, [c]);
    AllLowerLettersConcat(p + [c], q);
    DistanceOfLowerWords(shorter, longer);
    LevOneInserted(p, c, q);
    LevSymmetric(longer, shorter);
  }

  /** The first example of the resolver's documentation. */
  lemma DistanceStrawberrys()
    ensures Distance("strawberrys", "strawberry") == 1
  {
    var name := "strawberry";
    assert AllLowerLetters(name);
    assert "strawberrys" == name + ['s'];
    DistanceOneMore("strawberrys", name, 's');
  }

  /** The second example of the resolver's documentation. */
  lemma DistanceBrocoli()
    ensures Distance("brocoli", "broccoli") == 1
  {
    var p, q := "broc", "oli";
    assert AllLowerLetters(p) && AllLowerLetters(q);
    assert "brocoli" == p + q;
    assert "broccoli" == p + ['c'] + q;
    DistanceOneInserted("brocoli", "broccoli", p, 'c', q);
  }
}
