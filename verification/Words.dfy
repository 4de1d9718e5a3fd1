// Bytes and words, and the order of word.c.

module Words {
  newtype Byte = x: int | 0 <= x < 256
  type Word = seq<Byte>

  /** memcmp on the first n bytes of both words: the sign of the first difference. */
  function MemCmp(a: Word, b: Word, n: nat): int
    requires n <= |a| && n <= |b|
    decreases n
  {
    if n == 0 then 0
    else if a[0] < b[0] then -1
    else if a[0] > b[0] then 1
    else MemCmp(a[1..], b[1..], n - 1)
  }

  function WordCmp(a: Word, b: Word): int {
    var r := MemCmp(a, b, if |a| <= |b| then |a| else |b|);
    if r != 0 then r
    else if |a| > |b| then 1
    else if |a| < |b| then -1
    else 0
  }

  /** The lexicographic order, by the first difference. */
  ghost predicate LexLess(a: Word, b: Word) {
    exists k: nat :: k <= |a| && k < |b| && a[..k] == b[..k] && (k == |a| || a[k] < b[k])
  }

  /** The first difference of a and b is at k, and a is the lower one there. */
  predicate LowerAt(a: Word, b: Word, k: nat)
    requires k < |a| && k < |b|
  {
    a[..k] == b[..k] && a[k] < b[k]
  }

  lemma LowerAtStart(a: Word, b: Word, k: nat)
    requires k < |a| && k < |b| && LowerAt(a, b, k)
    ensures if k == 0 then a[0] < b[0] else a[0] == b[0]
  {
    if k > 0 { assert a[0] == a[..k][0] && b[0] == b[..k][0]; }
  }

  lemma LowerAtNext(a: Word, b: Word, k: nat)
    requires 0 < |a| && 0 < |b| && a[0] == b[0] && k + 1 < |a| && k + 1 < |b|
    ensures LowerAt(a, b, k + 1) <==> LowerAt(a[1..], b[1..], k)
  {
    assert a[..k + 1] == [a[0]] + a[1..][..k] && b[..k + 1] == [b[0]] + b[1..][..k];
    assert a[1..][..k] == a[..k + 1][1..] && b[1..][..k] == b[..k + 1][1..];
  }

  lemma {:induction false} MemCmpMeaning(a: Word, b: Word, n: nat)
    requires n <= |a| && n <= |b|
    ensures MemCmp(a, b, n) == 0 <==> a[..n] == b[..n]
    ensures MemCmp(a, b, n) < 0 <==> exists k: nat :: k < n && LowerAt(a, b, k)
    ensures MemCmp(b, a, n) == -MemCmp(a, b, n)
    decreases n
  {
    if n > 0 {
      forall k: nat | k < n && LowerAt(a, b, k) ensures if k == 0 then a[0] < b[0] else a[0] == b[0] {
        LowerAtStart(a, b, k);
      }
      assert a[0] < b[0] ==> LowerAt(a, b, 0);
      if a[0] == b[0] {
        var a', b' := a[1..], b[1..];
        MemCmpMeaning(a', b', n - 1);
        assert a[..n] == [a[0]] + a'[..n - 1] && b[..n] == [b[0]] + b'[..n - 1];
        forall k: nat | k < n - 1 ensures LowerAt(a, b, k + 1) <==> LowerAt(a', b', k) {
          LowerAtNext(a, b, k);
        }
        if k: nat :| k < n && LowerAt(a, b, k) {
          assert LowerAt(a', b', k - 1);
        }
      } else {
        assert a[..n][0] != b[..n][0];
      }
    }
  }

  /** word_cmp decides the lexicographic order, is antisymmetric, and is zero on equal words only. */
  lemma WordCmpIsLexicographic(a: Word, b: Word)
    ensures WordCmp(a, b) < 0 <==> LexLess(a, b)
    ensures WordCmp(a, b) == 0 <==> a == b
    ensures WordCmp(b, a) == -WordCmp(a, b)
  {
    var n := if |a| <= |b| then |a| else |b|;
    MemCmpMeaning(a, b, n);
    MemCmpMeaning(b, a, n);
    assert a[..|a|] == a && b[..|b|] == b;
    if LexLess(a, b) {
      var k: nat :| k <= |a| && k < |b| && a[..k] == b[..k] && (k == |a| || a[k] < b[k]);
      if k < n { assert LowerAt(a, b, k); }
    }
    if WordCmp(a, b) < 0 && MemCmp(a, b, n) == 0 {
      assert a[..|a|] == b[..|a|];
    }
  }

  lemma WordCmpTransitive(a: Word, b: Word, c: Word)
    requires WordCmp(a, b) <= 0 && WordCmp(b, c) <= 0
    ensures WordCmp(a, c) <= 0
  {
    WordCmpIsLexicographic(a, b);
    WordCmpIsLexicographic(b, c);
    WordCmpIsLexicographic(a, c);
    if a != b && b != c {
      var j: nat :| j <= |a| && j < |b| && a[..j] == b[..j] && (j == |a| || a[j] < b[j]);
      var k: nat :| k <= |b| && k < |c| && b[..k] == c[..k] && (k == |b| || b[k] < c[k]);
      var m := if j < k then j else k;
      assert a[..m] == a[..j][..m] == b[..j][..m] == b[..m];
      assert b[..m] == b[..k][..m] == c[..k][..m] == c[..m];
      if j < k { assert b[j] == b[..k][j] == c[..k][j] == c[j]; }
      if k < j { assert a[k] == a[..j][k] == b[..j][k] == b[k]; }
      assert LexLess(a, c);
    }
  }
}
