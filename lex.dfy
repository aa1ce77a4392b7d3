/** Go's ordering of `string` values: byte-wise lexicographic comparison.

    Strings are sequences of Unicode scalar values here. The order of scalar
    values is the order of their UTF-8 encodings, so comparing characters by
    code point gives the same answer as Go's comparison of the encoded bytes.
    Dafny's own `<` on sequences means "proper prefix" and is not used. */
module Lex {

  /** Go's `a < b` on strings. */
  predicate Less(a: string, b: string)
  {
    if |a| == 0 then |b| > 0
    else if |b| == 0 then false
    else if a[0] != b[0] then a[0] < b[0]
    else Less(a[1..], b[1..])
  }

  /** Go's `a <= b` on strings. */
  predicate LessOrEqual(a: string, b: string)
  {
    a == b || Less(a, b)
  }

  /** `a` is a proper prefix of `b`. */
  predicate ProperPrefix(a: string, b: string)
  {
    |a| < |b| && a == b[..|a|]
  }

  /** `a` and `b` agree before position `k` and `a` has the smaller character there. */
  predicate SmallerAt(a: string, b: string, k: nat)
  {
    k < |a| && k < |b| && a[..k] == b[..k] && a[k] < b[k]
  }

  /** The textbook definition of lexicographic order agrees with `Less`. */
  lemma {:induction false} LessCharacterization(a: string, b: string)
    ensures Less(a, b) <==> ProperPrefix(a, b) || exists k: nat :: SmallerAt(a, b, k)
  {
    if |a| == 0 {
      assert forall k: nat :: !SmallerAt(a, b, k);
      if |b| > 0 {
        assert ProperPrefix(a, b);
      }
    } else if |b| == 0 {
      assert forall k: nat :: !SmallerAt(a, b, k);
    } else if a[0] != b[0] {
      if a[0] < b[0] {
        assert SmallerAt(a, b, 0);
      }
    } else {
      var a', b' := a[1..], b[1..];
      LessCharacterization(a', b');
      assert a == [a[0]] + a';
      assert b == [b[0]] + b';
      assert ProperPrefix(a, b) <==> ProperPrefix(a', b') by {
        if |a| < |b| {
          assert b[..|a|] == [b[0]] + b'[..|a'|];
        }
      }
      if k: nat :| SmallerAt(a, b, k) {
        assert k > 0;
        assert a'[..k - 1] == a[..k][1..];
        assert b'[..k - 1] == b[..k][1..];
        assert SmallerAt(a', b', k - 1);
      }
      if k: nat :| SmallerAt(a', b', k) {
        assert a[..k + 1] == [a[0]] + a'[..k];
        assert b[..k + 1] == [b[0]] + b'[..k];
        assert SmallerAt(a, b, k + 1);
      }
    }
  }

  /** `Less` is a strict total order: irreflexive, asymmetric and total. */
  lemma {:induction false} Trichotomy(a: string, b: string)
    ensures !Less(a, a)
    ensures !(Less(a, b) && Less(b, a))
    ensures Less(a, b) || a == b || Less(b, a)
  {
    if |a| > 0 && |b| > 0 && a[0] == b[0] {
      Trichotomy(a[1..], b[1..]);
      assert a == [a[0]] + a[1..];
      assert b == [b[0]] + b[1..];
    } else if |a| > 0 {
      Trichotomy(a[1..], a[1..]);
    }
  }

  lemma {:induction false} LessTransitive(a: string, b: string, c: string)
    requires Less(a, b) && Less(b, c)
    ensures Less(a, c)
  {
    if |a| > 0 && a[0] == b[0] && b[0] == c[0] {
      LessTransitive(a[1..], b[1..], c[1..]);
    }
  }

  /** Go's `a <= b` holds exactly when `b < a` does not. */
  lemma LessOrEqualIsNotGreater(a: string, b: string)
    ensures LessOrEqual(a, b) <==> !Less(b, a)
  {
    Trichotomy(a, b);
  }

  /** Comparing two strings equals comparing their first `k` characters, then the rest. */
  lemma {:induction false} LessSplit(a: string, b: string, k: nat)
    requires k <= |a| && k <= |b|
    ensures Less(a, b) <==> Less(a[..k], b[..k]) || (a[..k] == b[..k] && Less(a[k..], b[k..]))
  {
    if k == 0 {
      assert a[..0] == b[..0];
      assert a[0..] == a && b[0..] == b;
    } else if a[0] != b[0] {
      assert a[..k][0] == a[0] && b[..k][0] == b[0];
    } else {
      LessSplit(a[1..], b[1..], k - 1);
      assert a[1..][..k - 1] == a[..k][1..];
      assert b[1..][..k - 1] == b[..k][1..];
      assert a[1..][k - 1..] == a[k..];
      assert b[1..][k - 1..] == b[k..];
      assert a[..k] == [a[0]] + a[..k][1..];
      assert b[..k] == [b[0]] + b[..k][1..];
    }
  }
}
