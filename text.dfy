/**
 * The part of Go's `strings` package (and of JavaScript's `indexOf`) that the
 * endpoint normaliser relies on, over `string` = `seq<char>`.
 */
module Text {

  /** `strings.HasPrefix(s, p)`. */
  predicate HasPrefix(s: string, p: string) {
    |p| <= |s| && s[..|p|] == p
  }

  /** `strings.Contains(s, p)`, and JavaScript's `s.indexOf(p) !== -1`. */
  predicate Contains(s: string, p: string)
    decreases |s|
  {
    HasPrefix(s, p) || (|s| > 0 && Contains(s[1..], p))
  }

  /** One of `a`, `b` is a prefix of the other: they agree on their common length. */
  predicate Compatible(a: string, b: string) {
    HasPrefix(a, b) || HasPrefix(b, a)
  }

  /**
   * No occurrence of `q` can begin inside a copy of `r`: no suffix of `r`
   * agrees with `q` on their common length.
   */
  predicate StartsClear(q: string, r: string) {
    forall i :: 0 <= i < |r| ==> !Compatible(r[i..], q)
  }

  /**
   * No occurrence of `q` can begin before a copy of `r` and run into it:
   * no proper suffix of `q` agrees with `r` on their common length.
   */
  predicate EndsClear(q: string, r: string) {
    forall k :: 0 < k < |q| ==> !Compatible(q[k..], r)
  }

  /**
   * `strings.Replace(s, p, r, -1)`: every non-overlapping occurrence of `p`,
   * scanning left to right, is replaced by `r`.
   */
  function ReplaceAll(s: string, p: string, r: string): string
    requires |p| > 0
    decreases |s|
  {
    if |s| < |p| then s
    else if HasPrefix(s, p) then r + ReplaceAll(s[|p|..], p, r)
    else [s[0]] + ReplaceAll(s[1..], p, r)
  }

  /** `strings.Split(s, sep)[0]`: the text before the first `sep`, or all of `s`. */
  function Before(s: string, sep: string): (r: string)
    requires |sep| > 0
    ensures HasPrefix(s, r)
    ensures !Contains(r, sep)
    ensures |r| < |s| ==> HasPrefix(s[|r|..], sep)
    ensures !Contains(s, sep) ==> r == s
    decreases |s|
  {
    if |s| < |sep| then
      NotContainsShort(s, sep);
      s
    else if HasPrefix(s, sep) then []
    else
      var rest := Before(s[1..], sep);
      assert !HasPrefix([s[0]] + rest, sep) by {
        if |sep| <= |[s[0]] + rest| {
          assert ([s[0]] + rest)[..|sep|] == s[..|sep|];
        }
      }
      assert ([s[0]] + rest)[1..] == rest;
      assert s[|[s[0]] + rest|..] == s[1..][|rest|..];
      [s[0]] + rest
  }

  /**
   * Everything after the first `sep`: `s` is `Before(s, sep) + sep + After(s, sep)`.
   * `strings.Split(s, sep)[1]` is `Before(After(s, sep), sep)`.
   */
  function After(s: string, sep: string): (r: string)
    requires |sep| > 0 && Contains(s, sep)
    ensures s == Before(s, sep) + sep + r
  {
    var b := Before(s, sep);
    BeforeShorter(s, sep);
    assert s[|b|..][..|sep|] == sep;
    assert s == b + sep + s[|b| + |sep|..];
    s[|b| + |sep|..]
  }

  // ---------------------------------------------------------------------------
  // Basic facts about Contains

  lemma NotContainsShort(s: string, p: string)
    requires |s| < |p|
    ensures !Contains(s, p)
    decreases |s|
  {
    if |s| > 0 { NotContainsShort(s[1..], p); }
  }

  /** A string contains a one-character pattern exactly when the character occurs in it. */
  lemma {:induction false} ContainsChar(s: string, c: char)
    ensures Contains(s, [c]) <==> c in s
    decreases |s|
  {
    if |s| > 0 {
      ContainsChar(s[1..], c);
      assert s == [s[0]] + s[1..];
    }
  }

  /** Every occurrence in a suffix is an occurrence in the whole string. */
  lemma {:induction false} ContainsSuffix(s: string, k: nat, p: string)
    requires k <= |s| && Contains(s[k..], p)
    ensures Contains(s, p)
    decreases k
  {
    if k > 0 {
      assert s[1..][k - 1..] == s[k..];
      ContainsSuffix(s[1..], k - 1, p);
    }
  }

  /** An occurrence of `q` in `a + b` lies in `b` or begins inside `a`. */
  lemma {:induction false} ContainsConcat(a: string, b: string, q: string)
    requires Contains(a + b, q)
    ensures Contains(b, q) || exists i :: 0 <= i < |a| && Compatible(a[i..], q)
    decreases |a|
  {
    if |a| > 0 {
      if HasPrefix(a + b, q) {
        assert a[0..] == a;
        if |q| <= |a| {
          assert (a + b)[..|q|] == a[..|q|];
        } else {
          assert (a + b)[..|a|] == a;
        }
        assert Compatible(a[0..], q);
      } else {
        assert (a + b)[1..] == a[1..] + b;
        ContainsConcat(a[1..], b, q);
        if !Contains(b, q) {
          var i :| 0 <= i < |a[1..]| && Compatible(a[1..][i..], q);
          assert a[1..][i..] == a[i + 1..];
        }
      }
    } else {
      assert a + b == b;
    }
  }

  // ---------------------------------------------------------------------------
  // ReplaceAll

  /** A string without the pattern is left unchanged. */
  lemma {:induction false} ReplaceAllUnchanged(s: string, p: string, r: string)
    requires |p| > 0 && !Contains(s, p)
    ensures ReplaceAll(s, p, r) == s
    decreases |s|
  {
    if |s| >= |p| {
      ReplaceAllUnchanged(s[1..], p, r);
      assert s == [s[0]] + s[1..];
    }
  }

  /** Every character of the result comes from the input or from the replacement. */
  lemma {:induction false} ReplaceAllChars(s: string, p: string, r: string, c: char)
    requires |p| > 0 && c !in s && c !in r
    ensures c !in ReplaceAll(s, p, r)
    decreases |s|
  {
    if |s| >= |p| {
      if HasPrefix(s, p) {
        assert forall j :: |p| <= j < |s| ==> s[j] == s[|p|..][j - |p|];
        ReplaceAllChars(s[|p|..], p, r, c);
      } else {
        ReplaceAllChars(s[1..], p, r, c);
      }
    }
  }

  /**
   * A separator character that does not occur in the pattern splits the
   * rewrite: both sides are rewritten independently.
   */
  lemma {:induction false} ReplaceAllAround(a: string, c: char, b: string, p: string, r: string)
    requires |p| > 0 && c !in p
    ensures ReplaceAll(a + [c] + b, p, r) == ReplaceAll(a, p, r) + [c] + ReplaceAll(b, p, r)
    decreases |a|
  {
    var s := a + [c] + b;
    if |a| == 0 {
      assert s == [c] + b;
      ReplaceAllLeadingSeparator(c, b, p, r);
    } else if |a| < |p| {
      ReplaceAllAroundShort(a, c, b, p, r);
    } else if HasPrefix(a, p) {
      assert s[..|p|] == a[..|p|];
      assert s[|p|..] == a[|p|..] + [c] + b;
      ReplaceAllAround(a[|p|..], c, b, p, r);
    } else {
      assert s[..|p|] == a[..|p|];
      assert s[1..] == a[1..] + [c] + b;
      ReplaceAllAround(a[1..], c, b, p, r);
    }
  }

  /** The case of `ReplaceAllAround` where `a` is too short to hold the pattern. */
  lemma {:induction false} ReplaceAllAroundShort(a: string, c: char, b: string, p: string, r: string)
    requires |p| > 0 && c !in p && 0 < |a| < |p|
    ensures ReplaceAll(a + [c] + b, p, r) == a + [c] + ReplaceAll(b, p, r)
    decreases |a|
  {
    var s := a + [c] + b;
    if |s| < |p| {
      ShortUnchanged(b, p, r);
    } else {
      assert p[|a|] != c;
      assert !HasPrefix(s, p) by { assert s[..|p|][|a|] == c; }
      var rest := a[1..] + [c] + b;
      assert s[1..] == rest;
      assert ReplaceAll(s, p, r) == [a[0]] + ReplaceAll(rest, p, r);
      if |a| == 1 {
        assert rest == [c] + b;
        ReplaceAllLeadingSeparator(c, b, p, r);
      } else {
        ReplaceAllAroundShort(a[1..], c, b, p, r);
      }
      assert ReplaceAll(rest, p, r) == a[1..] + [c] + ReplaceAll(b, p, r);
      assert [a[0]] + (a[1..] + [c] + ReplaceAll(b, p, r)) == a + [c] + ReplaceAll(b, p, r);
    }
  }

  /** Two prefixes of one string agree on their common length. */
  lemma PrefixesCompatible(z: string, x: string, y: string)
    requires HasPrefix(z, x) && HasPrefix(z, y)
    ensures Compatible(x, y)
  {
    if |x| <= |y| {
      assert y[..|x|] == z[..|x|];
    } else {
      assert x[..|y|] == z[..|y|];
    }
  }

  /** Text shorter than the pattern is never rewritten. */
  lemma ShortUnchanged(s: string, p: string, r: string)
    requires 0 < |p| && |s| < |p|
    ensures ReplaceAll(s, p, r) == s
  {
  }

  /** A leading character that does not occur in the pattern is passed through. */
  lemma ReplaceAllLeadingSeparator(c: char, b: string, p: string, r: string)
    requires |p| > 0 && c !in p
    ensures ReplaceAll([c] + b, p, r) == [c] + ReplaceAll(b, p, r)
  {
    var s := [c] + b;
    if |s| < |p| {
      ShortUnchanged(b, p, r);
    } else {
      assert p[0] != c;
      assert !HasPrefix(s, p);
      assert s[1..] == b;
    }
  }

  /**
   * While the rewritten text shows no trace of the replacement, it agrees
   * with the original text.
   */
  lemma {:induction false} ReplaceAllAgrees(s: string, p: string, r: string, k: nat, w: string)
    requires |p| > 0
    requires k <= |ReplaceAll(s, p, r)| && w == ReplaceAll(s, p, r)[..k]
    requires forall j :: 0 <= j < k ==> !Compatible(w[j..], r)
    ensures k <= |s| && s[..k] == w
    decreases |s|
  {
    if k == 0 || |s| < |p| {
    } else if HasPrefix(s, p) {
      var out := ReplaceAll(s, p, r);
      assert out == r + ReplaceAll(s[|p|..], p, r);
      assert w[0..] == w;
      PrefixesCompatible(out, w, r);
      assert false;
    } else {
      var tail := ReplaceAll(s[1..], p, r);
      assert ReplaceAll(s, p, r) == [s[0]] + tail;
      var w' := w[1..];
      assert w' == tail[..k - 1];
      forall j | 0 <= j < k - 1 ensures !Compatible(w'[j..], r) {
        assert w'[j..] == w[j + 1..];
      }
      ReplaceAllAgrees(s[1..], p, r, k - 1, w');
      assert s[..k] == [s[0]] + s[1..][..k - 1];
    }
  }

  /** When no copy of `r` can be part of an occurrence of `p`, no `p` survives the rewrite. */
  lemma {:induction false} ReplaceAllRemoves(s: string, p: string, r: string)
    requires |p| > 0 && StartsClear(p, r) && EndsClear(p, r)
    ensures !Contains(ReplaceAll(s, p, r), p)
    decreases |s|
  {
    var out := ReplaceAll(s, p, r);
    if |s| < |p| {
      NotContainsShort(s, p);
    } else if HasPrefix(s, p) {
      ReplaceAllRemoves(s[|p|..], p, r);
      if Contains(out, p) {
        ContainsConcat(r, ReplaceAll(s[|p|..], p, r), p);
      }
    } else {
      var tail := ReplaceAll(s[1..], p, r);
      ReplaceAllRemoves(s[1..], p, r);
      assert out == [s[0]] + tail;
      if Contains(out, p) {
        assert out[1..] == tail;
        assert HasPrefix(out, p);
        var w := p[1..];
        assert w == tail[..|p| - 1];
        forall j | 0 <= j < |p| - 1 ensures !Compatible(w[j..], r) {
          assert w[j..] == p[j + 1..];
        }
        ReplaceAllAgrees(s[1..], p, r, |p| - 1, w);
        assert false;
      }
    }
  }

  /**
   * A pattern `q` absent from the input stays absent, when no copy of `r`
   * can be part of an occurrence of `q`.
   */
  lemma {:induction false} ReplaceAllKeepsOut(s: string, p: string, r: string, q: string)
    requires |p| > 0 && |q| > 0 && StartsClear(q, r) && EndsClear(q, r)
    requires !Contains(s, q)
    ensures !Contains(ReplaceAll(s, p, r), q)
    decreases |s|
  {
    var out := ReplaceAll(s, p, r);
    if |s| < |p| {
    } else if HasPrefix(s, p) {
      if Contains(s[|p|..], q) { ContainsSuffix(s, |p|, q); }
      ReplaceAllKeepsOut(s[|p|..], p, r, q);
      if Contains(out, q) {
        ContainsConcat(r, ReplaceAll(s[|p|..], p, r), q);
      }
    } else {
      var tail := ReplaceAll(s[1..], p, r);
      ReplaceAllKeepsOut(s[1..], p, r, q);
      assert out == [s[0]] + tail;
      if Contains(out, q) {
        assert out[1..] == tail;
        assert HasPrefix(out, q);
        var w := q[1..];
        assert w == tail[..|q| - 1];
        forall j | 0 <= j < |q| - 1 ensures !Compatible(w[j..], r) {
          assert w[j..] == q[j + 1..];
        }
        ReplaceAllAgrees(s[1..], p, r, |q| - 1, w);
        assert false;
      }
    }
  }

  // ---------------------------------------------------------------------------
  // Before

  /** Cutting at the first separator character keeps what precedes it. */
  lemma {:induction false} BeforeSeparator(a: string, c: char, b: string)
    requires c !in a
    ensures Before(a + [c] + b, [c]) == a
  {
    var s := a + [c] + b;
    var r := Before(s, [c]);
    ContainsChar(r, c);
    assert s[|a|] == c;
    ContainsChar(s, c);
    BeforeShorter(s, [c]);
    assert s[|r|..][..1] == [c];
    assert s[|r|] == c;
    assert forall i :: 0 <= i < |r| ==> s[i] == r[i];
    assert forall i :: 0 <= i < |a| ==> s[i] == a[i];
    assert |r| == |a|;
    assert r == s[..|a|] == a;
  }

  /** `Before` stops at the first occurrence: no `sep` starts inside the text it keeps. */
  lemma {:induction false} BeforeFirst(s: string, sep: string)
    requires |sep| > 0
    ensures forall i :: 0 <= i < |Before(s, sep)| ==> !HasPrefix(s[i..], sep)
    decreases |s|
  {
    if |s| >= |sep| && !HasPrefix(s, sep) {
      BeforeFirst(s[1..], sep);
      assert forall i :: 1 <= i <= |Before(s[1..], sep)| ==> s[i..] == s[1..][i - 1..];
    }
  }

  /** When the separator occurs, the text before it is shorter than the whole. */
  lemma {:induction false} BeforeShorter(s: string, sep: string)
    requires |sep| > 0 && Contains(s, sep)
    ensures |Before(s, sep)| < |s|
    decreases |s|
  {
    if |s| < |sep| {
      NotContainsShort(s, sep);
      assert false;
    } else if !HasPrefix(s, sep) {
      BeforeShorter(s[1..], sep);
    }
  }

  /** A string without the separator character is kept whole. */
  lemma {:induction false} BeforeAbsent(s: string, c: char)
    requires c !in s
    ensures Before(s, [c]) == s
  {
    ContainsChar(s, c);
  }

  /**
   * A replacement that does not contain the first character of `q`, and whose
   * own first character does not occur later in `q`, can neither hold `q` nor
   * complete one begun before it.
   */
  lemma ClearByFirstChar(q: string, r: string)
    requires |q| > 0 && |r| > 0
    requires q[0] !in r && r[0] !in q[1..]
    ensures StartsClear(q, r) && EndsClear(q, r)
  {
    forall i | 0 <= i < |r| ensures !Compatible(r[i..], q) {
      assert r[i..][0] == r[i];
    }
    forall k | 0 < k < |q| ensures !Compatible(q[k..], r) {
      assert q[k..][0] == q[1..][k - 1];
    }
  }

  /** Text without the first character of `p` cannot contain `p`. */
  lemma {:induction false} AbsentFirstChar(s: string, p: string)
    requires |p| > 0 && p[0] !in s
    ensures !Contains(s, p)
    decreases |s|
  {
    if |s| > 0 {
      assert !HasPrefix(s, p) by {
        if |p| <= |s| {
          assert s[..|p|][0] == s[0];
        }
      }
      AbsentFirstChar(s[1..], p);
    }
  }

  /** When `a` lacks the first character of `sep`, the first `sep` of `a + sep + b` is the one after `a`. */
  lemma {:induction false} BeforeFirstChar(a: string, sep: string, b: string)
    requires |sep| > 0 && sep[0] !in a
    ensures Contains(a + sep + b, sep)
    ensures Before(a + sep + b, sep) == a && After(a + sep + b, sep) == b
    decreases |a|
  {
    var s := a + sep + b;
    assert HasPrefix(s[|a|..], sep) by {
      assert s[|a|..][..|sep|] == sep;
    }
    assert Contains(s[|a|..], sep);
    ContainsSuffix(s, |a|, sep);
    if |a| == 0 {
      assert s == sep + b;
      assert HasPrefix(s, sep);
    } else {
      assert !HasPrefix(s, sep) by {
        assert s[..|sep|][0] == a[0];
      }
      assert s[1..] == a[1..] + sep + b;
      BeforeFirstChar(a[1..], sep, b);
      assert Before(s, sep) == [a[0]] + a[1..];
    }
  }
}
