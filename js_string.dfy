/**
 * The parts of ECMAScript's String.prototype that the note page and the
 * summary route rely on: `trim` (used to validate the form) and `slice`
 * (used to cut the summary excerpt). Strings are sequences of code points.
 */
module JsString {

  function Min(a: int, b: int): (m: int)
    ensures m <= a && m <= b && (m == a || m == b)
  {
    if a <= b then a else b
  }

  /**
   * The code points `trim` strips: the WhiteSpace production of ECMA-262
   * (TAB, VT, FF, ZWNBSP and every space separator of category Zs) and the
   * LineTerminator production (LF, CR, LS, PS).
   */
  predicate IsWhiteSpace(c: char) {
    c == '\t' || c == '\U{000B}' || c == '\U{000C}' || c == ' ' ||
    c == '\U{00A0}' || c == '\U{1680}' || ('\U{2000}' <= c <= '\U{200A}') ||
    c == '\U{202F}' || c == '\U{205F}' || c == '\U{3000}' || c == '\U{FEFF}' ||
    c == '\n' || c == '\r' || c == '\U{2028}' || c == '\U{2029}'
  }

  /** True when every code point of `s` is white space (the empty string included). */
  predicate IsBlank(s: string) {
    forall i :: 0 <= i < |s| ==> IsWhiteSpace(s[i])
  }

  /** `s` with its leading white space removed. */
  function TrimStart(s: string): (r: string)
    ensures |r| <= |s|
  {
    if s != [] && IsWhiteSpace(s[0]) then TrimStart(s[1..]) else s
  }

  /** `s` with its trailing white space removed. */
  function TrimEnd(s: string): (r: string)
    ensures |r| <= |s|
  {
    if s != [] && IsWhiteSpace(s[|s| - 1]) then TrimEnd(s[..|s| - 1]) else s
  }

  /** String.prototype.trim: white space removed from both ends. */
  function Trim(s: string): (r: string)
    ensures |r| <= |s|
  {
    TrimEnd(TrimStart(s))
  }

  /** `TrimStart` drops a blank prefix and keeps the rest, which starts with a visible code point. */
  lemma {:induction false} TrimStartSpec(s: string)
    ensures var r := TrimStart(s);
            |r| <= |s| && r == s[|s| - |r|..] && IsBlank(s[..|s| - |r|]) &&
            (r == [] || !IsWhiteSpace(r[0]))
  {
    if s != [] && IsWhiteSpace(s[0]) {
      TrimStartSpec(s[1..]);
      var r := TrimStart(s);
      assert r == TrimStart(s[1..]);
      var k := |s| - |r|;
      var blank := s[1..][..k - 1];
      assert IsBlank(blank);
      assert s[..k] == [s[0]] + blank;
      forall i | 0 <= i < k ensures IsWhiteSpace(s[..k][i]) {
        if i > 0 {
          assert s[..k][i] == blank[i - 1];
        }
      }
    }
  }

  /** `TrimEnd` drops a blank suffix and keeps the rest, which ends with a visible code point. */
  lemma {:induction false} TrimEndSpec(s: string)
    ensures var r := TrimEnd(s);
            |r| <= |s| && r == s[..|r|] && IsBlank(s[|r|..]) &&
            (r == [] || !IsWhiteSpace(r[|r| - 1]))
  {
    if s != [] && IsWhiteSpace(s[|s| - 1]) {
      TrimEndSpec(s[..|s| - 1]);
      var r := TrimEnd(s);
      forall i | |r| <= i < |s| ensures IsWhiteSpace(s[i]) {
        if i < |s| - 1 {
          assert s[i] == s[..|s| - 1][i];
        }
      }
    }
  }

  /** `trim` keeps a middle part of the string that starts and ends with a visible code point. */
  lemma TrimSpec(s: string)
    ensures var r := Trim(s);
            |r| <= |s| && (r == [] || (!IsWhiteSpace(r[0]) && !IsWhiteSpace(r[|r| - 1])))
  {
    TrimStartSpec(s);
    TrimEndSpec(TrimStart(s));
    var t := TrimStart(s);
    var r := Trim(s);
    if r != [] {
      assert r[0] == t[0];
    }
  }

  /** `s.trim() === ""` holds exactly for the strings made only of white space. */
  lemma TrimEmptyIffBlank(s: string)
    ensures Trim(s) == [] <==> IsBlank(s)
  {
    TrimStartSpec(s);
    var t := TrimStart(s);
    TrimEndSpec(t);
    var k := |s| - |t|;
    assert s == s[..k] + t;
    if Trim(s) == [] {
      assert IsBlank(t) by {
        assert t[|TrimEnd(t)|..] == t;
      }
      assert t == [];
      assert s == s[..k];
    } else {
      var r := Trim(s);
      assert !IsWhiteSpace(r[0]);
      assert r == t[..|r|];
      assert r[0] == s[k];
    }
  }

  /** A string whose last code point is visible survives `trim` non-empty. */
  lemma VisibleEndNotBlank(s: string)
    requires s != [] && !IsWhiteSpace(s[|s| - 1])
    ensures Trim(s) != []
  {
    TrimEmptyIffBlank(s);
  }

  /**
   * The index `slice` derives from one of its arguments: a negative
   * argument counts back from the end, and the result is clamped to
   * `[0, len]`.
   */
  function RelativeIndex(arg: int, len: nat): (k: nat)
    ensures k <= len
  {
    if arg < 0 then (if len + arg < 0 then 0 else len + arg)
    else if arg < len then arg else len
  }

  /**
   * String.prototype.slice(start, end) for integral arguments: the code
   * points from `from` up to `to`, or the empty string when `from >= to`.
   */
  function Slice(s: string, start: int, end: int): (r: string)
    ensures |r| <= |s|
  {
    var from := RelativeIndex(start, |s|);
    var to := RelativeIndex(end, |s|);
    if from < to then s[from..to] else []
  }

  /** `s.slice(0, n)` for `n >= 0` is the first `n` code points, or all of `s` when shorter. */
  lemma SlicePrefix(s: string, n: nat)
    ensures Slice(s, 0, n) == s[..Min(n, |s|)]
    ensures |Slice(s, 0, n)| == Min(n, |s|)
  {
  }
}
