/**
  The JavaScript string built-ins the page scripts rely on: `trim`, the
  regular-expression class `\s`, `toLowerCase` and `includes`.
  A JavaScript string is a sequence of UTF-16 code units; here one `char`
  stands for one code unit, so `|s|` is the script's `s.length`.
 */
module JsText {

  /** The code units `String.prototype.trim` removes and `\s` matches:
      the WhiteSpace and LineTerminator productions of ECMA-262
      (sections 12.2 and 12.3), whose space separators are the Unicode
      category Zs. */
  predicate IsWhitespace(c: char) {
    || c == '\t' || c == '\n' || c == '\U{000B}' || c == '\U{000C}' || c == '\r'
    || c == ' ' || c == '\U{00A0}' || c == '\U{1680}'
    || ('\U{2000}' <= c <= '\U{200A}')
    || c == '\U{2028}' || c == '\U{2029}' || c == '\U{202F}' || c == '\U{205F}'
    || c == '\U{3000}' || c == '\U{FEFF}'
  }

  predicate AllWhitespace(s: string) {
    forall i | 0 <= i < |s| :: IsWhitespace(s[i])
  }

  predicate NoWhitespace(s: string) {
    forall i | 0 <= i < |s| :: !IsWhitespace(s[i])
  }

  /** `s` with its leading whitespace removed: a suffix of `s`, all of
      whose dropped code units are whitespace. */
  function TrimStart(s: string): (r: string)
    ensures |r| <= |s| && r == s[|s| - |r|..]
    ensures r == [] || !IsWhitespace(r[0])
    ensures AllWhitespace(s[..|s| - |r|])
  {
    if s != [] && IsWhitespace(s[0]) then
      var r := TrimStart(s[1..]);
      assert s[..|s| - |r|] == [s[0]] + s[1..][..|s| - 1 - |r|];
      r
    else s
  }

  /** `s` with its trailing whitespace removed: a prefix of `s`, all of
      whose dropped code units are whitespace. */
  function TrimEnd(s: string): (r: string)
    ensures |r| <= |s| && r == s[..|r|]
    ensures r == [] || !IsWhitespace(r[|r| - 1])
    ensures AllWhitespace(s[|r|..])
  {
    if s != [] && IsWhitespace(s[|s| - 1]) then
      var r := TrimEnd(s[..|s| - 1]);
      assert s[|r|..] == s[..|s| - 1][|r|..] + [s[|s| - 1]];
      r
    else s
  }

  /** `String.prototype.trim`. The result neither starts nor ends with
      whitespace, and it is empty exactly when `s` is all whitespace;
      `TrimIsMiddle` shows it is the slice of `s` between that whitespace. */
  function Trim(s: string): (r: string)
    ensures |r| <= |s|
    ensures r == [] || (!IsWhitespace(r[0]) && !IsWhitespace(r[|r| - 1]))
    ensures r == [] <==> AllWhitespace(s)
  {
    var t := TrimStart(s);
    var r := TrimEnd(t);
    assert r == [] ==> AllWhitespace(s) by {
      if r == [] {
        assert t == [];
        assert s[..|s| - |t|] == s;
      }
    }
    assert AllWhitespace(s) ==> t == [] by {
      if t != [] { assert t[0] == s[|s| - |t|]; }
    }
    r
  }

  /** `r` is the slice of `s` starting at `a`, with only whitespace
      before and after it. */
  predicate MiddleOf(s: string, r: string, a: nat) {
    && a + |r| <= |s| && r == s[a..a + |r|]
    && AllWhitespace(s[..a]) && AllWhitespace(s[a + |r|..])
  }

  /** The trimmed string is the slice of `s` left when all-whitespace runs
      are cut from its two ends. */
  lemma TrimIsMiddle(s: string)
    ensures exists a: nat :: MiddleOf(s, Trim(s), a)
  {
    var t := TrimStart(s);
    var r := TrimEnd(t);
    var a := |s| - |t|;
    SuffixSlices(s, t, a, |r|);
    assert Trim(s) == r;
    assert a + |r| <= |s|;
    assert r == s[a..a + |r|];
    assert AllWhitespace(s[..a]);
    assert AllWhitespace(s[a + |r|..]);
    assert MiddleOf(s, r, a);
  }

  /** Slicing the suffix `t` of `s` that starts at `a` is slicing `s`. */
  lemma SuffixSlices(s: string, t: string, a: nat, n: nat)
    requires a <= |s| && t == s[a..] && n <= |t|
    ensures t[..n] == s[a..a + n] && t[n..] == s[a + n..]
  {
  }

  /** A string that neither starts nor ends with whitespace is its own trim. */
  lemma TrimOfTrimmed(s: string)
    requires s == [] || (!IsWhitespace(s[0]) && !IsWhitespace(s[|s| - 1]))
    ensures Trim(s) == s
  {
  }

  /** Trimming twice is trimming once. */
  lemma TrimIdempotent(s: string)
    ensures Trim(Trim(s)) == Trim(s)
  {
    TrimOfTrimmed(Trim(s));
  }

  /** The lower-case image of one code unit, for the ASCII letters. */
  function LowerChar(c: char): (d: char)
    ensures 'A' <= c <= 'Z' ==> d as int == c as int + 32
    ensures !('A' <= d <= 'Z')
    ensures !('A' <= c <= 'Z') ==> d == c
  {
    if 'A' <= c <= 'Z' then (c as int - 'A' as int + 'a' as int) as char else c
  }

  /** `String.prototype.toLowerCase`, restricted to the ASCII letters. */
  function ToLower(s: string): (r: string)
    ensures |r| == |s|
    ensures forall i | 0 <= i < |s| && 'A' <= s[i] <= 'Z' :: r[i] as int == s[i] as int + 32
    ensures forall i | 0 <= i < |r| :: !('A' <= r[i] <= 'Z')
    ensures forall i | 0 <= i < |s| && !('A' <= s[i] <= 'Z') :: r[i] == s[i]
  {
    seq(|s|, i requires 0 <= i < |s| => LowerChar(s[i]))
  }

  /** A lower-cased string is left as it is by lower-casing. */
  lemma ToLowerIdempotent(s: string)
    ensures ToLower(ToLower(s)) == ToLower(s)
  {
  }

  /** `a` and `b` are equal code unit by code unit, except that a capital
      ASCII letter may stand where the other has its lower-case letter. */
  predicate SameUpToCase(a: string, b: string) {
    && |a| == |b|
    && forall i | 0 <= i < |a| ::
         || a[i] == b[i]
         || ('A' <= a[i] <= 'Z' && b[i] as int == a[i] as int + 32)
         || ('A' <= b[i] <= 'Z' && a[i] as int == b[i] as int + 32)
  }

  /** Strings equal up to ASCII case lower-case to the same string. */
  lemma ToLowerUpToCase(a: string, b: string)
    requires SameUpToCase(a, b)
    ensures ToLower(a) == ToLower(b)
  {
    forall i | 0 <= i < |a| ensures ToLower(a)[i] == ToLower(b)[i] {
      assert LowerChar(a[i]) == LowerChar(b[i]);
    }
  }

  /** `w` occurs in `s` starting at index `i`. */
  ghost predicate OccursAt(w: string, s: string, i: nat) {
    i + |w| <= |s| && s[i..i + |w|] == w
  }

  /** `String.prototype.includes`: compare at each start index in turn. */
  function Includes(s: string, w: string): (found: bool)
    ensures found ==> |w| <= |s|
    ensures |w| <= |s| && s[..|w|] == w ==> found
    decreases |s|
  {
    if |w| > |s| then false
    else if s[..|w|] == w then true
    else Includes(s[1..], w)
  }

  lemma OccursShift(w: string, s: string, i: nat)
    requires s != []
    ensures OccursAt(w, s, i + 1) <==> OccursAt(w, s[1..], i)
  {
    if i + 1 + |w| <= |s| {
      assert s[i + 1..i + 1 + |w|] == s[1..][i..i + |w|];
    }
  }

  /** `Includes(s, w)` holds exactly when `w` occurs somewhere in `s`. */
  lemma {:induction false} IncludesSpec(s: string, w: string)
    ensures Includes(s, w) <==> exists i: nat :: OccursAt(w, s, i)
    decreases |s|
  {
    if |w| > |s| {
      forall i: nat ensures !OccursAt(w, s, i) { }
    } else if s[..|w|] == w {
      assert OccursAt(w, s, 0);
    } else {
      IncludesSpec(s[1..], w);
      forall i: nat ensures OccursAt(w, s, i + 1) <==> OccursAt(w, s[1..], i) {
        OccursShift(w, s, i);
      }
      if Includes(s[1..], w) {
        var i: nat :| OccursAt(w, s[1..], i);
        assert OccursAt(w, s, i + 1);
      } else {
        forall j: nat ensures !OccursAt(w, s, j) {
          if j > 0 { assert !OccursAt(w, s[1..], j - 1); }
        }
      }
    }
  }
}
