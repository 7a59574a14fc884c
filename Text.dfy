/** The .NET string operations the controller relies on: `Char.IsWhiteSpace`, `String.Trim`
    and ordinal `String.Contains`. */
module Text {

  /** `Char.IsWhiteSpace`: the Unicode space, line and paragraph separators, the controls
      U+0009 to U+000D, and U+0085. */
  predicate IsWhiteSpace(c: char) {
    || ('\U{9}' <= c <= '\U{D}')
    || c == ' ' || c == '\U{85}' || c == '\U{A0}' || c == '\U{1680}'
    || ('\U{2000}' <= c <= '\U{200A}')
    || c == '\U{2028}' || c == '\U{2029}' || c == '\U{202F}' || c == '\U{205F}' || c == '\U{3000}'
  }

  ghost predicate AllWhiteSpace(s: string) {
    forall i :: 0 <= i < |s| ==> IsWhiteSpace(s[i])
  }

  /** Neither the first nor the last character of `s` is white space. */
  predicate Unpadded(s: string) {
    s == [] || (!IsWhiteSpace(s[0]) && !IsWhiteSpace(s[|s| - 1]))
  }

  /** `r` is `s` with a white-space prefix and a white-space suffix cut off, and `r` itself
      neither starts nor ends with white space. */
  ghost predicate IsTrimOf(s: string, r: string) {
    exists k :: 0 <= k <= |s| - |r| && TrimmedAt(s, r, k)
  }

  ghost predicate TrimmedAt(s: string, r: string, k: int)
    requires 0 <= k <= |s| - |r|
  {
    && s[k..k + |r|] == r
    && AllWhiteSpace(s[..k])
    && AllWhiteSpace(s[k + |r|..])
    && Unpadded(r)
  }

  /** `String.Trim`: removes all leading and trailing white space. */
  function Trim(s: string): (r: string)
    ensures IsTrimOf(s, r)
  {
    if s != [] && IsWhiteSpace(s[0]) then
      var r := Trim(s[1..]);
      TrimOfDropFirst(s, r);
      r
    else if s != [] && IsWhiteSpace(s[|s| - 1]) then
      var r := Trim(s[..|s| - 1]);
      TrimOfDropLast(s, r);
      r
    else
      TrimOfUnpadded(s);
      s
  }

  /** A leading white-space character is cut off with the rest of the prefix. */
  lemma TrimOfDropFirst(s: string, r: string)
    requires s != [] && IsWhiteSpace(s[0]) && IsTrimOf(s[1..], r)
    ensures IsTrimOf(s, r)
  {
    var t := s[1..];
    var k :| 0 <= k <= |t| - |r| && TrimmedAt(t, r, k);
    assert s[k + 1..k + 1 + |r|] == r by {
      assert s[k + 1..k + 1 + |r|] == t[k..k + |r|];
    }
    assert AllWhiteSpace(s[..k + 1]) by {
      var p := s[..k + 1];
      assert AllWhiteSpace(t[..k]);
      forall i | 0 <= i < |p| ensures IsWhiteSpace(p[i]) {
        if i > 0 { assert p[i] == t[..k][i - 1]; }
      }
    }
    assert AllWhiteSpace(s[k + 1 + |r|..]) by {
      assert s[k + 1 + |r|..] == t[k + |r|..];
    }
    assert TrimmedAt(s, r, k + 1);
  }

  /** A trailing white-space character is cut off with the rest of the suffix. */
  lemma TrimOfDropLast(s: string, r: string)
    requires s != [] && IsWhiteSpace(s[|s| - 1]) && IsTrimOf(s[..|s| - 1], r)
    ensures IsTrimOf(s, r)
  {
    var t := s[..|s| - 1];
    var k :| 0 <= k <= |t| - |r| && TrimmedAt(t, r, k);
    assert s[k..k + |r|] == r by {
      assert s[k..k + |r|] == t[k..k + |r|];
    }
    assert AllWhiteSpace(s[..k]) by {
      assert s[..k] == t[..k];
    }
    assert AllWhiteSpace(s[k + |r|..]) by {
      var p := s[k + |r|..];
      var q := t[k + |r|..];
      assert AllWhiteSpace(q);
      forall i | 0 <= i < |p| ensures IsWhiteSpace(p[i]) {
        if i < |q| { assert p[i] == q[i]; }
      }
    }
    assert TrimmedAt(s, r, k);
  }

  /** A string that neither starts nor ends with white space is its own trim. */
  lemma TrimOfUnpadded(s: string)
    requires Unpadded(s)
    ensures IsTrimOf(s, s)
  {
    assert s[0..|s|] == s && s[..0] == [] && s[|s|..] == [];
    assert TrimmedAt(s, s, 0);
  }

  /** The contract of `Trim` determines its result: there is only one way to trim a string. */
  lemma TrimOfIsUnique(s: string, r1: string, r2: string)
    requires IsTrimOf(s, r1) && IsTrimOf(s, r2)
    ensures r1 == r2
  {
    var k1 :| 0 <= k1 <= |s| - |r1| && TrimmedAt(s, r1, k1);
    var k2 :| 0 <= k2 <= |s| - |r2| && TrimmedAt(s, r2, k2);
    if r1 == [] || r2 == [] {
      if r1 != [] {
        NoNonSpaceIn(s, r2, k2, k1);
      } else if r2 != [] {
        NoNonSpaceIn(s, r1, k1, k2);
      }
    }
  }

  /** When trimming `s` gives the empty string, `s` is all white space. */
  lemma NoNonSpaceIn(s: string, r: string, k: int, j: int)
    requires 0 <= k <= |s| - |r| && TrimmedAt(s, r, k) && r == []
    requires 0 <= j < |s|
    ensures IsWhiteSpace(s[j])
  {
    if j < k {
      assert s[..k][j] == s[j];
    } else {
      assert s[k..][j - k] == s[j];
    }
  }

  /** Trimming twice is trimming once. */
  lemma TrimIsIdempotent(s: string)
    ensures Trim(Trim(s)) == Trim(s)
  {
    var r := Trim(s);
    var k :| 0 <= k <= |s| - |r| && TrimmedAt(s, r, k);
    TrimOfUnpadded(r);
    TrimOfIsUnique(r, Trim(r), r);
  }

  /** `t` occurs in `s` starting at offset `i`. */
  ghost predicate OccursAt(s: string, t: string, i: int) {
    0 <= i <= |s| - |t| && s[i..i + |t|] == t
  }

  /** `String.Contains` with ordinal comparison: `t` occurs somewhere in `s`. */
  function Contains(s: string, t: string): (r: bool)
    ensures r <==> exists i :: OccursAt(s, t, i)
  {
    if |t| > |s| then false
    else if t <= s then
      assert OccursAt(s, t, 0);
      true
    else
      ContainsShift(s, t);
      Contains(s[1..], t)
  }

  /** An occurrence of `t` in `s` that is not at offset 0 is an occurrence in `s[1..]`. */
  lemma ContainsShift(s: string, t: string)
    requires |t| <= |s| && !(t <= s)
    ensures (exists i :: OccursAt(s, t, i)) <==> (exists i :: OccursAt(s[1..], t, i))
  {
    if i :| OccursAt(s, t, i) {
      assert s[1..][i - 1..i - 1 + |t|] == t;
      assert OccursAt(s[1..], t, i - 1);
    }
    if i :| OccursAt(s[1..], t, i) {
      assert s[i + 1..i + 1 + |t|] == t;
      assert OccursAt(s, t, i + 1);
    }
  }
}
