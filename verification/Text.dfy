/** Strings as the manager reads them: `strings.TrimSpace` and the emptiness test built on it. */
module Text {

  /** The characters `unicode.IsSpace` accepts. */
  predicate IsSpace(c: char) {
    || '\t' <= c <= '\r'
    || c in {' ', '\U{85}', '\U{A0}', '\U{1680}', '\U{2028}', '\U{2029}', '\U{202F}', '\U{205F}', '\U{3000}'}
    || '\U{2000}' <= c <= '\U{200A}'
  }

  function TrimLeft(s: string): string {
    if s == "" || !IsSpace(s[0]) then s else TrimLeft(s[1..])
  }

  function TrimRight(s: string): string {
    if s == "" || !IsSpace(s[|s| - 1]) then s else TrimRight(s[..|s| - 1])
  }

  function TrimSpace(s: string): string {
    TrimRight(TrimLeft(s))
  }

  /** `strings.TrimSpace(s) == ""`. */
  predicate Blank(s: string) {
    TrimSpace(s) == ""
  }

  /** No white space at either end. */
  predicate Trimmed(s: string) {
    s == "" || (!IsSpace(s[0]) && !IsSpace(s[|s| - 1]))
  }

  lemma {:induction false} TrimLeftShape(s: string)
    ensures TrimLeft(s) == "" || !IsSpace(TrimLeft(s)[0])
    ensures |TrimLeft(s)| <= |s| && TrimLeft(s) == s[|s| - |TrimLeft(s)|..]
  {
    if s != "" && IsSpace(s[0]) {
      TrimLeftShape(s[1..]);
    }
  }

  lemma {:induction false} TrimRightShape(s: string)
    ensures TrimRight(s) <= s
    ensures TrimRight(s) == "" || !IsSpace(TrimRight(s)[|TrimRight(s)| - 1])
    ensures s != "" && !IsSpace(s[0]) ==> TrimRight(s) != ""
  {
    if s != "" && IsSpace(s[|s| - 1]) {
      TrimRightShape(s[..|s| - 1]);
    }
  }

  /** Trimming leaves no white space at the ends, and does nothing to a string that has none. */
  lemma TrimSpaceTrims(s: string)
    ensures Trimmed(TrimSpace(s))
    ensures Trimmed(s) ==> TrimSpace(s) == s
    ensures |TrimSpace(s)| <= |s|
  {
    TrimLeftShape(s);
    TrimRightShape(TrimLeft(s));
  }

  /** A string with a visible character at one end keeps one: it never trims to nothing. */
  lemma TrimKeepsVisibleEnd(s: string)
    requires s != "" && !IsSpace(s[|s| - 1])
    ensures TrimSpace(s) != ""
  {
    TrimLeftShape(s);
    TrimRightShape(TrimLeft(s));
    TrimLeftKeepsVisibleEnd(s);
  }

  lemma {:induction false} TrimLeftKeepsVisibleEnd(s: string)
    requires s != "" && !IsSpace(s[|s| - 1])
    ensures TrimLeft(s) != ""
  {
    if IsSpace(s[0]) {
      TrimLeftKeepsVisibleEnd(s[1..]);
    }
  }

  /** Go's `<` on strings: lexicographic. */
  predicate StringLess(a: string, b: string) {
    if b == "" then false
    else if a == "" then true
    else if a[0] != b[0] then a[0] < b[0]
    else StringLess(a[1..], b[1..])
  }

  // ----- what these say, character by character -----

  predicate AllSpace(s: string) {
    forall i :: 0 <= i < |s| ==> IsSpace(s[i])
  }

  /** Some character of the string shows. */
  predicate Shows(s: string) {
    exists i :: 0 <= i < |s| && !IsSpace(s[i])
  }

  /** `t` is what is left of `s` without the white space around it. */
  ghost predicate IsTrimOf(t: string, s: string) {
    && Trimmed(t)
    && exists k :: 0 <= k <= k + |t| <= |s| && s[k..k + |t|] == t && AllSpace(s[..k]) && AllSpace(s[k + |t|..])
  }

  lemma {:induction false} TrimLeftMeans(s: string)
    ensures |TrimLeft(s)| <= |s| && TrimLeft(s) == s[|s| - |TrimLeft(s)|..] && AllSpace(s[..|s| - |TrimLeft(s)|])
  {
    hide IsSpace;
    if s != "" && IsSpace(s[0]) {
      TrimLeftMeans(s[1..]);
      var k := |s| - |TrimLeft(s)|;
      assert s[..k] == [s[0]] + s[1..][..k - 1];
    }
  }

  lemma {:induction false} TrimRightMeans(s: string)
    ensures |TrimRight(s)| <= |s| && TrimRight(s) == s[..|TrimRight(s)|] && AllSpace(s[|TrimRight(s)|..])
  {
    hide IsSpace;
    if s != "" && IsSpace(s[|s| - 1]) {
      var front := s[..|s| - 1];
      TrimRightMeans(front);
      var k := |TrimRight(s)|;
      assert s[k..] == front[k..] + [s[|s| - 1]];
    }
  }

  /** Trimming removes the white space around a string and nothing else. */
  lemma TrimSpaceMeans(s: string)
    ensures IsTrimOf(TrimSpace(s), s)
  {
    hide IsSpace;
    var left := TrimLeft(s);
    var t, k := TrimRight(left), |s| - |left|;
    TrimLeftMeans(s);
    TrimRightMeans(left);
    TrimSpaceTrims(s);
    assert s[k..][..|t|] == s[k..k + |t|] && left[|t|..] == s[k + |t|..];
  }

  /** It leaves something exactly when some character shows. */
  lemma BlankMeans(s: string)
    ensures TrimSpace(s) != "" <==> Shows(s)
  {
    hide IsSpace;
    TrimSpaceMeans(s);
    var t := TrimSpace(s);
    var k :| 0 <= k <= k + |t| <= |s| && s[k..k + |t|] == t && AllSpace(s[..k]) && AllSpace(s[k + |t|..]);
    if t != "" {
      assert s[k] == t[0];
    } else {
      forall i | 0 <= i < |s| ensures IsSpace(s[i]) {
        assert if i < k then s[i] == s[..k][i] else s[i] == s[k..][i - k];
      }
    }
  }

  /** The code points of the Unicode property White_Space. */
  lemma SpacesAre(c: char)
    ensures IsSpace(c) <==>
      || 9 <= c as int <= 13
      || c as int in {0x20, 0x85, 0xA0, 0x1680, 0x2028, 0x2029, 0x202F, 0x205F, 0x3000}
      || 0x2000 <= c as int <= 0x200A
  {
  }

  /** Two strings compare by the first character they differ in; a string comes before its extensions. */
  lemma {:induction false} StringLessMeans(a: string, b: string)
    ensures StringLess(a, b) <==> exists k :: DiffersFirstAt(a, b, k)
  {
    if StringLess(a, b) {
      if a == "" || a[0] != b[0] {
        assert DiffersFirstAt(a, b, 0);
      } else {
        StringLessMeans(a[1..], b[1..]);
        var k: nat :| DiffersFirstAt(a[1..], b[1..], k);
        assert a[..k + 1] == [a[0]] + a[1..][..k] && b[..k + 1] == [b[0]] + b[1..][..k];
        assert DiffersFirstAt(a, b, k + 1);
      }
    }
    if k: nat :| DiffersFirstAt(a, b, k) {
      if k > 0 {
        assert a[0] == a[..k][0] == b[..k][0] == b[0];
        assert a[1..][..k - 1] == a[..k][1..] && b[1..][..k - 1] == b[..k][1..];
        assert DiffersFirstAt(a[1..], b[1..], k - 1);
        StringLessMeans(a[1..], b[1..]);
      }
    }
  }

  /** The first `k` characters agree, and then `a` ends or has the smaller one. */
  predicate DiffersFirstAt(a: string, b: string, k: nat) {
    k <= |a| && k < |b| && a[..k] == b[..k] && (k == |a| || a[k] < b[k])
  }
}
