/** String helpers that mirror the JavaScript built-ins the editors rely on:
    `String.prototype.trim`, decimal rendering of a non-negative integer in a
    template literal, and `String.prototype.replace` with a literal pattern
    (which replaces the FIRST occurrence only). */
module Text {

  /** The characters `String.prototype.trim` strips: the WhiteSpace and
      LineTerminator productions of ECMAScript (section 12.2 and 12.3 of
      ECMA-262): TAB, VT, FF, SP, NBSP, ZWNBSP, the other Zs space separators,
      LF, CR, LS and PS. */
  predicate IsJsWhitespace(c: char) {
    || c == '\t' || c == '\n' || c == '\U{000B}' || c == '\U{000C}' || c == '\r'
    || c == ' ' || c == '\U{00A0}' || c == '\U{1680}'
    || ('\U{2000}' <= c <= '\U{200A}')
    || c == '\U{2028}' || c == '\U{2029}' || c == '\U{202F}' || c == '\U{205F}'
    || c == '\U{3000}' || c == '\U{FEFF}'
  }

  /** A string made only of whitespace (the empty string included). */
  predicate IsBlank(s: string) {
    forall i :: 0 <= i < |s| ==> IsJsWhitespace(s[i])
  }

  function TrimStart(s: string): (r: string)
    ensures |r| <= |s| && r == s[|s| - |r|..]
    ensures IsBlank(s[..|s| - |r|])
    ensures r != [] ==> !IsJsWhitespace(r[0])
  {
    if |s| > 0 && IsJsWhitespace(s[0]) then
      var r := TrimStart(s[1..]);
      StripFrontStep(s, r);
      r
    else s
  }

  function TrimEnd(s: string): (r: string)
    ensures |r| <= |s| && r == s[..|r|]
    ensures IsBlank(s[|r|..])
    ensures r != [] ==> !IsJsWhitespace(r[|r| - 1])
  {
    if |s| > 0 && IsJsWhitespace(s[|s| - 1]) then
      var r := TrimEnd(s[..|s| - 1]);
      BlankBack(s, |r|);
      r
    else s
  }

  /** One step of stripping the front: what is left after stripping the tail
      of `s` is left after stripping `s`, when `s` starts with whitespace. */
  lemma StripFrontStep(s: string, r: string)
    requires |s| > 0 && IsJsWhitespace(s[0])
    requires |r| <= |s| - 1 && r == s[1..][|s| - 1 - |r|..] && IsBlank(s[1..][..|s| - 1 - |r|])
    ensures r == s[|s| - |r|..] && IsBlank(s[..|s| - |r|])
  {
    var n := |s| - |r|;
    assert s[1..][n - 1..] == s[n..];
    forall k | 0 <= k < n ensures IsJsWhitespace(s[..n][k]) {
      if k > 0 { assert s[..n][k] == s[1..][..n - 1][k - 1]; }
    }
  }

  /** A blank stretch followed by a whitespace character is blank. */
  lemma BlankBack(s: string, n: nat)
    requires n < |s| && IsJsWhitespace(s[|s| - 1]) && IsBlank(s[..|s| - 1][n..])
    ensures IsBlank(s[n..])
  {
    forall k | 0 <= k < |s| - n ensures IsJsWhitespace(s[n..][k]) {
      if k < |s| - 1 - n { assert s[n..][k] == s[..|s| - 1][n..][k]; }
    }
  }

  /** `s.trim()`: the contiguous slice of `s` left after stripping leading and
      trailing whitespace. */
  function Trim(s: string): (r: string)
    ensures exists i, j :: 0 <= i <= j <= |s| && r == s[i..j] && IsBlank(s[..i]) && IsBlank(s[j..])
    ensures r != [] ==> !IsJsWhitespace(r[0]) && !IsJsWhitespace(r[|r| - 1])
  {
    var a := TrimStart(s);
    var b := TrimEnd(a);
    SuffixParts(s, |s| - |a|, |b|);
    b
  }

  /** Splitting the suffix of `s` that starts at `i` after `n` elements
      gives two slices of `s`. */
  lemma SuffixParts<T>(s: seq<T>, i: nat, n: nat)
    requires i + n <= |s|
    ensures s[i..][..n] == s[i..i + n] && s[i..][n..] == s[i + n..]
  {
  }

  /** The source's guard `!name.trim()` fails exactly for the blank strings. */
  lemma TrimEmptyIffBlank(s: string)
    ensures Trim(s) == [] <==> IsBlank(s)
  {
    var a := TrimStart(s);
    var n := |s| - |a|;
    assert Trim(s) == TrimEnd(a);
    assert a != [] ==> a[0] == s[n];
    if TrimEnd(a) == [] {
      // all of `a` is whitespace, yet it cannot start with whitespace
      assert IsBlank(a[0..]) && a[0..] == a;
      assert s[..n] == s;
    }
  }

  /** Trimming twice is trimming once. */
  lemma TrimIdempotent(s: string)
    ensures Trim(Trim(s)) == Trim(s)
  {
    var t := Trim(s);
    var i, j :| 0 <= i <= j <= |t| && Trim(t) == t[i..j] && IsBlank(t[..i]) && IsBlank(t[j..]);
    if t != [] {
      if i > 0 { assert t[..i][0] == t[0]; }
      if j < |t| { assert t[j..][|t| - 1 - j] == t[|t| - 1]; }
    }
  }

  // ---------------------------------------------------------------------
  // Decimal rendering of non-negative integers (`${n}` in a template)

  function DigitChar(d: nat): (c: char)
    requires d < 10
    ensures '0' <= c <= '9'
  {
    ['0', '1', '2', '3', '4', '5', '6', '7', '8', '9'][d]
  }

  function DigitValue(c: char): nat
  {
    if '0' <= c <= '9' then (c as int - '0' as int) else 0
  }

  predicate IsDigits(s: string) {
    forall i :: 0 <= i < |s| ==> '0' <= s[i] <= '9'
  }

  /** Decimal text of `n` with no leading zeros, as JavaScript renders a
      non-negative integer. */
  function NatToString(n: nat): (r: string)
    ensures |r| >= 1 && IsDigits(r)
    ensures |r| > 1 ==> r[0] != '0'
  {
    if n < 10 then [DigitChar(n)] else NatToString(n / 10) + [DigitChar(n % 10)]
  }

  /** Reads back a string of decimal digits. */
  function ParseDigits(s: string): nat
  {
    if s == [] then 0 else 10 * ParseDigits(s[..|s| - 1]) + DigitValue(s[|s| - 1])
  }

  lemma DigitRoundTrip(d: nat)
    requires d < 10
    ensures DigitValue(DigitChar(d)) == d
  {
  }

  /** Rendering then parsing gives back the number. */
  lemma {:induction false} ParseNatToString(n: nat)
    ensures ParseDigits(NatToString(n)) == n
  {
    var r := NatToString(n);
    if n < 10 {
      DigitRoundTrip(n);
      assert r[..0] == [];
    } else {
      assert r[..|r| - 1] == NatToString(n / 10);
      DigitRoundTrip(n % 10);
      ParseNatToString(n / 10);
    }
  }

  /** Distinct numbers have distinct renderings. */
  lemma NatToStringInjective(m: nat, n: nat)
    ensures NatToString(m) == NatToString(n) <==> m == n
  {
    if NatToString(m) == NatToString(n) {
      ParseNatToString(m);
      ParseNatToString(n);
    }
  }

  // ---------------------------------------------------------------------
  // First-occurrence search and `replace(pattern, '')`

  predicate OccursAt(s: string, pat: string, i: nat) {
    i + |pat| <= |s| && s[i..i + |pat|] == pat
  }

  predicate Contains(s: string, pat: string) {
    exists i: nat :: i <= |s| && OccursAt(s, pat, i)
  }

  /** Index of the first occurrence of `pat` in `s` at or after `from`. */
  function IndexOfFrom(s: string, pat: string, from: nat): (r: int)
    requires from <= |s|
    ensures r == -1 || (from <= r && OccursAt(s, pat, r))
    ensures forall k: nat :: from <= k && (r == -1 || k < r) ==> !OccursAt(s, pat, k)
    decreases |s| - from
  {
    if from + |pat| > |s| then -1
    else if s[from..from + |pat|] == pat then from
    else if from == |s| then -1
    else IndexOfFrom(s, pat, from + 1)
  }

  /** `s.indexOf(pat)`: the first occurrence, or -1 when there is none. */
  function IndexOf(s: string, pat: string): (r: int)
    ensures r == -1 <==> !Contains(s, pat)
    ensures r != -1 ==> r >= 0 && OccursAt(s, pat, r)
    ensures forall k: nat :: k < r ==> !OccursAt(s, pat, k)
  {
    IndexOfFrom(s, pat, 0)
  }

  /** `s.replace(pat, '')` with a string pattern: only the FIRST occurrence
      is removed; a string without one comes back unchanged. */
  function RemoveFirst(s: string, pat: string): (r: string)
    ensures !Contains(s, pat) ==> r == s
    ensures Contains(s, pat) ==> |r| == |s| - |pat|
    ensures Contains(s, pat) ==>
              exists k: nat :: && OccursAt(s, pat, k)
                               && (forall j: nat :: j < k ==> !OccursAt(s, pat, j))
                               && r == s[..k] + s[k + |pat|..]
  {
    var i := IndexOf(s, pat);
    if i == -1 then s else s[..i] + s[i + |pat|..]
  }

  /** A pattern whose first character does not occur again inside it (such
      as ".json") cannot overlap the end of a string and a copy of itself:
      appending it to a string that does not contain it makes the appended
      copy the first occurrence, so removing the first occurrence takes back
      exactly what was appended. */
  lemma RemoveFirstOfAppended(base: string, pat: string)
    requires |pat| > 0 && forall k :: 1 <= k < |pat| ==> pat[k] != pat[0]
    requires !Contains(base, pat)
    ensures RemoveFirst(base + pat, pat) == base
  {
    var s := base + pat;
    assert OccursAt(s, pat, |base|);
    forall k: nat | k < |base| ensures !OccursAt(s, pat, k) {
      if k + |pat| <= |base| {
        assert s[k..k + |pat|] == base[k..k + |pat|];
        assert !OccursAt(base, pat, k);
      } else {
        assert s[k..k + |pat|][|base| - k] == s[|base|] == pat[0];
      }
    }
    assert IndexOf(s, pat) == |base|;
    assert s[..|base|] == base;
    assert s[|base| + |pat|..] == [];
  }
}
