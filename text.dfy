/** `String.prototype.trim` as the ECMAScript standard defines it. */
module Text {

  /** The code points `trim` removes: ECMAScript's WhiteSpace (TAB, VT, FF,
      SPACE, NBSP, ZWNBSP and the Zs category) and LineTerminator (LF, CR,
      LS, PS) productions. */
  predicate IsWhitespace(c: char)
  {
    || c == '\t' || c == '\n' || c == '\U{000B}' || c == '\U{000C}' || c == '\r'
    || c == ' ' || c == '\U{00A0}' || c == '\U{1680}'
    || ('\U{2000}' <= c <= '\U{200A}')
    || c == '\U{2028}' || c == '\U{2029}' || c == '\U{202F}' || c == '\U{205F}'
    || c == '\U{3000}' || c == '\U{FEFF}'
  }

  /** The length of the leading run of whitespace: every code point before
      it is whitespace, and the one at it, if any, is not. */
  function LeadingWhitespace(s: string): (k: nat)
    ensures k <= |s|
    ensures forall i :: 0 <= i < k ==> IsWhitespace(s[i])
    ensures k == |s| || !IsWhitespace(s[k])
  {
    if s != [] && IsWhitespace(s[0]) then 1 + LeadingWhitespace(s[1..]) else 0
  }

  /** The length of the trailing run of whitespace: every code point in it
      is whitespace, and the one just before it, if any, is not. */
  function TrailingWhitespace(s: string): (k: nat)
    ensures k <= |s|
    ensures forall i :: |s| - k <= i < |s| ==> IsWhitespace(s[i])
    ensures k == |s| || !IsWhitespace(s[|s| - k - 1])
  {
    if s != [] && IsWhitespace(s[|s| - 1]) then 1 + TrailingWhitespace(s[..|s| - 1]) else 0
  }

  /** Drops leading whitespace: the result is a suffix of `s`, everything
      dropped is whitespace and the result does not start with whitespace. */
  function TrimStart(s: string): (r: string)
    ensures |r| <= |s| && r == s[|s| - |r|..]
    ensures r == [] || !IsWhitespace(r[0])
    ensures forall i :: 0 <= i < |s| - |r| ==> IsWhitespace(s[i])
  {
    s[LeadingWhitespace(s)..]
  }

  /** Drops trailing whitespace: the result is a prefix of `s`, everything
      dropped is whitespace and the result does not end with whitespace. */
  function TrimEnd(s: string): (r: string)
    ensures |r| <= |s| && r == s[..|r|]
    ensures r == [] || !IsWhitespace(r[|r| - 1])
    ensures forall i :: |r| <= i < |s| ==> IsWhitespace(s[i])
  {
    s[..|s| - TrailingWhitespace(s)]
  }

  /** `s.trim()`: neither end of the result is whitespace. */
  function Trim(s: string): (r: string)
    ensures |r| <= |s|
    ensures r == [] || (!IsWhitespace(r[0]) && !IsWhitespace(r[|r| - 1]))
  {
    TrimEnd(TrimStart(s))
  }

  /** The UTF-16 code units a code point takes: two (a surrogate pair)
      above the Basic Multilingual Plane, one otherwise. */
  function CodeUnits(c: char): nat
  {
    if c > '\U{FFFF}' then 2 else 1
  }

  /** A JavaScript string's `length`: its number of UTF-16 code units, at
      least one and at most two per code point. */
  function Utf16Length(s: string): (n: nat)
    ensures |s| <= n <= 2 * |s|
  {
    if s == [] then 0 else CodeUnits(s[0]) + Utf16Length(s[1..])
  }

  /** `length` adds up over concatenation. */
  lemma {:induction false} Utf16LengthConcat(a: string, b: string)
    ensures Utf16Length(a + b) == Utf16Length(a) + Utf16Length(b)
  {
    if a == [] {
      assert a + b == b;
    } else {
      Utf16LengthConcat(a[1..], b);
      assert (a + b)[0] == a[0] && (a + b)[1..] == a[1..] + b;
    }
  }

  /** A prefix `r` of a suffix `t` of `s` is a slice of `s`; past its end
      `s` and `t` agree. */
  lemma PrefixOfSuffix(s: string, t: string, r: string)
    requires |t| <= |s| && t == s[|s| - |t|..]
    requires |r| <= |t| && r == t[..|r|]
    ensures r == s[|s| - |t|..|s| - |t| + |r|]
    ensures forall i :: |s| - |t| <= i < |s| ==> s[i] == t[i - (|s| - |t|)]
  {
  }

  /** `Trim(s)` is the slice of `s` that starts where `TrimStart` stopped. */
  lemma TrimIsInterior(s: string)
    ensures |s| - |TrimStart(s)| + |Trim(s)| <= |s|
    ensures Trim(s) == s[|s| - |TrimStart(s)|..|s| - |TrimStart(s)| + |Trim(s)|]
  {
    var t := TrimStart(s);
    var r := TrimEnd(t);
    var lo := |s| - |t|;
    assert r == Trim(s);
    assert lo + |r| <= |s| && r == s[lo..lo + |r|] by {
      PrefixOfSuffix(s, t, r);
    }
  }

  /** Everything `Trim` drops, before and after its result, is whitespace. */
  lemma TrimDropsWhitespace(s: string)
    ensures forall i :: 0 <= i < |s| - |TrimStart(s)| ==> IsWhitespace(s[i])
    ensures forall i :: |s| - |TrimStart(s)| + |Trim(s)| <= i < |s| ==> IsWhitespace(s[i])
  {
    var t := TrimStart(s);
    var lo := |s| - |t|;
    var r := TrimEnd(t);
    forall i | lo + |r| <= i < |s|
      ensures IsWhitespace(s[i])
    {
      assert s[i] == t[i - lo];
    }
  }

  /** A string with no whitespace at either end is its own trim. */
  lemma TrimOfTrimmed(s: string)
    requires s == [] || (!IsWhitespace(s[0]) && !IsWhitespace(s[|s| - 1]))
    ensures Trim(s) == s
  {
  }

  /** Trimming twice is trimming once. */
  lemma TrimIdempotent(s: string)
    ensures Trim(Trim(s)) == Trim(s)
  {
    TrimOfTrimmed(Trim(s));
  }

  /** `TrimStart` removes exactly the leading run of whitespace. */
  lemma TrimStartSkips(s: string, k: nat)
    requires k <= |s|
    requires forall i :: 0 <= i < k ==> IsWhitespace(s[i])
    requires k == |s| || !IsWhitespace(s[k])
    ensures TrimStart(s) == s[k..]
  {
    assert LeadingWhitespace(s) == k;
  }

  /** `TrimEnd` removes exactly the trailing run of whitespace. */
  lemma TrimEndSkips(s: string, k: nat)
    requires k <= |s|
    requires forall i :: |s| - k <= i < |s| ==> IsWhitespace(s[i])
    requires k == |s| || !IsWhitespace(s[|s| - k - 1])
    ensures TrimEnd(s) == s[..|s| - k]
  {
    assert TrailingWhitespace(s) == k;
  }

  /** A string is the concatenation of its three pieces around a slice. */
  lemma SplitAround(s: string, lo: nat, hi: nat)
    requires lo <= hi <= |s|
    ensures s == s[..lo] + s[lo..hi] + s[hi..]
  {
  }

  /** The middle of a concatenation is no longer than the whole. */
  lemma Utf16LengthOfMiddle(a: string, b: string, c: string)
    ensures Utf16Length(b) <= Utf16Length(a + b + c)
  {
    Utf16LengthConcat(a + b, c);
    Utf16LengthConcat(a, b);
  }

  /** A slice is no longer than the whole string. */
  lemma Utf16LengthOfSlice(s: string, lo: nat, hi: nat)
    requires lo <= hi <= |s|
    ensures Utf16Length(s[lo..hi]) <= Utf16Length(s)
  {
    SplitAround(s, lo, hi);
    Utf16LengthOfMiddle(s[..lo], s[lo..hi], s[hi..]);
  }

  /** Trimming never makes a string's `length` larger. */
  lemma TrimShortensUtf16(s: string)
    ensures Utf16Length(Trim(s)) <= Utf16Length(s)
  {
    var t := Trim(s);
    var lo := |s| - |TrimStart(s)|;
    assert lo + |t| <= |s| && t == s[lo..lo + |t|] by {
      TrimIsInterior(s);
    }
    Utf16LengthOfSlice(s, lo, lo + |t|);
  }
}
