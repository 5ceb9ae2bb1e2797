/** The two string facts the services rely on: Go's `strings.TrimSpace`,
    used on every category and tag name, and the byte length `len(s)` of a
    Go string, used by SignUp. Go strings hold UTF-8; here a string is a
    sequence of Unicode scalar values and the byte length is computed from
    the UTF-8 width of each of them. */
module Text {

  /** `unicode.IsSpace`: the characters with the Unicode White_Space
      property, which is what `strings.TrimSpace` cuts off. */
  predicate IsSpace(c: char) {
    || ('\t' <= c <= '\r')              // tab, line feed, vertical tab, form feed, carriage return
    || c == ' '
    || c == '\U{85}' || c == '\U{A0}'   // next line, no-break space
    || c == '\U{1680}'
    || ('\U{2000}' <= c <= '\U{200A}')
    || c == '\U{2028}' || c == '\U{2029}'
    || c == '\U{202F}' || c == '\U{205F}' || c == '\U{3000}'
  }

  ghost predicate AllSpace(s: string) {
    forall k :: 0 <= k < |s| ==> IsSpace(s[k])
  }

  /** Neither end of `s` is white space (the empty string included). */
  ghost predicate Trimmed(s: string) {
    s == [] || (!IsSpace(s[0]) && !IsSpace(s[|s| - 1]))
  }

  /** The length of the leading run of white space. */
  function LeadingSpaces(s: string): (n: nat)
    ensures n <= |s|
    ensures forall k :: 0 <= k < n ==> IsSpace(s[k])
    ensures n < |s| ==> !IsSpace(s[n])
  {
    if |s| > 0 && IsSpace(s[0]) then 1 + LeadingSpaces(s[1..]) else 0
  }

  /** The length of the trailing run of white space. */
  function TrailingSpaces(s: string): (n: nat)
    ensures n <= |s|
    ensures forall k :: |s| - n <= k < |s| ==> IsSpace(s[k])
    ensures n < |s| ==> !IsSpace(s[|s| - 1 - n])
  {
    if |s| > 0 && IsSpace(s[|s| - 1]) then 1 + TrailingSpaces(s[..|s| - 1]) else 0
  }

  /** `strings.TrimSpace`: drop the leading white space, then the trailing
      white space of what is left. */
  function TrimSpace(s: string): (r: string)
    ensures |r| <= |s|
    ensures Trimmed(r)
  {
    var i := LeadingSpaces(s);
    var rest := s[i..];
    var j := TrailingSpaces(rest);
    var m := rest[..|rest| - j];
    assert m != [] ==> m[0] == s[i] && m[|m| - 1] == rest[|rest| - 1 - j];
    m
  }

  /** TrimSpace cuts `s` into white space, a trimmed middle and white space. */
  lemma TrimSpaceSplits(s: string)
    ensures var i := LeadingSpaces(s); var m := TrimSpace(s);
      && i + |m| <= |s|
      && s == s[..i] + m + s[i + |m|..]
      && AllSpace(s[..i]) && AllSpace(s[i + |m|..]) && Trimmed(m)
  {
    var i := LeadingSpaces(s);
    var rest := s[i..];
    var j := TrailingSpaces(rest);
    var m := TrimSpace(s);
    LeadingRunIsSpace(s);
    TrailingRunIsSpace(rest);
    assert m == s[i..i + |m|];
    assert s[i + |m|..] == rest[|rest| - j..];
    SplitThree(s, i, |m|);
  }

  lemma SplitThree<T>(s: seq<T>, i: nat, n: nat)
    requires i + n <= |s|
    ensures s == s[..i] + s[i..i + n] + s[i + n..]
  {
  }

  lemma LeadingRunIsSpace(s: string)
    ensures AllSpace(s[..LeadingSpaces(s)])
  {
    var i := LeadingSpaces(s);
    forall k | 0 <= k < i ensures IsSpace(s[..i][k]) {
      assert s[..i][k] == s[k];
    }
  }

  lemma TrailingRunIsSpace(s: string)
    ensures AllSpace(s[|s| - TrailingSpaces(s)..])
  {
    var j := TrailingSpaces(s);
    var tail := s[|s| - j..];
    forall k | 0 <= k < |tail| ensures IsSpace(tail[k]) {
      assert tail[k] == s[|s| - j + k];
    }
  }

  /** The characterisation of TrimSpace: whatever white space surrounds a
      trimmed middle, TrimSpace returns exactly that middle. */
  lemma TrimSpaceOf(a: string, m: string, b: string)
    requires AllSpace(a) && Trimmed(m) && AllSpace(b)
    ensures TrimSpace(a + m + b) == m
  {
    var s := a + m + b;
    var i := LeadingSpaces(s);
    if m == [] {
      assert s == a + b;
      assert AllSpace(s) by {
        forall k | 0 <= k < |s| ensures IsSpace(s[k]) {
          if k < |a| { assert s[k] == a[k]; } else { assert s[k] == b[k - |a|]; }
        }
      }
      assert i == |s|;
    } else {
      assert forall k :: 0 <= k < |a| ==> s[k] == a[k];
      assert s[|a|] == m[0];
      assert i == |a|;
      var rest := s[i..];
      assert rest == m + b;
      var j := TrailingSpaces(rest);
      assert forall k :: |m| <= k < |rest| ==> rest[k] == b[k - |m|];
      assert rest[|rest| - 1 - |b|] == m[|m| - 1];
      assert j == |b|;
      assert rest[..|rest| - j] == m;
    }
  }

  /** Trimming twice is trimming once (so a stored name is its own trim). */
  lemma TrimSpaceIdempotent(s: string)
    ensures TrimSpace(TrimSpace(s)) == TrimSpace(s)
  {
    var m := TrimSpace(s);
    TrimSpaceSplits(s);
    assert [] + m + [] == m;
    TrimSpaceOf([], m, []);
  }

  /** A name trims to the empty string exactly when it is all white space. */
  lemma TrimSpaceEmptyIff(s: string)
    ensures TrimSpace(s) == [] <==> AllSpace(s)
  {
    TrimSpaceSplits(s);
    var i := LeadingSpaces(s);
    if TrimSpace(s) == [] {
      assert i == |s|;
    }
    if AllSpace(s) {
      assert s + [] + [] == s;
      TrimSpaceOf(s, [], []);
    }
  }

  /** The number of bytes UTF-8 uses for one character. */
  function Utf8Width(c: char): nat {
    if c as int < 0x80 then 1
    else if c as int < 0x800 then 2
    else if c as int < 0x10000 then 3
    else 4
  }

  /** Go's `len` of a string: its length in UTF-8 bytes. */
  function ByteLen(s: string): (n: nat)
    ensures |s| <= n <= 4 * |s|
  {
    if s == [] then 0 else Utf8Width(s[0]) + ByteLen(s[1..])
  }

  /** For ASCII text, bytes and characters coincide. */
  lemma {:induction false} ByteLenAscii(s: string)
    requires forall k :: 0 <= k < |s| ==> s[k] as int < 0x80
    ensures ByteLen(s) == |s|
  {
    if s != [] {
      ByteLenAscii(s[1..]);
    }
  }
}
