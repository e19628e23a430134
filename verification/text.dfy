/**
 * The string primitives the receipt code relies on: `String.prototype.trim`, the `\s`
 * class of regular expressions, and lower-casing.
 */
module Text {

  /**
   * The ECMAScript WhiteSpace and LineTerminator code points, which are exactly what
   * `trim` strips and what `\s` matches.
   */
  predicate IsWhitespace(c: char) {
    if c < '\U{A0}' then
      c == ' ' || ('\t' <= c <= '\r')  // tab, line feed, vertical tab, form feed, carriage return
    else
      c == '\U{A0}' || c == '\U{1680}' || ('\U{2000}' <= c <= '\U{200A}')
      || c == '\U{2028}' || c == '\U{2029}' || c == '\U{202F}' || c == '\U{205F}'
      || c == '\U{3000}' || c == '\U{FEFF}'
  }

  /** The same 25 code points, listed one by one. */
  const WhitespaceChars: set<char> := {
    '\t', '\n', '\U{B}', '\U{C}', '\r', ' ', '\U{A0}', '\U{1680}',
    '\U{2000}', '\U{2001}', '\U{2002}', '\U{2003}', '\U{2004}', '\U{2005}',
    '\U{2006}', '\U{2007}', '\U{2008}', '\U{2009}', '\U{200A}',
    '\U{2028}', '\U{2029}', '\U{202F}', '\U{205F}', '\U{3000}', '\U{FEFF}' }

  /** The ranges `IsWhitespace` tests cover exactly the listed code points. */
  lemma WhitespaceListed(c: char)
    ensures IsWhitespace(c) <==> c in WhitespaceChars
  {
  }

  predicate AllWhitespace(s: string) {
    forall i :: 0 <= i < |s| ==> IsWhitespace(s[i])
  }

  /** `s` with its leading whitespace removed. */
  function TrimStart(s: string): (r: string)
    ensures |r| <= |s| && r == s[|s| - |r|..]
    ensures r == [] || !IsWhitespace(r[0])
  {
    if s == [] || !IsWhitespace(s[0]) then s else TrimStart(s[1..])
  }

  /** Everything `TrimStart` drops is whitespace. */
  lemma {:induction false} TrimStartDropsWhitespace(s: string)
    ensures AllWhitespace(s[..|s| - |TrimStart(s)|])
  {
    if s != [] && IsWhitespace(s[0]) {
      TrimStartDropsWhitespace(s[1..]);
      var n := |s| - |TrimStart(s)|;
      forall k | 0 <= k < n ensures IsWhitespace(s[..n][k]) {
        if k > 0 {
          assert s[..n][k] == s[1..][..n - 1][k - 1];
        }
      }
    }
  }

  /** A string that ends in a non-blank character keeps that character when trimmed at the start. */
  lemma {:induction false} TrimStartKeepsLast(s: string)
    requires s != [] && !IsWhitespace(s[|s| - 1])
    ensures TrimStart(s) != [] && TrimStart(s)[|TrimStart(s)| - 1] == s[|s| - 1]
  {
    if IsWhitespace(s[0]) {
      assert s[1..][|s| - 2] == s[|s| - 1];
      TrimStartKeepsLast(s[1..]);
    }
  }

  /** `s` with its trailing whitespace removed. */
  function TrimEnd(s: string): (r: string)
    ensures |r| <= |s| && r == s[..|r|]
    ensures r == [] || !IsWhitespace(r[|r| - 1])
  {
    if s == [] || !IsWhitespace(s[|s| - 1]) then s else TrimEnd(s[..|s| - 1])
  }

  /** Everything `TrimEnd` drops is whitespace. */
  lemma {:induction false} TrimEndDropsWhitespace(s: string)
    ensures AllWhitespace(s[|TrimEnd(s)|..])
  {
    if s != [] && IsWhitespace(s[|s| - 1]) {
      var p := s[..|s| - 1];
      TrimEndDropsWhitespace(p);
      var m := |TrimEnd(s)|;
      forall k | 0 <= k < |s| - m ensures IsWhitespace(s[m..][k]) {
        if m + k < |s| - 1 {
          assert s[m..][k] == p[m..][k];
        }
      }
    }
  }

  /** `TrimStart` leaves nothing exactly when the string is blank. */
  lemma {:induction false} TrimStartEmptyIff(s: string)
    ensures TrimStart(s) == [] <==> AllWhitespace(s)
  {
    if s != [] && IsWhitespace(s[0]) {
      TrimStartEmptyIff(s[1..]);
      assert AllWhitespace(s[1..]) ==> AllWhitespace(s) by {
        if AllWhitespace(s[1..]) {
          forall i | 0 < i < |s| ensures IsWhitespace(s[i]) {
            assert s[i] == s[1..][i - 1];
          }
        }
      }
    }
  }

  /** `TrimEnd` leaves nothing exactly when the string is blank. */
  lemma {:induction false} TrimEndEmptyIff(s: string)
    ensures TrimEnd(s) == [] <==> AllWhitespace(s)
  {
    if s != [] && IsWhitespace(s[|s| - 1]) {
      var p := s[..|s| - 1];
      TrimEndEmptyIff(p);
      assert AllWhitespace(p) ==> AllWhitespace(s) by {
        if AllWhitespace(p) {
          forall i | 0 <= i < |s| - 1 ensures IsWhitespace(s[i]) {
            assert s[i] == p[i];
          }
        }
      }
    }
  }

  /** `s.trim()`. */
  function Trim(s: string): (r: string)
    ensures |r| <= |s|
    ensures r == [] <==> AllWhitespace(s)
    ensures r == [] || (!IsWhitespace(r[0]) && !IsWhitespace(r[|r| - 1]))
  {
    var t := TrimStart(s);
    TrimStartEmptyIff(s);
    TrimEndEmptyIff(t);
    TrimEnd(t)
  }

  /** Trimming a string padded with whitespace on both sides recovers the core. */
  lemma {:induction false} TrimStartPadded(w: string, c: string)
    requires AllWhitespace(w)
    requires c == [] || !IsWhitespace(c[0])
    ensures TrimStart(w + c) == c
  {
    if w != [] {
      assert (w + c)[1..] == w[1..] + c;
      TrimStartPadded(w[1..], c);
    }
  }

  lemma {:induction false} TrimEndPadded(c: string, w: string)
    requires AllWhitespace(w)
    requires c == [] || !IsWhitespace(c[|c| - 1])
    ensures TrimEnd(c + w) == c
  {
    if w != [] {
      assert (c + w)[..|c + w| - 1] == c + w[..|w| - 1];
      TrimEndPadded(c, w[..|w| - 1]);
    }
  }

  /**
   * `Trim` removes exactly the surrounding whitespace: a core that neither starts nor
   * ends with whitespace comes back unchanged from any padding.
   */
  lemma TrimPadded(w1: string, c: string, w2: string)
    requires AllWhitespace(w1) && AllWhitespace(w2)
    requires c == [] || (!IsWhitespace(c[0]) && !IsWhitespace(c[|c| - 1]))
    ensures Trim(w1 + c + w2) == c
  {
    if c == [] {
      assert w1 + c + w2 == w1 + w2;
      assert AllWhitespace(w1 + w2);
    } else {
      assert w1 + c + w2 == w1 + (c + w2);
      TrimStartPadded(w1, c + w2);
      TrimEndPadded(c, w2);
    }
  }

  /** A string that neither starts nor ends with whitespace is its own trim. */
  lemma TrimKeepsCore(s: string)
    requires s == [] || (!IsWhitespace(s[0]) && !IsWhitespace(s[|s| - 1]))
    ensures Trim(s) == s
  {
    if s != [] {
      assert TrimStart(s) == s;
      assert TrimEnd(s) == s;
    }
  }

  lemma TrimIdempotent(s: string)
    ensures Trim(Trim(s)) == Trim(s)
  {
    TrimKeepsCore(Trim(s));
  }

  predicate IsAsciiUpper(c: char) {
    'A' <= c <= 'Z'
  }

  /** Lower-case mapping of one character (ASCII letters only). */
  function LowerChar(c: char): (r: char)
    ensures !IsAsciiUpper(r)
    ensures IsAsciiUpper(c) ==> r as int == c as int + 32
    ensures !IsAsciiUpper(c) ==> r == c
  {
    if IsAsciiUpper(c) then (c as int + 32) as char else c
  }

  /** `s.toLowerCase()`, character by character. */
  function ToLower(s: string): (r: string)
    ensures |r| == |s|
    ensures forall i :: 0 <= i < |s| ==> r[i] == LowerChar(s[i])
  {
    seq(|s|, i requires 0 <= i < |s| => LowerChar(s[i]))
  }

  lemma ToLowerIdempotent(s: string)
    ensures ToLower(ToLower(s)) == ToLower(s)
  {
  }

  lemma ExampleTrimChars()
    ensures AllWhitespace("  ") && AllWhitespace(" \n") && AllWhitespace(" \t ")
    ensures !IsWhitespace('A') && !IsWhitespace('a')
  {
  }

  lemma ExampleTrim()
    ensures Trim("  Asha \n") == "Asha"
  {
    ExampleTrimChars();
    var c := "Asha";
    assert c[0] == 'A' && c[|c| - 1] == 'a';
    TrimPadded("  ", c, " \n");
    assert "  " + c + " \n" == "  Asha \n";
  }

  lemma ExampleTrimBlank()
    ensures Trim(" \t ") == ""
  {
    ExampleTrimChars();
  }
}
