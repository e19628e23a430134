/**
 * The export file name (`sanitizeFilename` and the fallback in `handleDownload`):
 * trim, delete the characters `\ / : * ? " < > |`, turn every whitespace run into
 * one `-`, lower-case; an empty outcome becomes `receipt`.
 */
module Filename {
  import opened Text

  /** The characters deleted from a file name. The period is not among them. */
  predicate IsForbidden(c: char) {
    c == '\\' || c == '/' || c == ':' || c == '*' || c == '?' || c == '"'
    || c == '<' || c == '>' || c == '|'
  }

  /**
   * The class of the pattern `sanitizeFilename` deletes with: backslash, slash, colon,
   * asterisk, question mark, double quote, the angle brackets and the vertical bar.
   */
  const ForbiddenChars: string := "\\/:*?\"<>|"

  /**
   * `IsForbidden` is exactly membership in the pattern's class; no whitespace character
   * and not the period belongs to it.
   */
  lemma ForbiddenListed(c: char)
    ensures IsForbidden(c) <==> c in ForbiddenChars
    ensures IsWhitespace(c) ==> !IsForbidden(c)
    ensures !IsForbidden('.') && !IsForbidden('-')
  {
  }

  predicate NoForbidden(s: string) {
    forall i :: 0 <= i < |s| ==> !IsForbidden(s[i])
  }

  predicate AllForbidden(s: string) {
    forall i :: 0 <= i < |s| ==> IsForbidden(s[i])
  }

  predicate NoWhitespace(s: string) {
    forall i :: 0 <= i < |s| ==> !IsWhitespace(s[i])
  }

  predicate NoAsciiUpper(s: string) {
    forall i :: 0 <= i < |s| ==> !IsAsciiUpper(s[i])
  }

  /** Name used when nothing usable is left of the billed-to name. */
  const FallbackName: string := "receipt"

  /** `replace(/[\\/:*?"<>|]/g, "")`: `s` without its forbidden characters, order kept. */
  function RemoveForbidden(s: string): (r: string)
    ensures |r| <= |s|
    ensures NoForbidden(r)
    ensures r == [] <==> AllForbidden(s)
  {
    if s == [] then []
    else if IsForbidden(s[0]) then RemoveForbidden(s[1..])
    else [s[0]] + RemoveForbidden(s[1..])
  }

  /** `replace(/\s+/g, "-")`: each maximal run of whitespace becomes one hyphen. */
  function CollapseWhitespace(s: string): (r: string)
    ensures |r| <= |s|
    ensures r == [] <==> s == []
    decreases |s|
  {
    if s == [] then []
    else if IsWhitespace(s[0]) then
      var rest := TrimStart(s);
      assert |rest| < |s|;
      "-" + CollapseWhitespace(rest)
    else
      [s[0]] + CollapseWhitespace(s[1..])
  }

  /** After run replacement no whitespace is left. */
  lemma {:induction false} CollapseNoWhitespace(s: string)
    ensures NoWhitespace(CollapseWhitespace(s))
    decreases |s|
  {
    if s != [] {
      if IsWhitespace(s[0]) {
        var rest := TrimStart(s);
        CollapseNoWhitespace(rest);
        var c := CollapseWhitespace(rest);
        assert CollapseWhitespace(s) == "-" + c;
        forall i | 0 <= i < |"-" + c| ensures !IsWhitespace(("-" + c)[i]) {
          if i > 0 {
            assert ("-" + c)[i] == c[i - 1];
          }
        }
      } else {
        CollapseNoWhitespace(s[1..]);
        var c := CollapseWhitespace(s[1..]);
        assert CollapseWhitespace(s) == [s[0]] + c;
        forall i | 0 <= i < |[s[0]] + c| ensures !IsWhitespace(([s[0]] + c)[i]) {
          if i > 0 {
            assert ([s[0]] + c)[i] == c[i - 1];
          }
        }
      }
    }
  }

  /** The run replacement introduces no forbidden character: it only adds hyphens. */
  lemma {:induction false} CollapseKeepsNoForbidden(s: string)
    requires NoForbidden(s)
    ensures NoForbidden(CollapseWhitespace(s))
    decreases |s|
  {
    if s != [] {
      if IsWhitespace(s[0]) {
        var rest := TrimStart(s);
        forall i | 0 <= i < |rest| ensures !IsForbidden(rest[i]) {
          assert rest[i] == s[|s| - |rest| + i];
        }
        CollapseKeepsNoForbidden(rest);
      } else {
        CollapseKeepsNoForbidden(s[1..]);
      }
    }
  }

  /** Lower-casing turns no character into a forbidden one or into whitespace. */
  lemma ToLowerKeepsClean(s: string)
    requires NoForbidden(s) && NoWhitespace(s)
    ensures NoForbidden(ToLower(s)) && NoWhitespace(ToLower(s)) && NoAsciiUpper(ToLower(s))
  {
    var r := ToLower(s);
    forall i | 0 <= i < |r| ensures !IsForbidden(r[i]) && !IsWhitespace(r[i]) {
      assert r[i] == LowerChar(s[i]);
    }
  }

  /** The source's `sanitizeFilename`. */
  function Sanitize(s: string): (r: string)
    ensures NoForbidden(r) && NoWhitespace(r) && NoAsciiUpper(r)
    ensures r == [] <==> AllForbidden(Trim(s))
  {
    var kept := RemoveForbidden(Trim(s));
    var collapsed := CollapseWhitespace(kept);
    CollapseKeepsNoForbidden(kept);
    CollapseNoWhitespace(kept);
    ToLowerKeepsClean(collapsed);
    ToLower(collapsed)
  }

  /** A string the four steps all leave alone is its own sanitised form. */
  lemma SanitizeFixedPoint(s: string)
    requires Trim(s) == s && RemoveForbidden(s) == s && CollapseWhitespace(s) == s && ToLower(s) == s
    ensures Sanitize(s) == s
  {
  }

  /** The fallback is a single lower-case word of ordinary characters. */
  lemma FallbackChars()
    ensures FallbackName == "receipt"
    ensures NoWhitespace(FallbackName) && NoForbidden(FallbackName) && NoAsciiUpper(FallbackName)
  {
  }

  lemma FallbackSteps()
    ensures Trim(FallbackName) == FallbackName
    ensures RemoveForbidden(FallbackName) == FallbackName
    ensures CollapseWhitespace(FallbackName) == FallbackName
    ensures ToLower(FallbackName) == FallbackName
  {
    FallbackChars();
    TrimKeepsCore(FallbackName);
    RemoveForbiddenKeepsClean(FallbackName);
    CollapseKeepsWordChars(FallbackName);
    ToLowerKeepsLowerCase(FallbackName);
  }

  /** The fallback name is already a sanitised name. */
  lemma SanitizeFallback()
    ensures Sanitize(FallbackName) == FallbackName
  {
    FallbackSteps();
    SanitizeFixedPoint(FallbackName);
  }

  /** The document title given to the printed receipt, from the raw billed-to field. */
  function ExportName(billedTo: string): (r: string)
    ensures r != []
    ensures NoForbidden(r) && NoWhitespace(r) && NoAsciiUpper(r)
  {
    var name := if Trim(billedTo) == [] then FallbackName else Trim(billedTo);
    SanitizeFallback();
    FallbackChars();
    var safe := Sanitize(name);
    if safe == [] then FallbackName else safe
  }

  // ---------------------------------------------------------------------------
  // Properties

  /** Deletion distributes over concatenation: it removes characters one by one, in place. */
  lemma {:induction false} RemoveForbiddenAppend(a: string, b: string)
    ensures RemoveForbidden(a + b) == RemoveForbidden(a) + RemoveForbidden(b)
  {
    if a == [] {
      assert a + b == b;
    } else {
      assert (a + b)[0] == a[0];
      assert (a + b)[1..] == a[1..] + b;
      RemoveForbiddenAppend(a[1..], b);
      if IsForbidden(a[0]) {
        assert RemoveForbidden(a + b) == RemoveForbidden(a[1..] + b);
      } else {
        assert RemoveForbidden(a + b) == [a[0]] + RemoveForbidden(a[1..] + b);
        assert RemoveForbidden(a) == [a[0]] + RemoveForbidden(a[1..]);
      }
    }
  }

  /** A string without forbidden characters is left as it is. */
  lemma {:induction false} RemoveForbiddenKeepsClean(s: string)
    requires NoForbidden(s)
    ensures RemoveForbidden(s) == s
  {
    if s != [] {
      RemoveForbiddenKeepsClean(s[1..]);
    }
  }

  /** A string without upper-case letters is left as it is by lower-casing. */
  lemma ToLowerKeepsLowerCase(s: string)
    requires NoAsciiUpper(s)
    ensures ToLower(s) == s
  {
    var r := ToLower(s);
    forall i | 0 <= i < |s| ensures r[i] == s[i] {
      assert r[i] == LowerChar(s[i]);
    }
  }

  /** A string without whitespace is left as it is by the run replacement. */
  lemma {:induction false} CollapseKeepsWordChars(s: string)
    requires NoWhitespace(s)
    ensures CollapseWhitespace(s) == s
  {
    if s != [] {
      CollapseKeepsWordChars(s[1..]);
    }
  }

  /** Leading whitespace is stripped the same way whatever follows a string that ends non-blank. */
  lemma {:induction false} TrimStartAppend(a: string, b: string)
    requires a != [] && !IsWhitespace(a[|a| - 1])
    ensures TrimStart(a + b) == TrimStart(a) + b
  {
    assert (a + b)[0] == a[0];
    if IsWhitespace(a[0]) {
      assert (a + b)[1..] == a[1..] + b;
      assert a[1..][|a| - 2] == a[|a| - 1];
      TrimStartAppend(a[1..], b);
    }
  }

  /** Run replacement works piecewise when the split does not fall inside a whitespace run. */
  lemma {:induction false} CollapseAppend(a: string, b: string)
    requires a == [] || !IsWhitespace(a[|a| - 1])
    ensures CollapseWhitespace(a + b) == CollapseWhitespace(a) + CollapseWhitespace(b)
    decreases |a|, 1
  {
    if a == [] {
      assert a + b == b;
    } else if !IsWhitespace(a[0]) {
      var tail := a[1..];
      assert tail == [] || tail[|tail| - 1] == a[|a| - 1];
      assert (a + b)[0] == a[0] && (a + b)[1..] == tail + b;
      CollapseWordStep(a + b);
      CollapseWordStep(a);
      CollapseAppend(tail, b);
      AppendAssoc([a[0]], CollapseWhitespace(tail), CollapseWhitespace(b));
    } else {
      CollapseAppendAfterRun(a, b);
    }
  }

  /** One unfolding of the run replacement at a leading non-blank character. */
  lemma CollapseWordStep(s: string)
    requires s != [] && !IsWhitespace(s[0])
    ensures CollapseWhitespace(s) == [s[0]] + CollapseWhitespace(s[1..])
  {
  }

  /** One unfolding of the run replacement at a leading whitespace run. */
  lemma CollapseRunStep(s: string)
    requires s != [] && IsWhitespace(s[0])
    ensures CollapseWhitespace(s) == "-" + CollapseWhitespace(TrimStart(s))
  {
  }

  lemma AppendAssoc(p: string, x: string, y: string)
    ensures p + (x + y) == (p + x) + y
  {
  }

  /** The case of `CollapseAppend` where `a` opens with a whitespace run. */
  lemma {:induction false} CollapseAppendAfterRun(a: string, b: string)
    requires a != [] && IsWhitespace(a[0]) && !IsWhitespace(a[|a| - 1])
    ensures CollapseWhitespace(a + b) == CollapseWhitespace(a) + CollapseWhitespace(b)
    decreases |a|, 0
  {
    var rest := TrimStart(a);
    TrimStartKeepsLast(a);
    TrimStartAppend(a, b);
    assert (a + b)[0] == a[0];
    CollapseRunStep(a + b);
    CollapseRunStep(a);
    CollapseAppend(rest, b);
    AppendAssoc("-", CollapseWhitespace(rest), CollapseWhitespace(b));
  }

  /** A leading whitespace run becomes one hyphen. */
  lemma CollapseLeadingRun(w: string, b: string)
    requires w != [] && AllWhitespace(w)
    requires b == [] || !IsWhitespace(b[0])
    ensures CollapseWhitespace(w + b) == "-" + CollapseWhitespace(b)
  {
    assert (w + b)[0] == w[0];
    TrimStartPadded(w, b);
  }

  /** One whitespace run between two words becomes exactly one hyphen. */
  lemma CollapseRun(a: string, w: string, b: string)
    requires a == [] || !IsWhitespace(a[|a| - 1])
    requires w != [] && AllWhitespace(w)
    requires b == [] || !IsWhitespace(b[0])
    ensures CollapseWhitespace(a + w + b) == CollapseWhitespace(a) + "-" + CollapseWhitespace(b)
  {
    AppendAssoc(a, w, b);
    CollapseAppend(a, w + b);
    CollapseLeadingRun(w, b);
    AppendAssoc(CollapseWhitespace(a), "-", CollapseWhitespace(b));
  }

  /** Sanitising ignores surrounding whitespace, so sanitising the trimmed name changes nothing. */
  lemma SanitizeTrimmed(s: string)
    ensures Sanitize(Trim(s)) == Sanitize(s)
  {
    TrimIdempotent(s);
  }

  /** Sanitising a sanitised name changes nothing. */
  lemma SanitizeIdempotent(s: string)
    ensures Sanitize(Sanitize(s)) == Sanitize(s)
  {
    CleanNameIsFixed(Sanitize(s));
  }

  /** A name with no forbidden character, no whitespace and no upper-case letter is its own sanitised form. */
  lemma CleanNameIsFixed(r: string)
    requires NoForbidden(r) && NoWhitespace(r) && NoAsciiUpper(r)
    ensures Sanitize(r) == r
  {
    if r != [] {
      assert !IsWhitespace(r[0]) && !IsWhitespace(r[|r| - 1]);
    }
    TrimKeepsCore(r);
    RemoveForbiddenKeepsClean(r);
    CollapseKeepsWordChars(r);
    ToLowerKeepsLowerCase(r);
    SanitizeFixedPoint(r);
  }

  /** The export title is stable: deriving a title from a title gives it back. */
  lemma ExportNameIdempotent(billedTo: string)
    ensures ExportName(ExportName(billedTo)) == ExportName(billedTo)
  {
    var r := ExportName(billedTo);
    CleanNameIsFixed(r);
    assert Trim(r) == r;
  }

  /** The fallback applies exactly when sanitising leaves nothing. */
  lemma ExportNameFallback(billedTo: string)
    ensures ExportName(billedTo) == (if Sanitize(billedTo) == [] then FallbackName else Sanitize(billedTo))
  {
    SanitizeTrimmed(billedTo);
    SanitizeFallback();
    if Trim(billedTo) == [] {
      assert Sanitize(billedTo) == [];
    }
  }

  lemma PeriodExampleTrim() ensures Trim("My Name / Co.") == "My Name / Co." {
    TrimKeepsCore("My Name / Co.");
  }

  /** Deleting a run of forbidden characters between two clean pieces joins the pieces. */
  lemma DeleteBetween(x: string, y: string, z: string)
    requires NoForbidden(x) && AllForbidden(y) && NoForbidden(z)
    ensures RemoveForbidden(x + y + z) == x + z
  {
    calc {
      RemoveForbidden(x + y + z);
      { RemoveForbiddenAppend(x + y, z); }
      RemoveForbidden(x + y) + RemoveForbidden(z);
      { RemoveForbiddenAppend(x, y); }
      RemoveForbidden(x) + RemoveForbidden(y) + RemoveForbidden(z);
      { RemoveForbiddenKeepsClean(x); RemoveForbiddenKeepsClean(z); }
      x + [] + z;
      x + z;
    }
  }

  /** Two whitespace runs between three words become two hyphens. */
  lemma CollapseTwoRuns(x: string, w1: string, y: string, w2: string, z: string)
    requires x != [] && y != [] && z != []
    requires NoWhitespace(x) && NoWhitespace(y) && NoWhitespace(z)
    requires w1 != [] && AllWhitespace(w1) && w2 != [] && AllWhitespace(w2)
    ensures CollapseWhitespace(x + w1 + (y + w2 + z)) == x + "-" + y + "-" + z
  {
    CollapseRun(x, w1, y + w2 + z);
    CollapseRun(y, w2, z);
    CollapseKeepsWordChars(x);
    CollapseKeepsWordChars(y);
    CollapseKeepsWordChars(z);
  }

  lemma PeriodExampleDelete() ensures RemoveForbidden("My Name / Co.") == "My Name  Co." {
    DeleteBetween("My Name ", "/", " Co.");
    assert "My Name " + "/" + " Co." == "My Name / Co.";
    assert "My Name " + " Co." == "My Name  Co.";
  }

  lemma PeriodExampleCollapse() ensures CollapseWhitespace("My Name  Co.") == "My-Name-Co." {
    CollapseTwoRuns("My", " ", "Name", "  ", "Co.");
    assert "My" + " " + ("Name" + "  " + "Co.") == "My Name  Co.";
    assert "My" + "-" + "Name" + "-" + "Co." == "My-Name-Co.";
  }

  lemma PeriodExampleLower() ensures ToLower("My-Name-Co.") == "my-name-co." {
  }

  /** The period survives sanitising: only the slash is deleted. */
  lemma ExampleSanitizeKeepsPeriod()
    ensures Sanitize("My Name / Co.") == "my-name-co."
  {
    PeriodExampleTrim();
    PeriodExampleDelete();
    PeriodExampleCollapse();
    PeriodExampleLower();
  }

  lemma TrailingExampleTrim() ensures Trim("a /") == "a /" {
    TrimKeepsCore("a /");
  }

  lemma TrailingExampleDelete() ensures RemoveForbidden("a /") == "a " {
    RemoveForbiddenAppend("a ", "/");
    RemoveForbiddenKeepsClean("a ");
    assert "a " + "/" == "a /";
  }

  lemma TrailingExampleCollapse() ensures CollapseWhitespace("a ") == "a-" {
    CollapseRun("a", " ", "");
    CollapseKeepsWordChars("a");
    assert "a" + " " + "" == "a ";
  }

  lemma TrailingExampleLower() ensures ToLower("a-") == "a-" {
  }

  /** Trimming happens before deletion, so a space left in front of a deleted slash becomes a hyphen. */
  lemma ExampleTrimBeforeDelete()
    ensures Sanitize("a /") == "a-"
  {
    TrailingExampleTrim();
    TrailingExampleDelete();
    TrailingExampleCollapse();
    TrailingExampleLower();
  }

  lemma OnlyForbiddenChars()
    ensures AllWhitespace(" ") && AllForbidden("<?>")
    ensures !IsWhitespace("<?>"[0]) && !IsWhitespace("<?>"[2])
    ensures " " + "<?>" + " " == " <?> "
  {
  }

  lemma OnlyForbiddenExampleTrim() ensures Trim(" <?> ") == "<?>" {
    OnlyForbiddenChars();
    TrimPadded(" ", "<?>", " ");
  }

  lemma OnlyForbiddenExampleSanitize() ensures Sanitize("<?>") == [] {
    OnlyForbiddenChars();
    TrimKeepsCore("<?>");
  }

  /** A blank name exports as `receipt`. */
  lemma ExampleBlankFallback()
    ensures ExportName("  ") == FallbackName
  {
    SanitizeFallback();
  }

  /** A name made only of deleted characters exports as `receipt`. */
  lemma ExampleForbiddenFallback()
    ensures ExportName(" <?> ") == FallbackName
  {
    OnlyForbiddenExampleTrim();
    OnlyForbiddenExampleSanitize();
  }
}
