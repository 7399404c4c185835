/**
 * `toSlug`, the header normaliser of the catalog importer: accents stripped, lower case, each
 * run of whitespace or '-' turned into one '_', each run of '_' collapsed, every character
 * outside [a-z0-9_] dropped, and '_' trimmed from both ends.
 */
module Slug {
  import opened Text
  import opened Seqs

  /** The accented letters of Spanish and the base letter each decomposes to. */
  const Accented: string := "\U{00E1}\U{00E9}\U{00ED}\U{00F3}\U{00FA}\U{00FC}\U{00F1}\U{00C1}\U{00C9}\U{00CD}\U{00D3}\U{00DA}\U{00DC}\U{00D1}"
  const Unaccented: string := "aeiouunAEIOUUN"

  /**
   * `stripDiacritics` on one character: canonical decomposition splits an accented letter into
   * its base letter and a combining mark, and the mark is removed.
   */
  function StripAccent(c: char): char {
    if c in Accented then Unaccented[IndexOf(Accented, c)] else c
  }

  /** `toLowerCase` on one character. */
  function Lower(c: char): (r: char)
    ensures 'A' <= c <= 'Z' ==> 'a' <= r <= 'z'
    ensures !('A' <= c <= 'Z') ==> r == c
  {
    if 'A' <= c <= 'Z' then (c as int + 32) as char else c
  }

  function Prepare(c: char): char { Lower(StripAccent(c)) }

  /** The characters the first replacement turns into '_': `[\s-]`. */
  predicate IsSep(c: char) { IsWhitespace(c) || c == '-' }

  predicate IsUnderscore(c: char) { c == '_' }

  /** The characters a slug may hold: `[a-z0-9_]`. */
  predicate IsSlugChar(c: char) { 'a' <= c <= 'z' || '0' <= c <= '9' || c == '_' }

  /** `s` without its leading run of `sep` characters: every character dropped is in the class. */
  function DropRun(s: string, sep: char -> bool): (r: string)
    ensures |r| <= |s| && r == s[|s| - |r|..]
    ensures AllIn(s[..|s| - |r|], sep)
    ensures |s| > 0 && sep(s[0]) ==> |r| < |s|
    ensures |r| > 0 ==> !sep(r[0])
  {
    if |s| > 0 && sep(s[0]) then
      var r := DropRun(s[1..], sep);
      RunExtends(s, |s| - 1 - |r|, sep);
      r
    else s
  }

  /** Every character of `t` is in the class. */
  predicate AllIn(t: string, sep: char -> bool) {
    forall i :: 0 <= i < |t| ==> sep(t[i])
  }

  /** A run of the class at the front of the tail, after a first character in the class, is one longer in the whole. */
  lemma RunExtends(s: string, n: nat, sep: char -> bool)
    requires |s| > 0 && sep(s[0]) && n < |s|
    requires AllIn(s[1..][..n], sep)
    ensures AllIn(s[..n + 1], sep)
  {
    assert s[..n + 1] == [s[0]] + s[1..][..n];
  }

  /** The characters a replacement of runs of `sep` by '_' can neither add nor remove. */
  function Kept(sep: char -> bool): char -> bool {
    c => !sep(c) && c != '_'
  }

  /**
   * `replace(/X+/g, "_")` for the character class `sep`. That no character of the class
   * survives is `ReplaceRunsLeavesNoSep`, that the other characters are kept in order is
   * `ReplaceRunsKeeps`, and that each maximal run becomes exactly one '_' is `ReplaceRunsOfRun`
   * with `ReplaceRunsAppend`.
   */
  function ReplaceRuns(s: string, sep: char -> bool): (r: string)
    ensures |r| <= |s|
    ensures forall c :: c in r ==> c == '_' || c in s
    decreases |s|
  {
    if |s| == 0 then ""
    else if sep(s[0]) then "_" + ReplaceRuns(DropRun(s, sep), sep)
    else [s[0]] + ReplaceRuns(s[1..], sep)
  }

  /** Every character of `r` is '_' or outside the class. */
  predicate NoSepLeft(r: string, sep: char -> bool) {
    forall i :: 0 <= i < |r| ==> r[i] == '_' || !sep(r[i])
  }

  /** No character of the class survives the replacement. */
  lemma {:induction false} ReplaceRunsLeavesNoSep(s: string, sep: char -> bool)
    ensures NoSepLeft(ReplaceRuns(s, sep), sep)
    decreases |s|
  {
    if |s| > 0 {
      if sep(s[0]) {
        var rest := ReplaceRuns(DropRun(s, sep), sep);
        ReplaceRunsLeavesNoSep(DropRun(s, sep), sep);
        ReplaceRunsOfSepLed(s, sep);
        PrefixNoSep('_', rest, sep);
      } else {
        var rest := ReplaceRuns(s[1..], sep);
        ReplaceRunsLeavesNoSep(s[1..], sep);
        ReplaceRunsOfKeptLed(s, sep);
        PrefixNoSep(s[0], rest, sep);
      }
    }
  }

  /** '_' or a character outside the class may be put in front. */
  lemma PrefixNoSep(c: char, r: string, sep: char -> bool)
    requires c == '_' || !sep(c)
    requires NoSepLeft(r, sep)
    ensures NoSepLeft([c] + r, sep)
  {
    assert forall i :: 1 <= i < |r| + 1 ==> ([c] + r)[i] == r[i - 1];
  }

  /** Every character outside the class other than '_' is kept, in order. */
  lemma {:induction false} ReplaceRunsKeeps(s: string, sep: char -> bool)
    ensures Filter(ReplaceRuns(s, sep), Kept(sep)) == Filter(s, Kept(sep))
    decreases |s|
  {
    if |s| > 0 {
      if sep(s[0]) {
        var d := DropRun(s, sep);
        var rest := ReplaceRuns(d, sep);
        ReplaceRunsKeeps(d, sep);
        DropRunFilter(s, sep);
        assert ("_" + rest)[1..] == rest;
      } else {
        var rest := ReplaceRuns(s[1..], sep);
        ReplaceRunsKeeps(s[1..], sep);
        assert ([s[0]] + rest)[1..] == rest;
        assert s == [s[0]] + s[1..];
      }
    }
  }

  /** The run `DropRun` removes holds no kept character. */
  lemma DropRunFilter(s: string, sep: char -> bool)
    ensures Filter(DropRun(s, sep), Kept(sep)) == Filter(s, Kept(sep))
  {
    var d := DropRun(s, sep);
    var pre := s[..|s| - |d|];
    assert s == pre + d;
    FilterAppend(pre, d, Kept(sep));
    assert forall c :: c in pre ==> !Kept(sep)(c);
  }

  /** A non-empty run of the class becomes a single '_'. */
  lemma ReplaceRunsOfRun(s: string, sep: char -> bool)
    requires |s| > 0 && AllIn(s, sep)
    ensures ReplaceRuns(s, sep) == "_"
  {
    DropRunWholeRun(s, "", sep);
    assert s + "" == s;
  }

  /** Where a run of the class starts inside `a`, `DropRun` stays inside `a`. */
  lemma {:induction false} DropRunAppend(a: string, b: string, sep: char -> bool)
    requires !AllIn(a, sep)
    ensures DropRun(a + b, sep) == DropRun(a, sep) + b
    decreases |a|
  {
    if sep(a[0]) {
      var i :| 0 <= i < |a| && !sep(a[i]);
      assert a[1..][i - 1] == a[i];
      assert (a + b)[1..] == a[1..] + b;
      DropRunAppend(a[1..], b, sep);
    }
  }

  /** When `a` is one run of the class and `b` does not start one, `DropRun` skips exactly `a`. */
  lemma {:induction false} DropRunWholeRun(a: string, b: string, sep: char -> bool)
    requires AllIn(a, sep)
    requires |b| == 0 || !sep(b[0])
    ensures DropRun(a + b, sep) == b
    decreases |a|
  {
    if |a| > 0 {
      assert (a + b)[1..] == a[1..] + b;
      DropRunWholeRun(a[1..], b, sep);
    } else {
      assert a + b == b;
    }
  }

  /**
   * Cutting between two characters that are not both in the class cuts no run: the replacement
   * of the whole is the replacements of the parts.
   */
  lemma {:induction false} ReplaceRunsAppend(a: string, b: string, sep: char -> bool)
    requires |a| == 0 || |b| == 0 || !sep(a[|a| - 1]) || !sep(b[0])
    ensures ReplaceRuns(a + b, sep) == ReplaceRuns(a, sep) + ReplaceRuns(b, sep)
    decreases |a|
  {
    if |a| == 0 {
      assert a + b == b;
    } else if |b| == 0 {
      assert a + b == a;
    } else if !sep(a[0]) {
      var t := a[1..];
      assert |t| == 0 || t[|t| - 1] == a[|a| - 1];
      ReplaceRunsAppend(t, b, sep);
      ReplaceRunsKeepStep(a, b, sep);
    } else if AllIn(a, sep) {
      ReplaceRunsRunThen(a, b, sep);
    } else {
      var d := DropRun(a, sep);
      DropRunAppend(a, b, sep);
      assert |d| > 0 && d[|d| - 1] == a[|a| - 1];
      ReplaceRunsAppend(d, b, sep);
      ReplaceRunsDropStep(a, b, sep);
    }
  }

  /** The step of `ReplaceRunsAppend` past a first character outside the class. */
  lemma ReplaceRunsKeepStep(a: string, b: string, sep: char -> bool)
    requires |a| > 0 && !sep(a[0])
    requires ReplaceRuns(a[1..] + b, sep) == ReplaceRuns(a[1..], sep) + ReplaceRuns(b, sep)
    ensures ReplaceRuns(a + b, sep) == ReplaceRuns(a, sep) + ReplaceRuns(b, sep)
  {
    var ab := a + b;
    ConcatHeadTail(a, b);
    ReplaceRunsOfKeptLed(ab, sep);
    ReplaceRunsOfKeptLed(a, sep);
    PrependAssoc(a[0], ReplaceRuns(a[1..], sep), ReplaceRuns(b, sep));
  }

  /** The head and tail of a concatenation whose first part is not empty. */
  lemma ConcatHeadTail(a: string, b: string)
    requires |a| > 0
    ensures (a + b)[0] == a[0] && (a + b)[1..] == a[1..] + b
  {
  }

  /** A string that starts outside the class keeps its first character. */
  lemma ReplaceRunsOfKeptLed(s: string, sep: char -> bool)
    requires |s| > 0 && !sep(s[0])
    ensures ReplaceRuns(s, sep) == [s[0]] + ReplaceRuns(s[1..], sep)
  {
  }

  /** The step of `ReplaceRunsAppend` past a leading run that ends inside `a`. */
  lemma ReplaceRunsDropStep(a: string, b: string, sep: char -> bool)
    requires |a| > 0 && sep(a[0])
    requires DropRun(a + b, sep) == DropRun(a, sep) + b
    requires ReplaceRuns(DropRun(a, sep) + b, sep) == ReplaceRuns(DropRun(a, sep), sep) + ReplaceRuns(b, sep)
    ensures ReplaceRuns(a + b, sep) == ReplaceRuns(a, sep) + ReplaceRuns(b, sep)
  {
    var ab := a + b;
    assert ab[0] == a[0];
    ReplaceRunsOfSepLed(ab, sep);
    ReplaceRunsOfSepLed(a, sep);
    PrependAssoc('_', ReplaceRuns(DropRun(a, sep), sep), ReplaceRuns(b, sep));
  }

  /** Regrouping a character in front of a concatenation, stated apart to keep the step small. */
  lemma PrependAssoc(c: char, x: string, y: string)
    ensures [c] + (x + y) == ([c] + x) + y
  {
  }

  /** A string that starts with a character of the class becomes '_' and the rest after the run. */
  lemma ReplaceRunsOfSepLed(s: string, sep: char -> bool)
    requires |s| > 0 && sep(s[0])
    ensures ReplaceRuns(s, sep) == "_" + ReplaceRuns(DropRun(s, sep), sep)
  {
  }

  /** A whole run followed by a non-run: one '_' and then the rest replaced. */
  lemma ReplaceRunsRunThen(a: string, b: string, sep: char -> bool)
    requires |a| > 0 && AllIn(a, sep)
    requires |b| == 0 || !sep(b[0])
    ensures ReplaceRuns(a + b, sep) == ReplaceRuns(a, sep) + ReplaceRuns(b, sep)
  {
    DropRunWholeRun(a, b, sep);
    assert ReplaceRuns(a + b, sep) == "_" + ReplaceRuns(b, sep);
    ReplaceRunsOfRun(a, sep);
  }

  /** `replace(/^_+/, "")`: only '_' is removed, and only from the front. */
  function DropLeading(s: string): (r: string)
    ensures |r| <= |s| && r == s[|s| - |r|..]
    ensures AllIn(s[..|s| - |r|], IsUnderscore)
    ensures |r| > 0 ==> r[0] != '_'
  {
    DropRun(s, IsUnderscore)
  }

  /** `replace(/_+$/, "")`: only '_' is removed, and only from the back. */
  function DropTrailing(s: string): (r: string)
    ensures |r| <= |s| && r == s[..|r|]
    ensures AllIn(s[|r|..], IsUnderscore)
    ensures |r| > 0 ==> r[|r| - 1] != '_'
  {
    if |s| > 0 && s[|s| - 1] == '_' then
      var r := DropTrailing(s[..|s| - 1]);
      assert s[|r|..] == s[..|s| - 1][|r|..] + [s[|s| - 1]];
      r
    else s
  }

  /** Every character is one of [a-z0-9_]. */
  predicate SlugChars(s: string) {
    forall i :: 0 <= i < |s| ==> IsSlugChar(s[i])
  }

  /**
   * The replacements of `toSlug` before the trimming of '_': accents stripped, lower case,
   * separator runs and underscore runs collapsed, other characters dropped.
   */
  function Cleaned(h: string): (k: string)
    ensures SlugChars(k)
  {
    var k := Filter(ReplaceRuns(ReplaceRuns(Map(h, Prepare), IsSep), IsUnderscore), IsSlugChar);
    assert forall i :: 0 <= i < |k| ==> k[i] in k;
    k
  }

  /** A slice of a string of slug characters holds slug characters only. */
  lemma SliceSlugChars(s: string, a: nat, b: nat)
    requires SlugChars(s) && a <= b <= |s|
    ensures SlugChars(s[a..b])
  {
    forall i | 0 <= i < b - a ensures IsSlugChar(s[a..b][i]) {
      assert s[a..b][i] == s[a + i];
    }
  }

  /** The infix `k[a..a + |r|]` is `r` and everything around it is '_'. */
  predicate UnderscoreFramed(k: string, a: nat, r: string) {
    && a + |r| <= |k| && r == k[a..a + |r|]
    && AllIn(k[..a], IsUnderscore)
    && AllIn(k[a + |r|..], IsUnderscore)
  }

  /**
   * '_' trimmed from both ends: the result is the infix of the input that starts after its
   * leading '_', with only '_' after it, and it neither starts nor ends with '_'.
   */
  function TrimUnderscores(k: string): (r: string)
    requires SlugChars(k)
    ensures SlugChars(r)
    ensures |r| > 0 ==> r[0] != '_' && r[|r| - 1] != '_'
    ensures UnderscoreFramed(k, |k| - |DropLeading(k)|, r)
  {
    var lead := DropLeading(k);
    var r := DropTrailing(lead);
    TrimmedIsFramed(k, lead, r);
    SliceSlugChars(k, |k| - |lead|, |k| - |lead| + |r|);
    r
  }

  /** A suffix after '_' only, cut to a prefix before '_' only, sits framed by '_' in the whole. */
  lemma TrimmedIsFramed(k: string, lead: string, r: string)
    requires |lead| <= |k| && lead == k[|k| - |lead|..] && AllIn(k[..|k| - |lead|], IsUnderscore)
    requires |r| <= |lead| && r == lead[..|r|] && AllIn(lead[|r|..], IsUnderscore)
    ensures UnderscoreFramed(k, |k| - |lead|, r)
  {
    var a := |k| - |lead|;
    assert k[a + |r|..] == lead[|r|..];
    assert k[a..a + |r|] == lead[..|r|];
  }

  /**
   * `toSlug`: the result holds only characters of [a-z0-9_] and neither starts nor ends
   * with '_'.
   */
  function ToSlug(h: string): (r: string)
    ensures SlugChars(r)
    ensures |r| > 0 ==> r[0] != '_' && r[|r| - 1] != '_'
  {
    TrimUnderscores(Cleaned(h))
  }

  /** A header already in slug form: slug characters only, no '_' at either end, no "__". */
  predicate IsSlug(s: string) {
    && SlugChars(s)
    && (|s| > 0 ==> s[0] != '_' && s[|s| - 1] != '_')
    && forall i :: 0 <= i < |s| - 1 ==> !(s[i] == '_' && s[i + 1] == '_')
  }

  /** No slug character is accented or upper case. */
  lemma PrepareKeepsSlugChar(c: char)
    requires IsSlugChar(c)
    ensures Prepare(c) == c
  {
    assert c !in Accented;
  }

  lemma {:induction false} PrepareKeepsSlug(s: string)
    requires forall i :: 0 <= i < |s| ==> IsSlugChar(s[i])
    ensures Map(s, Prepare) == s
  {
    forall i | 0 <= i < |s| ensures Map(s, Prepare)[i] == s[i] {
      PrepareKeepsSlugChar(s[i]);
    }
  }

  /** Without a character of the class there is nothing to replace. */
  lemma {:induction false} ReplaceRunsNone(s: string, sep: char -> bool)
    requires forall i :: 0 <= i < |s| ==> !sep(s[i])
    ensures ReplaceRuns(s, sep) == s
    decreases |s|
  {
    if |s| > 0 {
      ReplaceRunsNone(s[1..], sep);
      assert s == [s[0]] + s[1..];
    }
  }

  /** Lone underscores are left as they are by the collapsing replacement. */
  lemma {:induction false} ReplaceRunsSingles(s: string)
    requires forall i :: 0 <= i < |s| - 1 ==> !(s[i] == '_' && s[i + 1] == '_')
    ensures ReplaceRuns(s, IsUnderscore) == s
    decreases |s|
  {
    if |s| > 0 {
      ReplaceRunsSingles(s[1..]);
      if s[0] == '_' {
        assert DropRun(s, IsUnderscore) == s[1..] by {
          if |s| > 1 { assert s[1..][0] == s[1]; }
        }
      }
      assert s == [s[0]] + s[1..];
    }
  }

  /** No slug character is whitespace or '-'. */
  lemma SlugCharNotSep(c: char)
    requires IsSlugChar(c)
    ensures !IsSep(c)
  {
  }

  /** The replacements leave a header already in slug form unchanged. */
  lemma CleanedFixpoint(s: string)
    requires IsSlug(s)
    ensures Cleaned(s) == s
  {
    PrepareKeepsSlug(s);
    forall i | 0 <= i < |s| ensures !IsSep(s[i]) {
      SlugCharNotSep(s[i]);
    }
    ReplaceRunsNone(s, IsSep);
    ReplaceRunsSingles(s);
    FilterKeepsAll(s, IsSlugChar);
  }

  /** Trimming '_' leaves a string without '_' at either end unchanged. */
  lemma TrimUnderscoresFixpoint(s: string)
    requires SlugChars(s) && (|s| > 0 ==> s[0] != '_' && s[|s| - 1] != '_')
    ensures TrimUnderscores(s) == s
  {
    assert DropLeading(s) == s;
    assert DropTrailing(s) == s;
  }

  /** A header already in slug form is its own slug. */
  lemma SlugFixpoint(s: string)
    requires IsSlug(s)
    ensures ToSlug(s) == s
  {
    CleanedFixpoint(s);
    TrimUnderscoresFixpoint(s);
  }
}
