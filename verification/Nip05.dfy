/** Turning a display name into the local part of a NIP-05 identifier. Characters are Unicode scalar values;
    lower-casing and what counts as white space are parameters, of which only their effect on the target
    alphabet is assumed. */
module Nip05 {

  predicate IsAlnum(c: char) { 'a' <= c <= 'z' || '0' <= c <= '9' }

  predicate IsSpecial(c: char) { c == '.' || c == '_' || c == '-' }

  predicate InAlphabet(c: char) { IsAlnum(c) || IsSpecial(c) }

  predicate AllIn(s: string, p: char -> bool) {
    forall i | 0 <= i < |s| :: p(s[i])
  }

  datatype Unicode = Unicode(lower: string -> string, isSpace: char -> bool)

  /** Lower-casing keeps strings over the alphabet, and no letter of the alphabet is white space. */
  ghost predicate Sane(u: Unicode) {
    && (forall s: string :: AllIn(s, InAlphabet) ==> u.lower(s) == s)
    && (forall c: char :: InAlphabet(c) ==> !u.isSpace(c))
  }

  // ---------------------------------------------------------------- the replacements

  function DropWhile(s: string, p: char -> bool): (r: string)
    ensures |r| <= |s| && r == s[|s| - |r|..] && (r != "" ==> !p(r[0]))
  {
    if s != "" && p(s[0]) then DropWhile(s[1..], p) else s
  }

  function DropWhileEnd(s: string, p: char -> bool): (r: string)
    ensures |r| <= |s| && r == s[..|r|] && (r != "" ==> !p(r[|r| - 1]))
  {
    if s != "" && p(s[|s| - 1]) then DropWhileEnd(s[..|s| - 1], p) else s
  }

  function TrimBoth(s: string, p: char -> bool): string {
    DropWhileEnd(DropWhile(s, p), p)
  }

  /** Each longest run of white space becomes one hyphen. */
  function Hyphenate(s: string, isSpace: char -> bool): string
    decreases |s|
  {
    if s == "" then ""
    else if isSpace(s[0]) then "-" + Hyphenate(DropWhile(s[1..], isSpace), isSpace)
    else [s[0]] + Hyphenate(s[1..], isSpace)
  }

  function Filter(s: string, p: char -> bool): string {
    if s == "" then "" else (if p(s[0]) then [s[0]] else "") + Filter(s[1..], p)
  }

  /** Each longest run of `c` becomes one `c`. */
  function Collapse(s: string, c: char): string {
    if |s| >= 2 && s[0] == c && s[1] == c then Collapse(s[1..], c)
    else if s == "" then "" else [s[0]] + Collapse(s[1..], c)
  }

  function Tidy(s: string): string {
    TrimBoth(Collapse(Collapse(Collapse(Filter(s, InAlphabet), '-'), '.'), '_'), IsSpecial)
  }

  function Sanitize(u: Unicode, raw: string): string {
    Tidy(Hyphenate(TrimBoth(u.lower(raw), u.isSpace), u.isSpace))
  }

  // ---------------------------------------------------------------- the target form

  predicate NoDouble(s: string, c: char) {
    forall i | 0 < i < |s| :: !(s[i - 1] == c && s[i] == c)
  }

  predicate SolidEnds(s: string) {
    s != "" ==> !IsSpecial(s[0]) && !IsSpecial(s[|s| - 1])
  }

  /** Over the alphabet, no special character doubled, none at either end. */
  predicate Clean(s: string) {
    && AllIn(s, InAlphabet)
    && NoDouble(s, '-') && NoDouble(s, '.') && NoDouble(s, '_')
    && SolidEnds(s)
  }

  lemma {:induction false} FilterIsIn(s: string, p: char -> bool)
    ensures AllIn(Filter(s, p), p)
  {
    if s != "" { FilterIsIn(s[1..], p); }
  }

  lemma {:induction false} FilterKeepsAll(s: string, p: char -> bool)
    requires AllIn(s, p)
    ensures Filter(s, p) == s
  {
    if s != "" { FilterKeepsAll(s[1..], p); }
  }

  lemma {:induction false} CollapseRemovesDoubles(s: string, c: char)
    ensures NoDouble(Collapse(s, c), c)
    ensures s != "" ==> Collapse(s, c) != "" && Collapse(s, c)[0] == s[0]
  {
    if s != "" { CollapseRemovesDoubles(s[1..], c); }
  }

  lemma {:induction false} CollapseKeepsForm(s: string, c: char, d: char, p: char -> bool)
    requires NoDouble(s, d) && AllIn(s, p)
    ensures NoDouble(Collapse(s, c), d) && AllIn(Collapse(s, c), p)
  {
    if s != "" {
      CollapseKeepsForm(s[1..], c, d, p);
      if |s| > 1 {
        CollapseRemovesDoubles(s[1..], c);
        assert !(s[0] == d && s[1] == d);
      }
    }
  }

  lemma {:induction false} CollapseKeepsAll(s: string, c: char)
    requires NoDouble(s, c)
    ensures Collapse(s, c) == s
  {
    if s != "" {
      if |s| > 1 { assert !(s[0] == c && s[1] == c); }
      CollapseKeepsAll(s[1..], c);
    }
  }

  lemma SliceKeepsForm(s: string, i: nat, j: nat, p: char -> bool)
    requires i <= j <= |s| && AllIn(s, p)
    ensures AllIn(s[i..j], p)
    ensures forall c | NoDouble(s, c) :: NoDouble(s[i..j], c)
  {
    forall c | NoDouble(s, c) ensures NoDouble(s[i..j], c) {
      forall k | 0 < k < j - i ensures !(s[i..j][k - 1] == c && s[i..j][k] == c) {
        assert s[i..j][k] == s[i + k] && s[i..j][k - 1] == s[i + k - 1];
      }
    }
  }

  lemma TrimIsASlice(s: string, p: char -> bool) returns (i: nat, j: nat)
    ensures i <= j <= |s| && TrimBoth(s, p) == s[i..j]
    ensures i < j ==> !p(s[i]) && !p(s[j - 1])
    ensures forall k | 0 <= k < i || j <= k < |s| :: p(s[k])
  {
    var t := DropWhile(s, p);
    var r := DropWhileEnd(t, p);
    i := |s| - |t|;
    j := i + |r|;
    assert t == s[i..] && r == t[..|r|];
    DropsOnly(s, p);
    DropsOnlyEnd(t, p);
    forall k | j <= k < |s| ensures p(s[k]) { assert s[k] == t[k - i]; }
  }

  lemma {:induction false} DropsOnly(s: string, p: char -> bool)
    ensures forall k | 0 <= k < |s| - |DropWhile(s, p)| :: p(s[k])
  {
    if s != "" && p(s[0]) {
      DropsOnly(s[1..], p);
      forall k | 0 <= k < |s| - |DropWhile(s, p)| ensures p(s[k]) {
        if k > 0 { assert s[k] == s[1..][k - 1]; }
      }
    }
  }

  lemma {:induction false} DropsOnlyEnd(s: string, p: char -> bool)
    ensures forall k | |DropWhileEnd(s, p)| <= k < |s| :: p(s[k])
  {
    if s != "" && p(s[|s| - 1]) {
      DropsOnlyEnd(s[..|s| - 1], p);
      forall k | |DropWhileEnd(s, p)| <= k < |s| ensures p(s[k]) {
        if k < |s| - 1 { assert s[k] == s[..|s| - 1][k]; }
      }
    }
  }

  /** Whatever is put in, what comes out is clean. */
  lemma TidyIsClean(s: string)
    ensures Clean(Tidy(s))
  {
    hide Collapse, Filter, TrimBoth, NoDouble, AllIn;
    var a := Filter(s, InAlphabet);
    FilterIsIn(s, InAlphabet);
    var b := Collapse(a, '-');
    CollapseRemovesDoubles(a, '-');
    AnyForm(a, b);
    var c := Collapse(b, '.');
    CollapseRemovesDoubles(b, '.');
    CollapseKeepsForm(b, '.', '-', InAlphabet);
    var d := Collapse(c, '_');
    CollapseRemovesDoubles(c, '_');
    CollapseKeepsForm(c, '_', '-', InAlphabet);
    CollapseKeepsForm(c, '_', '.', InAlphabet);
    var i, j := TrimIsASlice(d, IsSpecial);
    SliceKeepsForm(d, i, j, InAlphabet);
  }

  lemma AnyForm(a: string, b: string)
    requires AllIn(a, InAlphabet) && b == Collapse(a, '-')
    ensures AllIn(b, InAlphabet)
  {
    // A character outside the alphabet is never doubled in `a`.
    assert NoDouble(a, ' ');
    CollapseKeepsForm(a, '-', ' ', InAlphabet);
  }

  lemma TidyKeepsClean(s: string)
    requires Clean(s)
    ensures Tidy(s) == s
  {
    FilterKeepsAll(s, InAlphabet);
    CollapseKeepsAll(s, '-');
    CollapseKeepsAll(s, '.');
    CollapseKeepsAll(s, '_');
  }

  // ---------------------------------------------------------------- a projection

  lemma {:induction false} HyphenateKeepsAll(s: string, isSpace: char -> bool)
    requires AllIn(s, c => !isSpace(c))
    ensures Hyphenate(s, isSpace) == s
  {
    if s != "" { HyphenateKeepsAll(s[1..], isSpace); }
  }

  lemma CleanIsFixed(u: Unicode, s: string)
    requires Sane(u) && Clean(s)
    ensures Sanitize(u, s) == s
  {
    assert AllIn(s, c => !u.isSpace(c));
    assert TrimBoth(s, u.isSpace) == s;
    HyphenateKeepsAll(s, u.isSpace);
    TidyKeepsClean(s);
  }

  /** The sanitiser is a projection: applying it again changes nothing, and what it leaves alone are
      exactly the clean strings. */
  lemma SanitizeIsAProjection(u: Unicode, raw: string)
    requires Sane(u)
    ensures Clean(Sanitize(u, raw))
    ensures Sanitize(u, Sanitize(u, raw)) == Sanitize(u, raw)
    ensures Sanitize(u, raw) == raw <==> Clean(raw)
  {
    hide Sane, Clean, Tidy;
    TidyIsClean(Hyphenate(TrimBoth(u.lower(raw), u.isSpace), u.isSpace));
    CleanIsFixed(u, Sanitize(u, raw));
    if Clean(raw) { CleanIsFixed(u, raw); }
  }

  // ---------------------------------------------------------------- what survives

  function Kept(c: char, p: char -> bool): string {
    if p(c) then [c] else ""
  }

  lemma FilterFirst(c: char, s: string, p: char -> bool)
    ensures Filter([c] + s, p) == Kept(c, p) + Filter(s, p)
  {
    assert ([c] + s)[1..] == s;
  }

  lemma FirstOf(s: string, t: string)
    requires s != ""
    ensures s == [s[0]] + s[1..] && s + t == [s[0]] + (s[1..] + t)
  {
  }

  lemma Regroup(a: string, b: string, c: string)
    ensures a + (b + c) == (a + b) + c
  {
  }

  lemma {:induction false} FilterConcat(a: string, b: string, p: char -> bool)
    ensures Filter(a + b, p) == Filter(a, p) + Filter(b, p)
  {
    hide Filter, Kept;
    if a == "" {
      assert a + b == b;
      FilterOfNone(a, p);
    } else {
      FilterConcat(a[1..], b, p);
      FirstOf(a, b);
      FilterFirst(a[0], a[1..] + b, p);
      FilterFirst(a[0], a[1..], p);
      Regroup(Kept(a[0], p), Filter(a[1..], p), Filter(b, p));
    }
  }

  lemma {:induction false} FilterOfNone(s: string, p: char -> bool)
    requires forall k | 0 <= k < |s| :: !p(s[k])
    ensures Filter(s, p) == ""
  {
    if s != "" { FilterOfNone(s[1..], p); }
  }

  lemma TrimKeepsLetters(s: string, p: char -> bool)
    requires forall c :: p(c) ==> !IsAlnum(c)
    ensures Filter(TrimBoth(s, p), IsAlnum) == Filter(s, IsAlnum)
  {
    hide TrimBoth, Filter;
    var i, j := TrimIsASlice(s, p);
    FilterOfNone(s[..i], IsAlnum);
    FilterOfNone(s[j..], IsAlnum);
    assert s == s[..i] + s[i..j] + s[j..];
    FilterConcat(s[..i] + s[i..j], s[j..], IsAlnum);
    FilterConcat(s[..i], s[i..j], IsAlnum);
  }

  lemma {:induction false} DropKeepsLetters(s: string, p: char -> bool)
    requires forall c :: p(c) ==> !IsAlnum(c)
    ensures Filter(DropWhile(s, p), IsAlnum) == Filter(s, IsAlnum)
  {
    if s != "" && p(s[0]) { DropKeepsLetters(s[1..], p); }
  }

  lemma {:induction false} HyphenateKeepsLetters(s: string, isSpace: char -> bool)
    requires forall c :: isSpace(c) ==> !IsAlnum(c)
    ensures Filter(Hyphenate(s, isSpace), IsAlnum) == Filter(s, IsAlnum)
    decreases |s|
  {
    if s != "" {
      if isSpace(s[0]) {
        var r := DropWhile(s[1..], isSpace);
        HyphenateKeepsLetters(r, isSpace);
        DropKeepsLetters(s[1..], isSpace);
        assert ("-" + Hyphenate(r, isSpace))[1..] == Hyphenate(r, isSpace);
      } else {
        HyphenateKeepsLetters(s[1..], isSpace);
      }
    }
  }

  lemma {:induction false} StripKeepsLetters(s: string)
    ensures Filter(Filter(s, InAlphabet), IsAlnum) == Filter(s, IsAlnum)
  {
    if s != "" {
      var rest := Filter(s[1..], InAlphabet);
      StripKeepsLetters(s[1..]);
      if InAlphabet(s[0]) {
        assert Filter(s, InAlphabet) == [s[0]] + rest && ([s[0]] + rest)[1..] == rest;
      } else {
        assert Filter(s, InAlphabet) == rest;
        assert Filter(s, IsAlnum) == Filter(s[1..], IsAlnum);
      }
    }
  }

  lemma {:induction false} CollapseKeepsLetters(s: string, c: char)
    requires !IsAlnum(c)
    ensures Filter(Collapse(s, c), IsAlnum) == Filter(s, IsAlnum)
  {
    if s != "" { CollapseKeepsLetters(s[1..], c); }
  }

  /** Letters and digits are neither lost, added nor reordered: those of the result are those of the
      lower-cased name. */
  lemma LettersSurvive(u: Unicode, raw: string)
    requires Sane(u)
    ensures Filter(Sanitize(u, raw), IsAlnum) == Filter(u.lower(raw), IsAlnum)
  {
    hide TrimBoth, Hyphenate, Collapse, Filter;
    var a := TrimBoth(u.lower(raw), u.isSpace);
    TrimKeepsLetters(u.lower(raw), u.isSpace);
    var b := Hyphenate(a, u.isSpace);
    HyphenateKeepsLetters(a, u.isSpace);
    var c := Filter(b, InAlphabet);
    StripKeepsLetters(b);
    var d := Collapse(c, '-');
    CollapseKeepsLetters(c, '-');
    var e := Collapse(d, '.');
    CollapseKeepsLetters(d, '.');
    CollapseKeepsLetters(e, '_');
    TrimKeepsLetters(Collapse(e, '_'), IsSpecial);
  }

  // ---------------------------------------------------------------- words

  /** The words with the gaps between them. */
  function Spaced(words: seq<string>, gaps: seq<string>): string
    requires |gaps| + 1 == |words|
  {
    if |words| == 1 then words[0] else words[0] + (gaps[0] + Spaced(words[1..], gaps[1..]))
  }

  function Hyphenated(words: seq<string>): string
    requires words != []
  {
    if |words| == 1 then words[0] else words[0] + ("-" + Hyphenated(words[1..]))
  }

  predicate CleanWord(w: string) {
    w != "" && Clean(w)
  }

  lemma {:induction false} HyphenatedIsClean(words: seq<string>)
    requires words != [] && forall i | 0 <= i < |words| :: CleanWord(words[i])
    ensures CleanWord(Hyphenated(words))
  {
    assert CleanWord(words[0]);
    if |words| > 1 {
      HyphenatedIsClean(words[1..]);
      JoinIsClean(words[0], Hyphenated(words[1..]));
    }
  }

  lemma JoinIsClean(a: string, b: string)
    requires CleanWord(a) && CleanWord(b)
    ensures CleanWord(a + ("-" + b))
  {
    var s := a + ("-" + b);
    assert s[0] == a[0] && s[|s| - 1] == b[|b| - 1];
    forall c | c in {'-', '.', '_'} ensures NoDouble(s, c) {
      forall i | 0 < i < |s| ensures !(s[i - 1] == c && s[i] == c) {
        if i < |a| {
          assert s[i - 1] == a[i - 1] && s[i] == a[i];
        } else if i > |a| + 1 {
          assert s[i - 1] == b[i - |a| - 2] && s[i] == b[i - |a| - 1];
        }
      }
    }
  }

  lemma HyphenateFirst(c: char, r: string, isSpace: char -> bool)
    requires !isSpace(c)
    ensures Hyphenate([c] + r, isSpace) == [c] + Hyphenate(r, isSpace)
  {
    assert ([c] + r)[1..] == r;
  }

  lemma {:induction false} HyphenatePastWord(a: string, r: string, isSpace: char -> bool)
    requires AllIn(a, c => !isSpace(c))
    ensures Hyphenate(a + r, isSpace) == a + Hyphenate(r, isSpace)
    decreases |a|
  {
    hide Hyphenate;
    if a == "" {
      assert a + r == r && a + Hyphenate(r, isSpace) == Hyphenate(r, isSpace);
    } else {
      FirstOf(a, r);
      FirstOf(a, Hyphenate(r, isSpace));
      HyphenateFirst(a[0], a[1..] + r, isSpace);
      HyphenatePastWord(a[1..], r, isSpace);
    }
  }

  lemma {:induction false} DropsGap(g: string, r: string, p: char -> bool)
    requires AllIn(g, p) && (r != "" ==> !p(r[0]))
    ensures DropWhile(g + r, p) == r
  {
    if g == "" {
      assert g + r == r;
    } else {
      assert (g + r)[1..] == g[1..] + r;
      DropsGap(g[1..], r, p);
    }
  }

  lemma {:induction false} DropsGapEnd(r: string, g: string, p: char -> bool)
    requires AllIn(g, p) && (r != "" ==> !p(r[|r| - 1]))
    ensures DropWhileEnd(r + g, p) == r
  {
    if g == "" {
      assert r + g == r;
    } else {
      var m := |g| - 1;
      assert (r + g)[..|r + g| - 1] == r + g[..m];
      DropsGapEnd(r, g[..m], p);
    }
  }

  lemma HyphenateGap(g: string, r: string, isSpace: char -> bool)
    requires g != "" && AllIn(g, isSpace) && (r != "" ==> !isSpace(r[0]))
    ensures Hyphenate(g + r, isSpace) == "-" + Hyphenate(r, isSpace)
  {
    assert (g + r)[1..] == g[1..] + r;
    DropsGap(g[1..], r, isSpace);
  }

  lemma WordHasNoSpace(u: Unicode, w: string)
    requires Sane(u) && CleanWord(w)
    ensures AllIn(w, c => !u.isSpace(c))
  {
  }

  lemma {:induction false} HyphenateJoinsWords(u: Unicode, words: seq<string>, gaps: seq<string>)
    requires Sane(u) && |gaps| + 1 == |words|
    requires forall i | 0 <= i < |words| :: CleanWord(words[i])
    requires forall i | 0 <= i < |gaps| :: gaps[i] != "" && AllIn(gaps[i], u.isSpace)
    ensures Hyphenate(Spaced(words, gaps), u.isSpace) == Hyphenated(words)
    ensures var t := Spaced(words, gaps); t != "" && !u.isSpace(t[0]) && !u.isSpace(t[|t| - 1])
    decreases |words|
  {
    hide Hyphenate, Clean, Sane;
    var w := words[0];
    assert CleanWord(w);
    WordHasNoSpace(u, w);
    if |words| == 1 {
      HyphenateKeepsAll(w, u.isSpace);
    } else {
      var r := Spaced(words[1..], gaps[1..]);
      HyphenateJoinsWords(u, words[1..], gaps[1..]);
      assert gaps[0] != "" && AllIn(gaps[0], u.isSpace);
      HyphenateGap(gaps[0], r, u.isSpace);
      HyphenatePastWord(w, gaps[0] + r, u.isSpace);
    }
  }

  /** A name that lower-cases to clean words separated by white space, with any white space around,
      becomes those words joined by single hyphens. */
  lemma WordsAreHyphenated(u: Unicode, raw: string, words: seq<string>, gaps: seq<string>, before: string,
                           after: string)
    requires Sane(u) && |gaps| + 1 == |words|
    requires forall i | 0 <= i < |words| :: CleanWord(words[i])
    requires forall i | 0 <= i < |gaps| :: gaps[i] != "" && AllIn(gaps[i], u.isSpace)
    requires AllIn(before, u.isSpace) && AllIn(after, u.isSpace)
    requires u.lower(raw) == before + (Spaced(words, gaps) + after)
    ensures Sanitize(u, raw) == Hyphenated(words)
  {
    hide Clean, Sane, Hyphenate, Spaced, Tidy, DropWhile, DropWhileEnd;
    var t := Spaced(words, gaps);
    HyphenateJoinsWords(u, words, gaps);
    assert (t + after)[0] == t[0];
    DropsGap(before, t + after, u.isSpace);
    DropsGapEnd(t, after, u.isSpace);
    HyphenatedIsClean(words);
    TidyKeepsClean(Hyphenated(words));
  }

  // ---------------------------------------------------------------- specials and foreign characters

  function Repeat(c: char, n: nat): string { seq(n, _ => c) }

  /** The name lower-cases to something over the alphabet and foreign characters, with no white space. */
  lemma NoSpaceIsTidied(u: Unicode, raw: string)
    requires AllIn(u.lower(raw), c => !u.isSpace(c))
    ensures Sanitize(u, raw) == Tidy(u.lower(raw))
  {
    var s := u.lower(raw);
    assert s != "" ==> !u.isSpace(s[0]) && !u.isSpace(s[|s| - 1]);
    HyphenateKeepsAll(s, u.isSpace);
  }

  lemma {:induction false} CollapsePast(a: string, c: char, s: string)
    requires NoDouble(a, c) && (a != "" ==> a[|a| - 1] != c)
    ensures Collapse(a + s, c) == a + Collapse(s, c)
  {
    if a == "" {
      assert a + s == s;
    } else {
      assert (a + s)[1..] == a[1..] + s && (a + s)[0] == a[0];
      if |a| > 1 { assert !(a[0] == c && a[1] == c) && (a + s)[1] == a[1]; }
      assert a[1..] != "" ==> a[1..][|a| - 2] == a[|a| - 1];
      CollapsePast(a[1..], c, s);
      assert a == [a[0]] + a[1..];
    }
  }

  lemma {:induction false} CollapseRun(c: char, n: nat, s: string)
    requires n > 0 && (s != "" ==> s[0] != c)
    ensures Collapse(Repeat(c, n) + s, c) == [c] + Collapse(s, c)
  {
    var t := Repeat(c, n) + s;
    if n > 1 {
      assert t[0] == c && t[1] == c && t[1..] == Repeat(c, n - 1) + s;
      CollapseRun(c, n - 1, s);
    } else {
      assert t == [c] + s && t[1..] == s;
    }
  }

  /** A run of one special character between two clean words becomes one such character. */
  lemma RunsCollapse(u: Unicode, raw: string, a: string, c: char, n: nat, b: string)
    requires Sane(u) && CleanWord(a) && CleanWord(b) && IsSpecial(c) && n > 0
    requires u.lower(raw) == a + (Repeat(c, n) + b)
    ensures Sanitize(u, raw) == a + ([c] + b)
  {
    hide Collapse, TrimBoth, Filter;
    var s, r := a + (Repeat(c, n) + b), a + ([c] + b);
    assert AllIn(s, InAlphabet);
    NoSpaceIsTidied(u, raw);
    FilterKeepsAll(s, InAlphabet);
    JoinWithIsClean(a, c, b);
    CollapsePast(a, c, Repeat(c, n) + b);
    CollapseRun(c, n, b);
    CollapseKeepsAll(b, c);
    forall d | d in {'-', '.', '_'} && d != c ensures NoDouble(s, d) { RunHasNoOther(a, c, n, b, d); }
    OneCollapses(s, r, c);
    SolidIsNotTrimmed(r);
  }

  lemma SolidIsNotTrimmed(r: string)
    requires SolidEnds(r)
    ensures TrimBoth(r, IsSpecial) == r
  {
  }

  lemma RunHasNoOther(a: string, c: char, n: nat, b: string, d: char)
    requires NoDouble(a, d) && NoDouble(b, d) && c != d && n > 0
    ensures NoDouble(a + (Repeat(c, n) + b), d)
  {
    var s := a + (Repeat(c, n) + b);
    forall i | 0 < i < |s| ensures !(s[i - 1] == d && s[i] == d) {
      if i < |a| {
        assert s[i - 1] == a[i - 1] && s[i] == a[i];
      } else if i > |a| + n {
        assert s[i - 1] == b[i - 1 - |a| - n] && s[i] == b[i - |a| - n];
      } else if i < |a| + n {
        assert s[i] == c;
      } else {
        assert s[i - 1] == c;
      }
    }
  }

  /** Collapsing the one special that is doubled is all that the three replacements do. */
  lemma OneCollapses(s: string, r: string, c: char)
    requires Collapse(s, c) == r && IsSpecial(c)
    requires NoDouble(r, '-') && NoDouble(r, '.') && NoDouble(r, '_')
    requires forall d | d in {'-', '.', '_'} && d != c :: NoDouble(s, d)
    ensures Collapse(Collapse(Collapse(s, '-'), '.'), '_') == r
  {
    hide Collapse, NoDouble;
    if c == '-' {
      CollapseKeepsAll(r, '.');
      CollapseKeepsAll(r, '_');
    } else if c == '.' {
      CollapseKeepsAll(s, '-');
      CollapseKeepsAll(r, '_');
    } else {
      CollapseKeepsAll(s, '-');
      CollapseKeepsAll(s, '.');
    }
  }

  lemma JoinWithIsClean(a: string, c: char, b: string)
    requires CleanWord(a) && CleanWord(b) && IsSpecial(c)
    ensures CleanWord(a + ([c] + b))
  {
    var s := a + ([c] + b);
    assert s[0] == a[0] && s[|s| - 1] == b[|b| - 1];
    assert [c] == Repeat(c, 1) && s[|a| - 1] == a[|a| - 1] && s[|a| + 1] == b[0];
    forall d | d in {'-', '.', '_'} ensures NoDouble(s, d) {
      if d != c {
        RunHasNoOther(a, c, 1, b, d);
      } else {
        forall i | 0 < i < |s| ensures !(s[i - 1] == d && s[i] == d) {
          if i < |a| {
            assert s[i - 1] == a[i - 1] && s[i] == a[i];
          } else if i > |a| + 1 {
            assert s[i - 1] == b[i - |a| - 2] && s[i] == b[i - |a| - 1];
          } else {
            assert !IsSpecial(s[|a| - 1]) && !IsSpecial(s[|a| + 1]);
          }
        }
      }
    }
  }

  /** Characters that are neither of the alphabet nor white space disappear without a trace. */
  lemma ForeignCharactersVanish(u: Unicode, raw: string, other: string)
    requires AllIn(u.lower(raw), c => !u.isSpace(c)) && AllIn(u.lower(other), c => !u.isSpace(c))
    requires Filter(u.lower(raw), InAlphabet) == Filter(u.lower(other), InAlphabet)
    ensures Sanitize(u, raw) == Sanitize(u, other)
  {
    NoSpaceIsTidied(u, raw);
    NoSpaceIsTidied(u, other);
  }

  /** Specials at either end are cut off. */
  lemma EndsAreTrimmed(u: Unicode, raw: string, before: string, a: string, after: string)
    requires Sane(u) && CleanWord(a) && AllIn(before, IsSpecial) && AllIn(after, IsSpecial)
    requires u.lower(raw) == before + (a + after)
    requires NoDouble(before + (a + after), '-') && NoDouble(before + (a + after), '.')
             && NoDouble(before + (a + after), '_')
    ensures Sanitize(u, raw) == a
  {
    hide Collapse, Filter, DropWhile, DropWhileEnd;
    var s := before + (a + after);
    assert AllIn(s, InAlphabet);
    NoSpaceIsTidied(u, raw);
    FilterKeepsAll(s, InAlphabet);
    CollapseKeepsAll(s, '-');
    CollapseKeepsAll(s, '.');
    CollapseKeepsAll(s, '_');
    DropsGap(before, a + after, IsSpecial);
    DropsGapEnd(a, after, IsSpecial);
  }
}
