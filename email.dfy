// The e-mail grammar of utils/validate_email.js, a regular expression with
// the `g` and `m` flags and three groups (local part, `@` and domain label,
// top-level labels).
//
// LinePattern states, group by group, which strings the pattern matches
// between a `^` and a `$`; Recognise is an executable recogniser built on
// left-to-right scans, proved to accept exactly those strings; ValidateEmail
// adds the `m` flag (a match may start at any line start and end at any line
// end) and is what the module exports.

module EmailValidation {

  // ---------------------------------------------------------------------
  // Character classes (no `u` flag, so `\w` is ASCII only)
  // ---------------------------------------------------------------------

  /** `\w`: ASCII letters, ASCII digits and underscore. */
  predicate IsWordChar(c: char) {
    ('a' <= c <= 'z') || ('A' <= c <= 'Z') || ('0' <= c <= '9') || c == '_'
  }

  /** `[\w\-_.]`: a word character, a hyphen or a dot. */
  predicate IsLocalChar(c: char) {
    IsWordChar(c) || c == '-' || c == '.'
  }

  /** `[^.\W]`: a character that is neither a dot nor a non-word character. */
  predicate IsFinalChar(c: char) {
    c != '.' && IsWordChar(c)
  }

  /** The line terminators that `^` and `$` recognise under the `m` flag. */
  predicate IsLineTerminator(c: char) {
    c == '\n' || c == '\r' || c == '\U{2028}' || c == '\U{2029}'
  }

  /** `\w+` */
  predicate IsWord(w: string) {
    |w| > 0 && forall i :: 0 <= i < |w| ==> IsWordChar(w[i])
  }

  /** `[\w\-_.]*` */
  predicate AllLocalChars(p: string) {
    forall i :: 0 <= i < |p| ==> IsLocalChar(p[i])
  }

  // ---------------------------------------------------------------------
  // The pattern, group by group
  // ---------------------------------------------------------------------

  /** Group 1, `(?!\.)[\w\-_.]*[^.]`: a run of local characters followed by
      one character that is not a dot (any other character, including `@`,
      a space or a line terminator), the whole not starting with a dot. */
  ghost predicate LocalPattern(l: string) {
    exists p: string, c: char ::
      l == p + [c] && (p + [c])[0] != '.' && AllLocalChars(p) && c != '.'
  }

  /** Group 4, the optional `(\.\w+)?`. */
  ghost predicate OptionalLabel(v: string) {
    v == [] || exists u: string :: v == "." + u && IsWord(u)
  }

  /** Group 3, `\.\w+(\.\w+)?[^.\W]`. */
  ghost predicate TopLevelPattern(t: string) {
    exists w: string, v: string, c: char ::
      t == "." + w + v + [c] && IsWord(w) && OptionalLabel(v) && IsFinalChar(c)
  }

  /** `^(group 1)(@\w+)(group 3)$` over one candidate match. */
  ghost predicate LinePattern(s: string) {
    exists l: string, d: string, t: string ::
      s == l + "@" + d + t && LocalPattern(l) && IsWord(d) && TopLevelPattern(t)
  }

  // ---------------------------------------------------------------------
  // The `m` flag
  // ---------------------------------------------------------------------

  /** `^` under the `m` flag: the start of the input or just after a line terminator. */
  predicate LineStart(s: string, i: nat)
    requires i <= |s|
  {
    i == 0 || IsLineTerminator(s[i - 1])
  }

  /** `$` under the `m` flag: the end of the input or just before a line terminator. */
  predicate LineEnd(s: string, j: nat)
    requires j <= |s|
  {
    j == |s| || IsLineTerminator(s[j])
  }

  /** What `regex.test(email)` answers on a freshly built regex (so the
      search starts at index 0): some substring between a line start and a
      line end matches the pattern. */
  ghost predicate RegexTest(s: string) {
    exists i: nat, j: nat ::
      i <= j <= |s| && LineStart(s, i) && LineEnd(s, j) && LinePattern(s[i..j])
  }

  // ---------------------------------------------------------------------
  // The recogniser
  // ---------------------------------------------------------------------

  /** The end of the longest run of characters of a class starting at i. */
  function Run(s: string, i: nat, inClass: char -> bool): (j: nat)
    requires i <= |s|
    ensures i <= j <= |s|
    ensures forall k :: i <= k < j ==> inClass(s[k])
    ensures j < |s| ==> !inClass(s[j])
    decreases |s| - i
  {
    if i < |s| && inClass(s[i]) then Run(s, i + 1, inClass) else i
  }

  /** Group 1 checked by indices. */
  predicate IsLocalPart(l: string) {
    |l| > 0 && l[0] != '.' && l[|l| - 1] != '.' && AllLocalChars(l[..|l| - 1])
  }

  /** Group 3 checked from index i to the end of s. */
  predicate TopLevelFrom(s: string, i: nat)
    requires i <= |s|
  {
    i < |s| && s[i] == '.' &&
    var m := Run(s, i + 1, IsWordChar);
    m > i + 1 &&
    ((m == |s| && m - (i + 1) >= 2) ||
     (m < |s| && s[m] == '.' && Run(s, m + 1, IsWordChar) == |s| && |s| - (m + 1) >= 2))
  }

  /** Groups 2 and 3 checked from index i, just after the `@`. */
  predicate DomainFrom(s: string, i: nat)
    requires i <= |s|
  {
    var j := Run(s, i, IsWordChar);
    j > i && TopLevelFrom(s, j)
  }

  /** The line splits at an `@` at index k. */
  predicate SplitAt(s: string, k: nat) {
    1 <= k < |s| && s[k] == '@' && IsLocalPart(s[..k]) && DomainFrom(s, k + 1)
  }

  /** The `@` that ends group 1 can only sit at the first character outside
      `[\w\-_.]` (the run ends right at it) or one past it (that character is
      then the `[^.]` of group 1): both places are tried. */
  function Recognise(s: string): bool {
    var f := Run(s, 0, IsLocalChar);
    SplitAt(s, f) || SplitAt(s, f + 1)
  }

  /** utils/validate_email.js `validateEmail`. */
  function ValidateEmail(email: string): bool {
    exists i: nat, j: nat | i <= j <= |email| && LineStart(email, i) && LineEnd(email, j) ::
      Recognise(email[i..j])
  }

  // ---------------------------------------------------------------------
  // The recogniser accepts exactly the pattern
  // ---------------------------------------------------------------------

  /** A run of a class is determined by where the class first fails. */
  lemma {:induction false} RunEndsAt(s: string, i: nat, j: nat, inClass: char -> bool)
    requires i <= j <= |s|
    requires forall k :: i <= k < j ==> inClass(s[k])
    requires j < |s| ==> !inClass(s[j])
    ensures Run(s, i, inClass) == j
    decreases j - i
  {
    if i < j {
      assert inClass(s[i]);
      RunEndsAt(s, i + 1, j, inClass);
    }
  }

  /** Reading the pieces of a concatenation back from a suffix of s. */
  lemma SuffixParts(s: string, i: nat, a: string, b: string)
    requires i <= |s| && s[i..] == a + b
    ensures i + |a| <= |s|
    ensures s[i..i + |a|] == a && s[i + |a|..] == b
    ensures forall k :: i <= k < i + |a| ==> s[k] == a[k - i]
  {
    assert s[i..][..|a|] == a;
    assert s[i..][|a|..] == b;
    forall k | i <= k < i + |a| ensures s[k] == a[k - i] {
      assert s[i..][k - i] == s[k];
    }
  }

  lemma LocalPatternIsLocalPart(l: string)
    ensures LocalPattern(l) <==> IsLocalPart(l)
  {
    if IsLocalPart(l) {
      var p, c := l[..|l| - 1], l[|l| - 1];
      assert l == p + [c];
    }
    if LocalPattern(l) {
      var p: string, c: char :| l == p + [c] && (p + [c])[0] != '.' && AllLocalChars(p) && c != '.';
      assert l[..|l| - 1] == p;
    }
  }

  /** The scan's acceptance of group 3 yields the pattern's witnesses. */
  lemma TopLevelFromSound(s: string, i: nat)
    requires i <= |s| && TopLevelFrom(s, i)
    ensures TopLevelPattern(s[i..])
  {
    var t := s[i..];
    var m := Run(s, i + 1, IsWordChar);
    var c := s[|s| - 1];
    if m == |s| {
      var w := s[i + 1..|s| - 1];
      assert IsWord(w);
      assert t == "." + w + [] + [c];
      assert OptionalLabel([]);
    } else {
      var w, u := s[i + 1..m], s[m + 1..|s| - 1];
      assert IsWord(w);
      assert IsWord(u);
      assert t == "." + w + ("." + u) + [c];
      assert OptionalLabel("." + u);
    }
  }

  /** Group 3 with one label after the dot: `\.\w+[^.\W]`. */
  lemma TopLevelOneLabel(s: string, i: nat, w: string, c: char)
    requires i <= |s| && s[i..] == "." + w + [c] && IsWord(w) && IsFinalChar(c)
    ensures TopLevelFrom(s, i)
  {
    SuffixParts(s, i, ".", w + [c]);
    SuffixParts(s, i + 1, w, [c]);
    RunEndsAt(s, i + 1, |s|, IsWordChar);
  }

  /** Group 3 with two labels after the dot: `\.\w+\.\w+[^.\W]`. */
  lemma TopLevelTwoLabels(s: string, i: nat, w: string, u: string, c: char)
    requires i <= |s| && s[i..] == "." + w + ("." + u) + [c]
    requires IsWord(w) && IsWord(u) && IsFinalChar(c)
    ensures TopLevelFrom(s, i)
  {
    var e := i + 1 + |w|;
    assert s[i..] == "." + (w + ("." + (u + [c])));
    SuffixParts(s, i, ".", w + ("." + (u + [c])));
    SuffixParts(s, i + 1, w, "." + (u + [c]));
    SuffixParts(s, e, ".", u + [c]);
    SuffixParts(s, e + 1, u, [c]);
    RunEndsAt(s, i + 1, e, IsWordChar);
    RunEndsAt(s, e + 1, |s|, IsWordChar);
  }

  /** The pattern's group 3 is accepted by the scan. */
  lemma TopLevelFromComplete(s: string, i: nat)
    requires i <= |s| && TopLevelPattern(s[i..])
    ensures TopLevelFrom(s, i)
  {
    var w: string, v: string, c: char :|
      s[i..] == "." + w + v + [c] && IsWord(w) && OptionalLabel(v) && IsFinalChar(c);
    if v == [] {
      assert s[i..] == "." + w + [c];
      TopLevelOneLabel(s, i, w, c);
    } else {
      var u: string :| v == "." + u && IsWord(u);
      TopLevelTwoLabels(s, i, w, u, c);
    }
  }

  /** A split at k is a decomposition with |l| == k. */
  lemma SplitAtIsPattern(s: string, k: nat)
    requires SplitAt(s, k)
    ensures LinePattern(s)
  {
    var j := Run(s, k + 1, IsWordChar);
    var l, d, t := s[..k], s[k + 1..j], s[j..];
    assert s == l + "@" + d + t;
    LocalPatternIsLocalPart(l);
    assert IsWord(d);
    TopLevelFromSound(s, j);
    assert LocalPattern(l) && IsWord(d) && TopLevelPattern(t);
  }

  /** A decomposition l, d, t gives a split at |l|. */
  lemma DecompositionIsSplit(s: string, l: string, d: string, t: string)
    requires s == l + "@" + d + t && LocalPattern(l) && IsWord(d) && TopLevelPattern(t)
    ensures SplitAt(s, |l|)
    ensures AllLocalChars(s[..|l| - 1]) && !IsLocalChar(s[|l|])
  {
    var k := |l|;
    var j := k + 1 + |d|;
    assert s[0..] == l + ("@" + (d + t));
    SuffixParts(s, 0, l, "@" + (d + t));
    SuffixParts(s, k, "@", d + t);
    SuffixParts(s, k + 1, d, t);
    LocalPatternIsLocalPart(l);
    assert s[j] == '.' by { assert t[0] == '.'; }
    RunEndsAt(s, k + 1, j, IsWordChar);
    TopLevelFromComplete(s, j);
  }

  /** Every decomposition gives a split at the end of the local run or one
      past it. */
  lemma PatternIsSplit(s: string)
    requires LinePattern(s)
    ensures var f := Run(s, 0, IsLocalChar); SplitAt(s, f) || SplitAt(s, f + 1)
  {
    var l: string, d: string, t: string :|
      s == l + "@" + d + t && LocalPattern(l) && IsWord(d) && TopLevelPattern(t);
    DecompositionIsSplit(s, l, d, t);
    var k := |l|;
    forall x | 0 <= x < k - 1 ensures IsLocalChar(s[x]) {
      assert s[..k - 1][x] == s[x];
    }
    if IsLocalChar(s[k - 1]) {
      RunEndsAt(s, 0, k, IsLocalChar);
    } else {
      RunEndsAt(s, 0, k - 1, IsLocalChar);
    }
  }

  /** The recogniser accepts exactly the strings the pattern matches. */
  lemma RecogniseIsPattern(s: string)
    ensures Recognise(s) <==> LinePattern(s)
  {
    var f := Run(s, 0, IsLocalChar);
    if SplitAt(s, f) {
      SplitAtIsPattern(s, f);
    } else if SplitAt(s, f + 1) {
      SplitAtIsPattern(s, f + 1);
    }
    if LinePattern(s) {
      PatternIsSplit(s);
    }
  }

  /** validateEmail answers what `regex.test` answers. */
  lemma ValidateEmailIsRegexTest(email: string)
    ensures ValidateEmail(email) <==> RegexTest(email)
  {
    forall i: nat, j: nat | i <= j <= |email|
      ensures Recognise(email[i..j]) <==> LinePattern(email[i..j])
    {
      RecogniseIsPattern(email[i..j]);
    }
  }

  // ---------------------------------------------------------------------
  // What the grammar accepts
  // ---------------------------------------------------------------------

  predicate IsSingleLine(s: string) {
    forall k :: 0 <= k < |s| ==> !IsLineTerminator(s[k])
  }

  /** On an input without line terminators, `^` and `$` only match at its
      two ends, so validateEmail is the pattern over the whole input. */
  lemma SingleLineIsPattern(s: string)
    requires IsSingleLine(s)
    ensures ValidateEmail(s) <==> Recognise(s)
    ensures ValidateEmail(s) <==> LinePattern(s)
  {
    RecogniseIsPattern(s);
    if ValidateEmail(s) {
      var i: nat, j: nat :| i <= j <= |s| && LineStart(s, i) && LineEnd(s, j) && Recognise(s[i..j]);
      assert i == 0 && j == |s|;
      assert s[i..j] == s;
    }
    if Recognise(s) {
      assert s[0..|s|] == s;
      assert LineStart(s, 0) && LineEnd(s, |s|);
    }
  }

  /** Under the `m` flag one matching line is enough, whatever the line
      before it holds. */
  lemma LaterLineAccepted(first: string, line: string)
    requires LinePattern(line)
    ensures ValidateEmail(first + "\n" + line)
  {
    var s := first + "\n" + line;
    var i := |first| + 1;
    RecogniseIsPattern(line);
    assert s[i - 1] == '\n';
    assert s[i..|s|] == line;
    assert LineStart(s, i) && LineEnd(s, |s|);
  }

  /** The `[^.]` that ends group 1 also matches a line terminator, so a match
      can span two lines. */
  lemma MatchSpansLines()
    ensures ValidateEmail("x\n@bc.de")
  {
    var s := "x\n@bc.de";
    RunEndsAt(s, 0, 1, IsLocalChar);
    RunEndsAt(s, 3, 5, IsWordChar);
    RunEndsAt(s, 6, 8, IsWordChar);
    assert SplitAt(s, 2);
    assert LineStart(s, 0) && LineEnd(s, |s|);
    assert s[0..|s|] == s;
  }

  /** Neither line of that input matches on its own. */
  lemma SpannedLinesRejected()
    ensures !ValidateEmail("x") && !ValidateEmail("@bc.de")
  {
    assert !ValidateEmail("x") by {
      RunEndsAt("x", 0, 1, IsLocalChar);
      SingleLineIsPattern("x");
    }
    assert !ValidateEmail("@bc.de") by {
      RunEndsAt("@bc.de", 0, 0, IsLocalChar);
      SingleLineIsPattern("@bc.de");
    }
  }

  /** Group 1 may not start with a dot. */
  lemma LeadingDotRejected(s: string)
    requires |s| > 0 && s[0] == '.'
    ensures !LinePattern(s)
  {
    forall l: string, d: string, t: string | s == l + "@" + d + t
      ensures !LocalPattern(l)
    {
      LocalPatternIsLocalPart(l);
      assert |l| > 0 ==> l[0] == s[0];
    }
  }

  /** The character just before the `@` may be anything but a dot: a space,
      a second `@`, a hyphen. */
  lemma AnyCharBeforeSeparator(c: char)
    ensures LinePattern("a" + [c] + "@bc.de") <==> c != '.'
  {
    var s := "a" + [c] + "@bc.de";
    if c != '.' {
      var l, d, t := "a" + [c], "bc", ".de";
      assert s == l + "@" + d + t;
      assert LocalPattern(l) by {
        assert IsLocalPart(l);
        LocalPatternIsLocalPart(l);
      }
      assert TopLevelPattern(t) by {
        assert t == "." + "d" + [] + ['e'];
        assert OptionalLabel([]);
      }
      assert IsWord(d);
    } else {
      RunEndsAt(s, 0, 2, IsLocalChar);
      RecogniseIsPattern(s);
    }
  }

  /** Group 3 ends in a label of at least two word characters. */
  lemma TopLevelEndsInTwoWordChars(t: string)
    requires TopLevelPattern(t)
    ensures |t| >= 3 && t[0] == '.'
    ensures IsWordChar(t[|t| - 1]) && IsWordChar(t[|t| - 2])
  {
    var w: string, v: string, c: char :|
      t == "." + w + v + [c] && IsWord(w) && OptionalLabel(v) && IsFinalChar(c);
    if v == [] {
      assert t[|t| - 2] == w[|w| - 1];
    } else {
      var u: string :| v == "." + u && IsWord(u);
      assert t[|t| - 2] == u[|u| - 1];
    }
  }

  /** A word holds no dot. */
  lemma WordHasNoDot(w: string)
    requires IsWord(w)
    ensures multiset(w)['.'] == 0
  {
    assert '.' !in w;
  }

  /** Group 3 holds one or two dots: at most two labels follow the domain
      label. */
  lemma TopLevelDots(t: string)
    requires TopLevelPattern(t)
    ensures multiset(t)['.'] == 1 || multiset(t)['.'] == 2
  {
    var w: string, v: string, c: char :|
      t == "." + w + v + [c] && IsWord(w) && OptionalLabel(v) && IsFinalChar(c);
    WordHasNoDot(w);
    assert multiset(t) == multiset(".") + multiset(w) + multiset(v) + multiset([c]);
    if v != [] {
      var u: string :| v == "." + u && IsWord(u);
      WordHasNoDot(u);
      assert multiset(v) == multiset(".") + multiset(u);
    }
  }

  /** The shortest accepted address has six characters, as in "a@b.cc". */
  lemma ShortestAddress(s: string)
    requires LinePattern(s)
    ensures |s| >= 6
  {
    var l: string, d: string, t: string :|
      s == l + "@" + d + t && LocalPattern(l) && IsWord(d) && TopLevelPattern(t);
    LocalPatternIsLocalPart(l);
    TopLevelEndsInTwoWordChars(t);
  }

  /** Group 1 may not start with a dot. */
  lemma LeadingDotExample()
    ensures !ValidateEmail(".a@bc.de")
  {
    var s := ".a@bc.de";
    RunEndsAt(s, 0, 2, IsLocalChar);
    SingleLineIsPattern(s);
  }

  /** Group 1 may not end with a dot. */
  lemma DotBeforeSeparatorExample()
    ensures !ValidateEmail("a.@bc.de")
  {
    var s := "a.@bc.de";
    RunEndsAt(s, 0, 2, IsLocalChar);
    SingleLineIsPattern(s);
  }

  /** Dots may repeat inside group 1. */
  lemma RepeatedDotsExample()
    ensures ValidateEmail("a..b@cd.ef")
  {
    var s := "a..b@cd.ef";
    RunEndsAt(s, 0, 4, IsLocalChar);
    RunEndsAt(s, 5, 7, IsWordChar);
    RunEndsAt(s, 8, 10, IsWordChar);
    assert SplitAt(s, 4);
    SingleLineIsPattern(s);
  }

  /** The `[^.]` just before the `@` may be a space. */
  lemma SpaceBeforeSeparatorExample()
    ensures ValidateEmail("a @bc.de")
  {
    var s := "a @bc.de";
    RunEndsAt(s, 0, 1, IsLocalChar);
    RunEndsAt(s, 3, 5, IsWordChar);
    RunEndsAt(s, 6, 8, IsWordChar);
    assert SplitAt(s, 2);
    SingleLineIsPattern(s);
  }

  /** The `[^.]` just before the `@` may be a second `@`. */
  lemma DoubleSeparatorExample()
    ensures ValidateEmail("a@@bc.de")
  {
    var s := "a@@bc.de";
    RunEndsAt(s, 0, 1, IsLocalChar);
    RunEndsAt(s, 3, 5, IsWordChar);
    RunEndsAt(s, 6, 8, IsWordChar);
    assert SplitAt(s, 2);
    SingleLineIsPattern(s);
  }

  /** The domain label is word characters only. */
  lemma HyphenInDomainExample()
    ensures !ValidateEmail("a@my-site.com")
  {
    var s := "a@my-site.com";
    RunEndsAt(s, 0, 1, IsLocalChar);
    RunEndsAt(s, 2, 4, IsWordChar);
    SingleLineIsPattern(s);
  }

  /** Two labels may follow the domain label. */
  lemma TwoLabelsExample()
    ensures ValidateEmail("a@b.co.uk")
  {
    var s := "a@b.co.uk";
    RunEndsAt(s, 0, 1, IsLocalChar);
    RunEndsAt(s, 2, 3, IsWordChar);
    RunEndsAt(s, 4, 6, IsWordChar);
    RunEndsAt(s, 7, 9, IsWordChar);
    assert SplitAt(s, 1);
    SingleLineIsPattern(s);
  }

  /** Three labels may not follow the domain label. */
  lemma ThreeLabelsExample()
    ensures !ValidateEmail("a@b.c.d.ef")
  {
    var s := "a@b.c.d.ef";
    RunEndsAt(s, 0, 1, IsLocalChar);
    RunEndsAt(s, 2, 3, IsWordChar);
    RunEndsAt(s, 4, 5, IsWordChar);
    RunEndsAt(s, 6, 7, IsWordChar);
    SingleLineIsPattern(s);
  }

  /** A final label of one character is rejected. */
  lemma ShortFinalLabelExample()
    ensures !ValidateEmail("a@b.c")
  {
    var s := "a@b.c";
    RunEndsAt(s, 0, 1, IsLocalChar);
    RunEndsAt(s, 2, 3, IsWordChar);
    RunEndsAt(s, 4, 5, IsWordChar);
    SingleLineIsPattern(s);
  }

  /** A final label of two characters is accepted. */
  lemma TwoCharFinalLabelExample()
    ensures ValidateEmail("a@b.cc")
  {
    var s := "a@b.cc";
    RunEndsAt(s, 0, 1, IsLocalChar);
    RunEndsAt(s, 2, 3, IsWordChar);
    RunEndsAt(s, 4, 6, IsWordChar);
    assert SplitAt(s, 1);
    SingleLineIsPattern(s);
  }
}
