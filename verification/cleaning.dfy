/** `FileHandler.clean`: the text normaliser applied to every transcript before scoring. */
module Cleaning {
  import opened Chars
  import opened Seqs
  import opened Words

  /** The two Unicode tables `clean` consults: per-character `str.lower` and
      NFKD compatibility decomposition. Both are data of the Unicode standard,
      so the model takes them as a parameter. */
  datatype UnicodeTables = UnicodeTables(lower: char -> string, nfkd: char -> string)

  /** What the Unicode tables are known to do on ASCII: lower-casing changes only
      A-Z, and every ASCII character is its own decomposition. */
  ghost predicate AgreesOnAscii(u: UnicodeTables) {
    && (forall c :: IsAscii(c) ==> u.lower(c) == [AsciiLower(c)])
    && (forall c :: IsAscii(c) ==> u.nfkd(c) == [c])
  }

  /** Lower-case, decompose, and keep only the ASCII characters. */
  function Prepared(u: UnicodeTables, text: string): string
  {
    Filter(IsAscii, FlatMap(u.nfkd, FlatMap(u.lower, text)))
  }

  /** Delete every character that is neither a word character nor whitespace. */
  function KeepWordAndSpace(s: string): string
  {
    Filter(IsWordOrSpace, s)
  }

  /** `r` is `s` with every whitespace run collapsed: its whitespace is single
      `' '` characters, it is empty exactly when `s` is, it starts with
      whitespace exactly when `s` does, it ends with whitespace exactly when `s`
      does, and everything else comes from `s`. */
  ghost predicate RunsCollapsed(r: string, s: string) {
    && (forall i :: 0 <= i < |r| && IsSpace(r[i]) ==> r[i] == ' ')
    && (forall i, j :: 0 <= i < j < |r| && j == i + 1 ==> !(r[i] == ' ' && r[j] == ' '))
    && (|s| == 0 ==> |r| == 0)
    && (|s| > 0 ==> |r| > 0 && (IsSpace(r[0]) <==> IsSpace(s[0])))
    && (|s| > 0 ==> |r| > 0 && (IsSpace(r[|r| - 1]) <==> IsSpace(s[|s| - 1])))
    && (forall i :: 0 <= i < |r| ==> r[i] == ' ' || r[i] in s)
  }

  /** One space in place of a leading whitespace run keeps the runs collapsed. */
  lemma CollapseSpaceStep(s: string, a: nat, c: string)
    requires 0 < a <= |s|
    requires forall i :: 0 <= i < a ==> IsSpace(s[i])
    requires a < |s| ==> !IsSpace(s[a])
    requires RunsCollapsed(c, s[a..])
    ensures RunsCollapsed([' '] + c, s)
  {
    var r := [' '] + c;
    assert forall i :: 0 < i < |r| ==> r[i] == c[i - 1];
    assert forall x :: x in s[a..] ==> x in s;
  }

  /** A leading word kept as it is keeps the runs collapsed. */
  lemma CollapseWordStep(s: string, k: nat, c: string)
    requires 0 < k <= |s|
    requires forall i :: 0 <= i < k ==> !IsSpace(s[i])
    requires k < |s| ==> IsSpace(s[k])
    requires RunsCollapsed(c, s[k..])
    ensures RunsCollapsed(s[..k] + c, s)
  {
    var r := s[..k] + c;
    assert forall i :: 0 <= i < k ==> r[i] == s[i];
    assert forall i :: k <= i < |r| ==> r[i] == c[i - k];
    assert forall x :: x in s[k..] ==> x in s;
  }

  /** Replace every maximal whitespace run by one `' '`. */
  function CollapseRuns(s: string): (r: string)
    ensures RunsCollapsed(r, s)
    decreases |s|
  {
    if |s| == 0 then []
    else if IsSpace(s[0]) then
      var a := SpaceLen(s);
      var c := CollapseRuns(s[a..]);
      CollapseSpaceStep(s, a, c);
      [' '] + c
    else
      var k := WordLen(s);
      var c := CollapseRuns(s[k..]);
      CollapseWordStep(s, k, c);
      s[..k] + c
  }

  /** `str.strip()`: drop leading and trailing whitespace. */
  function Strip(s: string): (r: string)
    ensures |r| > 0 ==> !IsSpace(r[0]) && !IsSpace(r[|r| - 1])
    ensures forall i :: 0 <= i < |r| ==> r[i] in s
  {
    var a := SpaceLen(s);
    if a == |s| then []
    else
      assert !IsSpace(s[a]);
      assert TrailLen(s) < |s| - a;
      s[a..|s| - TrailLen(s)]
  }

  /** `str.replace(pat, rep)`: every non-overlapping occurrence, left to right. */
  function Replace(s: string, pat: string, rep: string): (r: string)
    ensures |pat| > 0 && |rep| <= |pat| ==> |r| <= |s|
    ensures |pat| > 0 && |rep| == |pat| ==> |r| == |s|
    decreases |s|
  {
    if |pat| == 0 then
      (if |s| == 0 then rep else rep + [s[0]] + Replace(s[1..], pat, rep))
    else if |s| < |pat| then s
    else if s[..|pat|] == pat then rep + Replace(s[|pat|..], pat, rep)
    else [s[0]] + Replace(s[1..], pat, rep)
  }

  /** The mis-decoded en dash (UTF-8 bytes read as Windows-1252) the source
      replaces by `-`. */
  const EnDashMojibake: string := "\U{E2}\U{20AC}\U{201C}"

  /** Everything `clean` does after the ASCII fold. */
  function Tidy(s: string): string
  {
    var spaced := Strip(CollapseRuns(KeepWordAndSpace(s)));
    Replace(Replace(spaced, "'", "'"), EnDashMojibake, "-")
  }

  // ---------------------------------------------------------------- lemmas

  /** Replacing a pattern by itself changes nothing. */
  lemma {:induction false} ReplaceWithItself(s: string, pat: string)
    ensures Replace(s, pat, pat) == s
    decreases |s|
  {
    if |pat| == 0 {
      if |s| > 0 {
        ReplaceWithItself(s[1..], pat);
        assert pat + [s[0]] + s[1..] == s;
      }
    } else if |s| < |pat| {
    } else if s[..|pat|] == pat {
      ReplaceWithItself(s[|pat|..], pat);
      assert s[..|pat|] + s[|pat|..] == s;
    } else {
      ReplaceWithItself(s[1..], pat);
      assert [s[0]] + s[1..] == s;
    }
  }

  /** A pattern whose first character never occurs is never replaced. */
  lemma {:induction false} ReplaceAbsent(s: string, pat: string, rep: string)
    requires |pat| > 0 && pat[0] !in s
    ensures Replace(s, pat, rep) == s
    decreases |s|
  {
    if |s| >= |pat| {
      assert s[..|pat|][0] == s[0];
      assert s[..|pat|] != pat;
      assert forall x :: x in s[1..] ==> x in s;
      ReplaceAbsent(s[1..], pat, rep);
      assert [s[0]] + s[1..] == s;
    }
  }

  lemma FilterOfSpace(p: char -> bool, c: char, x: string)
    requires !p(c)
    ensures Filter(p, [c] + x) == Filter(p, x)
  {
    assert ([c] + x)[1..] == x;
  }

  /** A whitespace prefix contributes no non-space characters. */
  lemma DropSpacePrefix(s: string, a: nat, c: string)
    requires a <= |s|
    requires forall i :: 0 <= i < a ==> IsSpace(s[i])
    requires Filter(IsNonSpace, c) == Filter(IsNonSpace, s[a..])
    ensures Filter(IsNonSpace, [' '] + c) == Filter(IsNonSpace, s)
  {
    FilterOfSpace(IsNonSpace, ' ', c);
    assert s == s[..a] + s[a..];
    FilterAppend(IsNonSpace, s[..a], s[a..]);
    FilterDropsAll(IsNonSpace, s[..a]);
  }

  /** A prefix without whitespace contributes all its characters. */
  lemma KeepWordPrefix(s: string, k: nat, c: string)
    requires k <= |s|
    requires forall i :: 0 <= i < k ==> !IsSpace(s[i])
    requires Filter(IsNonSpace, c) == Filter(IsNonSpace, s[k..])
    ensures Filter(IsNonSpace, s[..k] + c) == Filter(IsNonSpace, s)
  {
    FilterAppend(IsNonSpace, s[..k], c);
    assert s == s[..k] + s[k..];
    FilterAppend(IsNonSpace, s[..k], s[k..]);
    FilterKeepsAll(IsNonSpace, s[..k]);
  }

  /** Collapsing whitespace runs keeps the non-space characters in order. */
  lemma {:induction false} CollapseRunsNonSpace(s: string)
    ensures Filter(IsNonSpace, CollapseRuns(s)) == Filter(IsNonSpace, s)
    decreases |s|
  {
    if |s| > 0 {
      if IsSpace(s[0]) {
        var a := SpaceLen(s);
        CollapseRunsNonSpace(s[a..]);
        DropSpacePrefix(s, a, CollapseRuns(s[a..]));
      } else {
        var k := WordLen(s);
        CollapseRunsNonSpace(s[k..]);
        KeepWordPrefix(s, k, CollapseRuns(s[k..]));
      }
    }
  }

  /** One space in place of a whitespace prefix does not change the words. */
  lemma SplitSpacePrefix(s: string, a: nat, c: string)
    requires a <= |s|
    requires forall i :: 0 <= i < a ==> IsSpace(s[i])
    requires Split(c) == Split(s[a..])
    ensures Split([' '] + c) == Split(s)
  {
    SplitSkipsSpace(' ', c);
    assert s == s[..a] + s[a..];
    SplitIgnoresLeadingSpaces(s[..a], s[a..]);
  }

  /** A leading word followed by text with the same words and the same
      leading whitespace-ness does not change the words. */
  lemma SplitWordPrefix(s: string, k: nat, c: string)
    requires 0 < k <= |s|
    requires forall i :: 0 <= i < k ==> !IsSpace(s[i])
    requires k < |s| ==> IsSpace(s[k])
    requires |c| == 0 || IsSpace(c[0])
    requires Split(c) == Split(s[k..])
    ensures Split(s[..k] + c) == Split(s)
  {
    var w, t := s[..k], s[k..];
    assert s == w + t;
    assert IsWord(w);
    assert Split(w + c) == [w] + Split(c) by {
      SplitWordThen(w, c);
    }
    assert Split(w + t) == [w] + Split(t) by {
      SplitWordThen(w, t);
    }
  }

  /** Collapsing whitespace runs does not move any word boundary. */
  lemma {:induction false} CollapseRunsSplit(s: string)
    ensures Split(CollapseRuns(s)) == Split(s)
    decreases |s|
  {
    if |s| > 0 {
      if IsSpace(s[0]) {
        var a := SpaceLen(s);
        CollapseRunsSplit(s[a..]);
        SplitSpacePrefix(s, a, CollapseRuns(s[a..]));
      } else {
        var k := WordLen(s);
        CollapseRunsSplit(s[k..]);
        SplitWordPrefix(s, k, CollapseRuns(s[k..]));
      }
    }
  }

  /** `Strip` cuts `s` into leading whitespace, the kept middle and trailing whitespace. */
  lemma StripParts(s: string) returns (a: nat, b: nat)
    ensures a <= b <= |s| && Strip(s) == s[a..b]
    ensures forall i :: 0 <= i < a ==> IsSpace(s[i])
    ensures forall i :: b <= i < |s| ==> IsSpace(s[i])
  {
    a := SpaceLen(s);
    if a == |s| {
      b := a;
    } else {
      b := |s| - TrailLen(s);
    }
  }

  /** Whitespace around `m` contributes no non-space characters. */
  lemma FilterAroundSpaces(x: string, m: string, y: string)
    requires forall i :: 0 <= i < |x| ==> IsSpace(x[i])
    requires forall i :: 0 <= i < |y| ==> IsSpace(y[i])
    ensures Filter(IsNonSpace, x + m + y) == Filter(IsNonSpace, m)
  {
    ConcatAssoc(x, m, y);
    FilterAppend(IsNonSpace, x, m + y);
    FilterAppend(IsNonSpace, m, y);
    FilterDropsAll(IsNonSpace, x);
    FilterDropsAll(IsNonSpace, y);
  }

  /** Whitespace around `m` does not change its words. */
  lemma SplitAroundSpaces(x: string, m: string, y: string)
    requires forall i :: 0 <= i < |x| ==> IsSpace(x[i])
    requires forall i :: 0 <= i < |y| ==> IsSpace(y[i])
    ensures Split(x + m + y) == Split(m)
  {
    ConcatAssoc(x, m, y);
    SplitIgnoresLeadingSpaces(x, m + y);
    SplitIgnoresTrailingSpaces(m, y);
  }

  /** Stripping keeps the non-space characters in order. */
  lemma StripNonSpace(s: string)
    ensures Filter(IsNonSpace, Strip(s)) == Filter(IsNonSpace, s)
  {
    var a, b := StripParts(s);
    ThreeSlices(s, a, b);
    FilterAroundSpaces(s[..a], s[a..b], s[b..]);
  }

  /** Stripping does not change the words. */
  lemma StripSplit(s: string)
    ensures Split(Strip(s)) == Split(s)
  {
    var a, b := StripParts(s);
    ThreeSlices(s, a, b);
    SplitAroundSpaces(s[..a], s[a..b], s[b..]);
  }

  /** Stripping text whose whitespace is single plain spaces leaves it evenly spaced. */
  lemma StripSpaced(s: string)
    requires forall i :: 0 <= i < |s| && IsSpace(s[i]) ==> s[i] == ' '
    requires forall i, j :: 0 <= i < j < |s| && j == i + 1 ==> !(s[i] == ' ' && s[j] == ' ')
    ensures IsSpaced(Strip(s))
  {
    var a := SpaceLen(s);
    if a < |s| {
      var r := Strip(s);
      assert forall i :: 0 <= i < |r| ==> r[i] == s[a + i];
    }
  }

  /** Keeping word characters and whitespace, then dropping the whitespace,
      keeps exactly the word characters. */
  lemma {:induction false} KeepThenNonSpace(s: string)
    ensures Filter(IsNonSpace, KeepWordAndSpace(s)) == Filter(IsWordChar, s)
    decreases |s|
  {
    if |s| > 0 {
      WordCharFacts(s[0]);
      KeepThenNonSpace(s[1..]);
    }
  }

  lemma SpacedAlphabet(t: string, c: string, k: string)
    requires IsSpaced(t)
    requires forall x :: x in t ==> x in c
    requires forall x :: x in c ==> x == ' ' || x in k
    requires forall x :: x in k ==> IsWordOrSpace(x)
    ensures forall i :: 0 <= i < |t| ==> IsWordChar(t[i]) || t[i] == ' '
  {
    forall i | 0 <= i < |t|
      ensures IsWordChar(t[i]) || t[i] == ' '
    {
      assert t[i] in t;
    }
  }

  /** The whitespace steps: collapse and strip give the words of the kept
      text joined by single spaces, over word characters plus `' '`. */
  lemma SpacingFacts(s: string)
    ensures Strip(CollapseRuns(KeepWordAndSpace(s))) == Join(Split(KeepWordAndSpace(s)))
    ensures IsSpaced(Strip(CollapseRuns(KeepWordAndSpace(s))))
    ensures forall x :: x in Strip(CollapseRuns(KeepWordAndSpace(s))) ==>
      (IsWordChar(x) || x == ' ') && (x == ' ' || x in s)
  {
    var k := KeepWordAndSpace(s);
    var c := CollapseRuns(k);
    var t := Strip(c);
    StripSpaced(c);
    StripSplit(c);
    CollapseRunsSplit(k);
    JoinSplit(t);
    FilterFromInput(IsWordOrSpace, s);
    assert forall x :: x in k ==> IsWordOrSpace(x) && x in s;
    assert forall x :: x in c ==> x == ' ' || x in k;
    assert forall x :: x in t ==> x in c;
    SpacedAlphabet(t, c, k);
  }

  /** What the steps after the ASCII fold produce. */
  lemma TidyFacts(s: string)
    ensures Tidy(s) == Join(Split(KeepWordAndSpace(s)))
    ensures IsSpaced(Tidy(s))
    ensures forall i :: 0 <= i < |Tidy(s)| ==> IsWordChar(Tidy(s)[i]) || Tidy(s)[i] == ' '
    ensures forall i :: 0 <= i < |Tidy(s)| ==> Tidy(s)[i] == ' ' || Tidy(s)[i] in s
    ensures Filter(IsNonSpace, Tidy(s)) == Filter(IsWordChar, s)
  {
    var k := KeepWordAndSpace(s);
    var c := CollapseRuns(k);
    var t := Strip(c);
    SpacingFacts(s);
    ReplaceWithItself(t, "'");
    assert EnDashMojibake[0] == '\U{E2}';
    assert !IsWordChar('\U{E2}');
    ReplaceAbsent(t, EnDashMojibake, "-");
    assert Tidy(s) == t;
    StripNonSpace(c);
    CollapseRunsNonSpace(k);
    KeepThenNonSpace(s);
    forall i | 0 <= i < |t|
      ensures (IsWordChar(t[i]) || t[i] == ' ') && (t[i] == ' ' || t[i] in s)
    {
      assert t[i] in t;
    }
  }

  /** `FileHandler.clean`. */
  function Clean(u: UnicodeTables, text: string): (r: string)
    ensures |text| == 0 ==> r == []
    ensures IsSpaced(r)
    ensures forall i :: 0 <= i < |r| ==> IsWordChar(r[i]) || r[i] == ' '
    ensures Filter(IsNonSpace, r) == Filter(IsWordChar, Prepared(u, text))
    ensures r == Join(Split(KeepWordAndSpace(Prepared(u, text))))
    ensures forall i :: 0 <= i < |r| ==> r[i] == ' ' || r[i] in Prepared(u, text)
  {
    if |text| == 0 then []
    else
      TidyFacts(Prepared(u, text));
      Tidy(Prepared(u, text))
  }

  /** `str.lower()` on text that is already ASCII. */
  function LowerAscii(s: string): (r: string)
    ensures |r| == |s|
    ensures forall i :: 0 <= i < |s| ==> r[i] == AsciiLower(s[i])
  {
    seq(|s|, i requires 0 <= i < |s| => AsciiLower(s[i]))
  }

  /** Text `clean` can produce from ASCII input: evenly spaced lower-case words. */
  ghost predicate IsNormalText(s: string) {
    && IsSpaced(s)
    && (forall i :: 0 <= i < |s| ==> (IsWordChar(s[i]) || s[i] == ' ') && !IsAsciiUpper(s[i]))
  }

  /** On ASCII text the Unicode steps reduce to ASCII lower-casing. */
  lemma PreparedAscii(u: UnicodeTables, text: string)
    requires AgreesOnAscii(u)
    requires forall i :: 0 <= i < |text| ==> IsAscii(text[i])
    ensures Prepared(u, text) == LowerAscii(text)
  {
    FlatMapSingletons(u.lower, AsciiLower, text);
    var l := FlatMap(u.lower, text);
    assert forall i :: 0 <= i < |l| ==> IsAscii(l[i]);
    FlatMapSingletons(u.nfkd, c => c, l);
    var d := FlatMap(u.nfkd, l);
    assert d == l;
    FilterKeepsAll(IsAscii, l);
    assert l == LowerAscii(text);
  }

  /** For ASCII input the non-space characters of the result are, in order,
      the word characters of the lower-cased input, and none is upper case. */
  lemma CleanAscii(u: UnicodeTables, text: string)
    requires AgreesOnAscii(u)
    requires forall i :: 0 <= i < |text| ==> IsAscii(text[i])
    ensures Filter(IsNonSpace, Clean(u, text)) == Filter(IsWordChar, LowerAscii(text))
    ensures IsNormalText(Clean(u, text))
  {
    PreparedAscii(u, text);
    var r := Clean(u, text);
    forall i | 0 <= i < |r|
      ensures !IsAsciiUpper(r[i])
    {
      if r[i] != ' ' {
        var j :| 0 <= j < |text| && LowerAscii(text)[j] == r[i];
      }
    }
  }

  /** Normal text is a fixed point of `clean`. */
  lemma CleanFixesNormalText(u: UnicodeTables, s: string)
    requires AgreesOnAscii(u)
    requires IsNormalText(s)
    ensures Clean(u, s) == s
  {
    if |s| > 0 {
      forall i | 0 <= i < |s|
        ensures IsAscii(s[i])
      {
        WordCharFacts(s[i]);
      }
      PreparedAscii(u, s);
      assert LowerAscii(s) == s;
      forall i | 0 <= i < |s|
        ensures IsWordOrSpace(s[i])
      {
        WordCharFacts(s[i]);
      }
      FilterKeepsAll(IsWordOrSpace, s);
      JoinSplit(s);
    }
  }

  /** On ASCII input, cleaning twice is cleaning once. */
  lemma CleanIdempotentOnAscii(u: UnicodeTables, text: string)
    requires AgreesOnAscii(u)
    requires forall i :: 0 <= i < |text| ==> IsAscii(text[i])
    ensures Clean(u, Clean(u, text)) == Clean(u, text)
  {
    CleanAscii(u, text);
    CleanFixesNormalText(u, Clean(u, text));
  }

  lemma FilterHeadKept(p: char -> bool, s: string)
    requires |s| > 0 && p(s[0])
    ensures |Filter(p, s)| > 0
  {
  }

  /** ASCII input without a single word character cleans to the empty string. */
  lemma CleanWithoutWordChars(u: UnicodeTables, text: string)
    requires AgreesOnAscii(u)
    requires forall i :: 0 <= i < |text| ==> IsAscii(text[i]) && !IsWordChar(text[i])
    ensures Clean(u, text) == []
  {
    PreparedAscii(u, text);
    var l := LowerAscii(text);
    forall i | 0 <= i < |l|
      ensures !IsWordChar(l[i])
    {
      WordCharFacts(text[i]);
    }
    FilterDropsAll(IsWordChar, l);
    var r := Clean(u, text);
    if |r| > 0 {
      FilterHeadKept(IsNonSpace, r);
    }
  }

  // ------------------------------------------------ lower-casing after the fold

  /** The steps after the fold introduce no upper-case letter. */
  lemma TidyKeepsLowerCase(l: string)
    requires forall i :: 0 <= i < |l| ==> !IsAsciiUpper(l[i])
    ensures forall i :: 0 <= i < |Tidy(l)| ==> !IsAsciiUpper(Tidy(l)[i])
  {
    TidyFacts(l);
    var t := Tidy(l);
    forall i | 0 <= i < |t|
      ensures !IsAsciiUpper(t[i])
    {
      if t[i] != ' ' {
        var j :| 0 <= j < |l| && l[j] == t[i];
      }
    }
  }

  /** `clean` with `str.lower()` applied again after the ASCII fold, so that
      compatibility capitals (which NFKD turns into A-Z after the first
      lower-casing) end up lower case too. */
  function CleanLowered(u: UnicodeTables, text: string): (r: string)
    ensures |text| == 0 ==> r == []
    ensures IsNormalText(r)
    ensures Filter(IsNonSpace, r) == Filter(IsWordChar, LowerAscii(Prepared(u, text)))
  {
    if |text| == 0 then []
    else
      var l := LowerAscii(Prepared(u, text));
      TidyFacts(l);
      TidyKeepsLowerCase(l);
      Tidy(l)
  }

  /** Text without capitals is its own ASCII lower-casing. */
  lemma LowerAsciiFixesLower(s: string)
    requires forall i :: 0 <= i < |s| ==> !IsAsciiUpper(s[i])
    ensures LowerAscii(s) == s
  {
  }

  /** Normal text is a fixed point of the lower-casing variant. */
  lemma CleanLoweredFixesNormalText(u: UnicodeTables, s: string)
    requires AgreesOnAscii(u)
    requires IsNormalText(s)
    ensures CleanLowered(u, s) == s
  {
    if |s| > 0 {
      assert Clean(u, s) == s by {
        CleanFixesNormalText(u, s);
      }
      assert Prepared(u, s) == s by {
        forall i | 0 <= i < |s|
          ensures IsAscii(s[i])
        {
          WordCharFacts(s[i]);
        }
        PreparedAscii(u, s);
        LowerAsciiFixesLower(s);
      }
      LowerAsciiFixesLower(s);
      assert CleanLowered(u, s) == Tidy(s);
      assert Clean(u, s) == Tidy(s);
    }
  }

  /** The lower-casing variant is idempotent on every input. */
  lemma CleanLoweredIdempotent(u: UnicodeTables, text: string)
    requires AgreesOnAscii(u)
    ensures CleanLowered(u, CleanLowered(u, text)) == CleanLowered(u, text)
  {
    CleanLoweredFixesNormalText(u, CleanLowered(u, text));
  }

  /** On ASCII input the variant and `clean` agree. */
  lemma CleanLoweredMatchesCleanOnAscii(u: UnicodeTables, text: string)
    requires AgreesOnAscii(u)
    requires forall i :: 0 <= i < |text| ==> IsAscii(text[i])
    ensures CleanLowered(u, text) == Clean(u, text)
  {
    if |text| > 0 {
      PreparedAscii(u, text);
      var l := LowerAscii(text);
      assert LowerAscii(l) == l;
    }
  }

  /** A lone word character passes the steps after the fold unchanged. */
  lemma TidyOfWordChar(c: char)
    requires IsWordChar(c)
    ensures Tidy([c]) == [c]
  {
    WordCharFacts(c);
    TidyFacts([c]);
    assert KeepWordAndSpace([c]) == [c];
    SplitJoin([[c]]);
  }

  /** Input that folds to a single word character cleans to that character,
      and the variant lower-cases it. */
  lemma CleanSingleWordChar(u: UnicodeTables, text: string, c: char)
    requires |text| > 0 && Prepared(u, text) == [c] && IsWordChar(c)
    ensures Clean(u, text) == [c]
    ensures CleanLowered(u, text) == [AsciiLower(c)]
  {
    WordCharFacts(c);
    var d := AsciiLower(c);
    WordCharFacts(d);
    assert LowerAscii([c]) == [d];
    assert Clean(u, text) == Tidy([c]);
    assert CleanLowered(u, text) == Tidy([d]);
    TidyOfWordChar(c);
    TidyOfWordChar(d);
  }

  /** U+1D2C MODIFIER LETTER CAPITAL A has no lower-case mapping and decomposes
      to `A` under NFKD. `clean` therefore returns upper-case `A` for it, and a
      second `clean` changes that to `a`. The variant returns `a` at once. */
  lemma CleanKeepsModifierCapital(u: UnicodeTables)
    requires AgreesOnAscii(u)
    requires u.lower('\U{1D2C}') == ['\U{1D2C}']
    requires u.nfkd('\U{1D2C}') == ['A']
    ensures Clean(u, ['\U{1D2C}']) == ['A']
    ensures Clean(u, Clean(u, ['\U{1D2C}'])) == ['a']
    ensures CleanLowered(u, ['\U{1D2C}']) == ['a']
  {
    var text := ['\U{1D2C}'];
    assert FlatMap(u.lower, text) == text;
    assert FlatMap(u.nfkd, text) == ['A'];
    assert Prepared(u, text) == ['A'];
    CleanSingleWordChar(u, text, 'A');
    PreparedAscii(u, ['A']);
    assert LowerAscii(['A']) == ['a'];
    CleanSingleWordChar(u, ['A'], 'a');
  }
}
