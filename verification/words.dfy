/** Whitespace runs, `str.split()` with no arguments, and `' '.join(...)`. */
module Words {
  import opened Chars
  import opened Seqs

  /** Length of the leading whitespace run of `s`. */
  function SpaceLen(s: string): (n: nat)
    ensures n <= |s|
    ensures forall i :: 0 <= i < n ==> IsSpace(s[i])
    ensures n < |s| ==> !IsSpace(s[n])
  {
    if |s| > 0 && IsSpace(s[0]) then 1 + SpaceLen(s[1..]) else 0
  }

  /** Length of the leading non-whitespace run of `s`. */
  function WordLen(s: string): (n: nat)
    ensures n <= |s|
    ensures forall i :: 0 <= i < n ==> !IsSpace(s[i])
    ensures n < |s| ==> IsSpace(s[n])
  {
    if |s| > 0 && !IsSpace(s[0]) then 1 + WordLen(s[1..]) else 0
  }

  /** Length of the trailing whitespace run of `s`. */
  function TrailLen(s: string): (n: nat)
    ensures n <= |s|
    ensures forall i :: |s| - n <= i < |s| ==> IsSpace(s[i])
    ensures n < |s| ==> !IsSpace(s[|s| - 1 - n])
  {
    if |s| > 0 && IsSpace(s[|s| - 1]) then 1 + TrailLen(s[..|s| - 1]) else 0
  }

  lemma SpaceLenIs(s: string, n: nat)
    requires n <= |s|
    requires forall i :: 0 <= i < n ==> IsSpace(s[i])
    requires n < |s| ==> !IsSpace(s[n])
    ensures SpaceLen(s) == n
  {
  }

  lemma WordLenIs(s: string, n: nat)
    requires n <= |s|
    requires forall i :: 0 <= i < n ==> !IsSpace(s[i])
    requires n < |s| ==> IsSpace(s[n])
    ensures WordLen(s) == n
  {
  }

  /** A word as `str.split()` returns it: non-empty, no whitespace. */
  predicate IsWord(w: string) {
    |w| > 0 && forall i :: 0 <= i < |w| ==> !IsSpace(w[i])
  }

  /** Text spaced the way `clean` leaves it: the only whitespace is `' '`,
      never two in a row, never at either end. */
  ghost predicate IsSpaced(s: string) {
    && (forall i :: 0 <= i < |s| && IsSpace(s[i]) ==> s[i] == ' ')
    && (forall i, j :: 0 <= i < j < |s| && j == i + 1 ==> !(s[i] == ' ' && s[j] == ' '))
    && (|s| > 0 ==> !IsSpace(s[0]) && !IsSpace(s[|s| - 1]))
  }

  /** Text made only of whitespace, the empty text included. */
  predicate IsBlank(s: string) {
    forall i :: 0 <= i < |s| ==> IsSpace(s[i])
  }

  /** `str.split()` with no separator: the maximal non-whitespace runs, in order. */
  function Split(s: string): seq<string>
    decreases |s|
  {
    var t := s[SpaceLen(s)..];
    if |t| == 0 then [] else [t[..WordLen(t)]] + Split(t[WordLen(t)..])
  }

  /** Every element of a split is a word. */
  lemma {:induction false} SplitWords(s: string)
    ensures forall i :: 0 <= i < |Split(s)| ==> IsWord(Split(s)[i])
    decreases |s|
  {
    var t := s[SpaceLen(s)..];
    if |t| > 0 {
      var k := WordLen(t);
      SplitWords(t[k..]);
      assert IsWord(t[..k]);
      var ws := Split(s);
      assert ws == [t[..k]] + Split(t[k..]);
      assert forall i :: 0 < i < |ws| ==> ws[i] == Split(t[k..])[i - 1];
    }
  }

  /** `' '.join(ws)`. */
  function Join(ws: seq<string>): string
  {
    if |ws| == 0 then [] else if |ws| == 1 then ws[0] else ws[0] + [' '] + Join(ws[1..])
  }

  lemma SplitSkipsLeadingSpaces(s: string)
    ensures Split(s) == Split(s[SpaceLen(s)..])
  {
    var t := s[SpaceLen(s)..];
    SpaceLenIs(t, 0);
    assert t[0..] == t;
  }

  lemma SplitSkipsSpace(c: char, x: string)
    requires IsSpace(c)
    ensures Split([c] + x) == Split(x)
  {
    assert ([c] + x)[1..] == x;
    SpaceLenIs([c] + x, 1 + SpaceLen(x));
    assert ([c] + x)[SpaceLen([c] + x)..] == x[SpaceLen(x)..];
    SplitSkipsLeadingSpaces(x);
  }

  lemma SplitOfAllSpaces(s: string)
    requires forall i :: 0 <= i < |s| ==> IsSpace(s[i])
    ensures Split(s) == []
  {
    SpaceLenIs(s, |s|);
  }

  /** A word followed by nothing or by whitespace splits off as the first word. */
  lemma SplitWordThen(w: string, tail: string)
    requires IsWord(w)
    requires |tail| == 0 || IsSpace(tail[0])
    ensures Split(w + tail) == [w] + Split(tail)
  {
    var s := w + tail;
    SpaceLenIs(s, 0);
    assert s[0..] == s;
    WordLenIs(s, |w|);
    assert s[..|w|] == w;
    assert s[|w|..] == tail;
  }

  /** A word, one space and any text split into that word and the split of
      the text. */
  lemma SplitWordSpaceAny(w: string, rest: string)
    requires IsWord(w)
    ensures Split(w + [' '] + rest) == [w] + Split(rest)
  {
    ConcatAssoc(w, [' '], rest);
    SplitWordThen(w, [' '] + rest);
    SplitSkipsSpace(' ', rest);
  }

  /** Splitting a join of words gives the words back. */
  lemma {:induction false} SplitJoin(ws: seq<string>)
    requires forall i :: 0 <= i < |ws| ==> IsWord(ws[i])
    ensures Split(Join(ws)) == ws
    decreases |ws|
  {
    if |ws| == 1 {
      SplitWordThen(ws[0], []);
      assert ws[0] + [] == ws[0];
    } else if |ws| > 1 {
      var rest := ws[1..];
      assert Join(ws) == ws[0] + [' '] + Join(rest);
      assert forall i :: 0 <= i < |rest| ==> IsWord(rest[i]) by {
        forall i | 0 <= i < |rest| ensures IsWord(rest[i]) {
          assert rest[i] == ws[i + 1];
        }
      }
      SplitWordSpaceAny(ws[0], Join(rest));
      SplitJoin(rest);
      assert [ws[0]] + rest == ws;
    }
  }

  /** After the first word of evenly spaced text comes either nothing or one
      space and more evenly spaced text. */
  lemma SpacedAfterWord(s: string)
    requires IsSpaced(s) && |s| > 0
    ensures WordLen(s) < |s| ==>
      && WordLen(s) + 1 < |s|
      && s[WordLen(s)] == ' '
      && !IsSpace(s[WordLen(s) + 1])
      && IsSpaced(s[WordLen(s) + 1..])
  {
    var k := WordLen(s);
    if k < |s| {
      assert IsSpace(s[k]);
      assert s[k] == ' ';
      assert !IsSpace(s[|s| - 1]);
      assert k != |s| - 1;
      assert s[k + 1] != ' ';
      assert !IsSpace(s[k + 1]);
      SpacedSuffix(s, k + 1);
    }
  }

  lemma SpacedSuffix(s: string, a: nat)
    requires IsSpaced(s) && a < |s| && !IsSpace(s[a])
    ensures IsSpaced(s[a..])
  {
    var r := s[a..];
    assert forall i :: 0 <= i < |r| ==> r[i] == s[a + i];
  }

  lemma JoinCons(w: string, ws: seq<string>)
    requires |ws| > 0
    ensures Join([w] + ws) == w + [' '] + Join(ws)
  {
    assert ([w] + ws)[1..] == ws;
  }

  /** `str.split()` returns no words exactly for blank text. */
  lemma SplitEmptyIffBlank(s: string)
    ensures |Split(s)| == 0 <==> IsBlank(s)
  {
    if IsBlank(s) {
      SplitOfAllSpaces(s);
    } else {
      assert SpaceLen(s) < |s|;
    }
  }

  /** Split of text that starts with a non-space character is non-empty. */
  lemma SplitNonEmpty(s: string)
    requires |s| > 0 && !IsSpace(s[0])
    ensures |Split(s)| > 0
  {
    SpaceLenIs(s, 0);
    assert s[SpaceLen(s)..] == s;
  }

  /** A word, one space and text starting with a non-space split into that
      word and the split of the rest. */
  lemma SplitWordSpace(w: string, rest: string)
    requires IsWord(w)
    requires |rest| > 0 && !IsSpace(rest[0])
    ensures Split(w + [' '] + rest) == [w] + Split(rest)
    ensures |Split(rest)| > 0
  {
    SplitWordSpaceAny(w, rest);
    SplitNonEmpty(rest);
  }

  /** Cutting `s` around the space at `k`. */
  lemma CutAtSpace(s: string, k: nat)
    requires k < |s| && s[k] == ' '
    ensures s == s[..k] + [' '] + s[k + 1..]
  {
  }

  /** Joining the words of evenly spaced text gives the text back. */
  lemma {:induction false} JoinSplit(s: string)
    requires IsSpaced(s)
    ensures Join(Split(s)) == s
    decreases |s|
  {
    if |s| > 0 {
      var k := WordLen(s);
      SpacedAfterWord(s);
      if k < |s| {
        var w, rest := s[..k], s[k + 1..];
        CutAtSpace(s, k);
        assert IsWord(w);
        SplitWordSpace(w, rest);
        JoinSplit(rest);
        JoinCons(w, Split(rest));
      } else {
        SplitWordThen(s, []);
        assert s + [] == s;
      }
    }
  }

  /** Leading whitespace does not change the split. */
  lemma {:induction false} SplitIgnoresLeadingSpaces(x: string, y: string)
    requires forall i :: 0 <= i < |x| ==> IsSpace(x[i])
    ensures Split(x + y) == Split(y)
    decreases |x|
  {
    if |x| > 0 {
      assert x + y == [x[0]] + (x[1..] + y);
      SplitSkipsSpace(x[0], x[1..] + y);
      SplitIgnoresLeadingSpaces(x[1..], y);
    } else {
      assert x + y == y;
    }
  }

  lemma TrailingSpaceStep(c: char, x: string, y: string)
    requires IsSpace(c)
    requires Split(x + y) == Split(x)
    ensures Split([c] + x + y) == Split([c] + x)
  {
    ConcatAssoc([c], x, y);
    SplitSkipsSpace(c, x + y);
    SplitSkipsSpace(c, x);
  }

  lemma TrailingWordStep(w: string, t: string, y: string)
    requires IsWord(w)
    requires |t| == 0 || IsSpace(t[0])
    requires |y| == 0 || IsSpace(y[0])
    requires Split(t + y) == Split(t)
    ensures Split(w + t + y) == Split(w + t)
  {
    ConcatAssoc(w, t, y);
    assert |t + y| == 0 || IsSpace((t + y)[0]);
    SplitWordThen(w, t + y);
    SplitWordThen(w, t);
  }

  /** Trailing whitespace does not change the split. */
  lemma {:induction false} SplitIgnoresTrailingSpaces(x: string, y: string)
    requires forall i :: 0 <= i < |y| ==> IsSpace(y[i])
    ensures Split(x + y) == Split(x)
    decreases |x|
  {
    if |x| == 0 {
      assert x + y == y;
      SplitOfAllSpaces(y);
    } else if IsSpace(x[0]) {
      var c, r := x[0], x[1..];
      assert x == [c] + r;
      assert Split([c] + r + y) == Split([c] + r) by {
        SplitIgnoresTrailingSpaces(r, y);
        TrailingSpaceStep(c, r, y);
      }
    } else {
      var w, t := x[..WordLen(x)], x[WordLen(x)..];
      assert x == w + t;
      assert Split(w + t + y) == Split(w + t) by {
        SplitIgnoresTrailingSpaces(t, y);
        TrailingWordStep(w, t, y);
      }
    }
  }
}
