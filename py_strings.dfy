/**
 * The Python `str` operations the pipeline is built from: `sep.join(xs)`,
 * `s.split(sep)`, `s.split()`, `s.strip()`, `s.startswith(p)` and `str(n)` for
 * an integer, each defined on `seq<char>` together with the facts the rest of
 * the model needs about it.
 */
module PyStrings {
  import opened Wrappers

  /** Python's whitespace (`str.isspace`), restricted to its ASCII members. */
  predicate IsSpace(c: char) {
    c == ' ' || c == '\t' || c == '\n' || c == '\r' || c == '\U{0B}' || c == '\U{0C}'
    || ('\U{1C}' <= c <= '\U{1F}')
  }

  /** `t` occurs in `s` as a contiguous piece. */
  predicate Contains(s: string, t: string) {
    exists i :: 0 <= i <= |s| && OccursAt(s, t, i)
  }

  /** `pat` occurs in `s` starting at position `i`. */
  predicate OccursAt(s: string, pat: string, i: int) {
    0 <= i && i + |pat| <= |s| && s[i..i + |pat|] == pat
  }

  predicate StartsWith(s: string, prefix: string) {
    |prefix| <= |s| && s[..|prefix|] == prefix
  }

  lemma ContainsMiddle(a: string, t: string, b: string)
    ensures Contains(a + t + b, t)
  {
    assert (a + t + b)[|a|..|a| + |t|] == t;
    assert OccursAt(a + t + b, t, |a|);
  }

  // ---------------------------------------------------------------- join

  /** `sep.join(xs)`. */
  function Join(sep: string, xs: seq<string>): string
  {
    if |xs| == 0 then "" else if |xs| == 1 then xs[0] else xs[0] + sep + Join(sep, xs[1..])
  }

  /** Joining two non-empty lists is joining each and gluing the results with `sep`. */
  lemma {:induction false} JoinAppend(sep: string, xs: seq<string>, ys: seq<string>)
    requires xs != [] && ys != []
    ensures Join(sep, xs + ys) == Join(sep, xs) + sep + Join(sep, ys)
  {
    if |xs| == 1 {
      assert (xs + ys)[1..] == ys;
    } else {
      assert (xs + ys)[1..] == xs[1..] + ys;
      JoinAppend(sep, xs[1..], ys);
    }
  }

  /** Every element of a list survives, unchanged, inside the list's join. */
  lemma {:induction false} JoinContains(sep: string, xs: seq<string>, k: nat)
    requires k < |xs|
    ensures Contains(Join(sep, xs), xs[k])
  {
    var before := if k == 0 then "" else Join(sep, xs[..k]) + sep;
    var after := if k == |xs| - 1 then "" else sep + Join(sep, xs[k + 1..]);
    assert xs[k..] == [xs[k]] + xs[k + 1..];
    assert Join(sep, xs[k..]) == xs[k] + after;
    if k == 0 {
      assert xs == xs[k..];
    } else {
      assert xs == xs[..k] + xs[k..];
      JoinAppend(sep, xs[..k], xs[k..]);
    }
    assert Join(sep, xs) == before + xs[k] + after;
    ContainsMiddle(before, xs[k], after);
  }

  /** Whatever contains `p + t` contains `t`. */
  lemma ContainsSuffix(s: string, p: string, t: string)
    requires Contains(s, p + t)
    ensures Contains(s, t)
  {
    var i :| 0 <= i <= |s| && OccursAt(s, p + t, i);
    assert s[i + |p|..i + |p| + |t|] == (p + t)[|p|..];
    assert OccursAt(s, t, i + |p|);
  }

  /** Some occurrence of `a` in `s` ends before some occurrence of `b` starts. */
  predicate Before(s: string, a: string, b: string) {
    exists i, j :: 0 <= i && i + |a| <= j <= |s| && OccursAt(s, a, i) && OccursAt(s, b, j)
  }

  /** A join keeps its elements in list order. */
  lemma JoinOrdered(sep: string, xs: seq<string>, j: nat, k: nat)
    requires j < k < |xs|
    ensures Before(Join(sep, xs), xs[j], xs[k])
  {
    var pre, post := xs[..k], xs[k..];
    assert xs == pre + post;
    JoinAppend(sep, pre, post);
    var s := Join(sep, xs);
    assert s == Join(sep, pre) + sep + Join(sep, post);
    JoinContains(sep, pre, j);
    var i :| 0 <= i <= |Join(sep, pre)| && OccursAt(Join(sep, pre), pre[j], i);
    assert s[i..i + |xs[j]|] == Join(sep, pre)[i..i + |xs[j]|];
    assert OccursAt(s, xs[j], i);
    var m := |Join(sep, pre)| + |sep|;
    assert Join(sep, post)[..|xs[k]|] == xs[k];
    assert s[m..m + |xs[k]|] == Join(sep, post)[..|xs[k]|];
    assert OccursAt(s, xs[k], m);
  }

  // ---------------------------------------------------------- split(sep)

  /** The first position at or after `from` at which `pat` occurs in `s`: Python's `s.find(pat, from)`. */
  function FindFrom(s: string, pat: string, from: nat): (r: Option<nat>)
    ensures r.Some? ==> from <= r.value && OccursAt(s, pat, r.value)
    ensures r.Some? ==> forall j :: from <= j < r.value ==> !OccursAt(s, pat, j)
    ensures r.None? ==> forall j :: from <= j ==> !OccursAt(s, pat, j)
    decreases |s| - from
  {
    if from + |pat| > |s| then None
    else if s[from..from + |pat|] == pat then Some(from)
    else FindFrom(s, pat, from + 1)
  }

  /** `s.find(pat)`. */
  function Find(s: string, pat: string): Option<nat>
  {
    FindFrom(s, pat, 0)
  }

  /** `s.split(sep)`: the pieces between the leftmost non-overlapping occurrences of `sep`. */
  function SplitOn(s: string, sep: string): (pieces: seq<string>)
    requires sep != []
    ensures |pieces| >= 1
    decreases |s|
  {
    match Find(s, sep)
    case None => [s]
    case Some(i) => [s[..i]] + SplitOn(s[i + |sep|..], sep)
  }

  /** Splitting and joining on the same separator gives the text back. */
  lemma {:induction false} JoinSplitOn(s: string, sep: string)
    requires sep != []
    ensures Join(sep, SplitOn(s, sep)) == s
    decreases |s|
  {
    var r := Find(s, sep);
    if r.Some? {
      var i := r.value;
      var rest := s[i + |sep|..];
      var tail := SplitOn(rest, sep);
      JoinSplitOn(rest, sep);
      assert SplitOn(s, sep) == [s[..i]] + tail;
      assert ([s[..i]] + tail)[1..] == tail;
      assert Join(sep, [s[..i]] + tail) == s[..i] + sep + Join(sep, tail);
      assert s[i..i + |sep|] == sep;
      assert s == s[..i] + s[i..i + |sep|] + rest;
    }
  }

  /** Text in which the separator's first character never appears is one piece. */
  lemma SplitOnAbsent(s: string, sep: string)
    requires sep != [] && forall i :: 0 <= i < |s| ==> s[i] != sep[0]
    ensures SplitOn(s, sep) == [s]
  {
    forall j | 0 <= j ensures !OccursAt(s, sep, j) {
      if j + |sep| <= |s| {
        assert s[j..j + |sep|][0] == s[j];
      }
    }
    assert Find(s, sep).None?;
  }

  /** Splitting splits at the first separator when its first character does not appear before it. */
  lemma SplitOnFirst(a: string, sep: string, b: string)
    requires sep != [] && forall i :: 0 <= i < |a| ==> a[i] != sep[0]
    ensures SplitOn(a + sep + b, sep) == [a] + SplitOn(b, sep)
  {
    var s := a + sep + b;
    assert s[|a|..|a| + |sep|] == sep;
    assert OccursAt(s, sep, |a|);
    forall j | 0 <= j < |a| ensures !OccursAt(s, sep, j) {
      assert s[j] == a[j];
      if j + |sep| <= |s| {
        assert s[j..j + |sep|][0] == s[j];
      }
    }
    assert Find(s, sep) == Some(|a|);
    var i := |a|;
    assert s[..|a|] == a;
    assert s[|a| + |sep|..] == b;
    assert SplitOn(s, sep) == [s[..i]] + SplitOn(s[i + |sep|..], sep);
  }

  /** No piece of a split contains the separator. */
  lemma {:induction false} SplitOnPiecesFree(s: string, sep: string, k: nat)
    requires sep != [] && k < |SplitOn(s, sep)|
    ensures !Contains(SplitOn(s, sep)[k], sep)
    decreases |s|
  {
    var r := Find(s, sep);
    if r.Some? {
      var i := r.value;
      var rest := s[i + |sep|..];
      assert SplitOn(s, sep) == [s[..i]] + SplitOn(rest, sep);
      if k == 0 {
        forall j | 0 <= j <= i && OccursAt(s[..i], sep, j) ensures false {
          assert s[..i][j..j + |sep|] == s[j..j + |sep|];
          assert OccursAt(s, sep, j);
        }
      } else {
        SplitOnPiecesFree(rest, sep, k - 1);
      }
    }
  }

  // --------------------------------------------------------------- strip

  /** The first position at or after `i` that does not hold whitespace (or `|s|`). */
  function SkipSpaces(s: string, i: nat): (j: nat)
    requires i <= |s|
    ensures i <= j <= |s|
    decreases |s| - i
  {
    if i < |s| && IsSpace(s[i]) then SkipSpaces(s, i + 1) else i
  }

  lemma {:induction false} SkipSpacesSpec(s: string, i: nat)
    requires i <= |s|
    ensures forall m :: i <= m < SkipSpaces(s, i) ==> IsSpace(s[m])
    ensures SkipSpaces(s, i) == |s| || !IsSpace(s[SkipSpaces(s, i)])
    decreases |s| - i
  {
    if i < |s| && IsSpace(s[i]) {
      SkipSpacesSpec(s, i + 1);
    }
  }

  /** The first position at or after `i` that holds whitespace (or `|s|`). */
  function SkipWord(s: string, i: nat): (j: nat)
    requires i <= |s|
    ensures i <= j <= |s|
    ensures i < |s| && !IsSpace(s[i]) ==> i < j
    decreases |s| - i
  {
    if i < |s| && !IsSpace(s[i]) then SkipWord(s, i + 1) else i
  }

  lemma {:induction false} SkipWordSpec(s: string, i: nat)
    requires i <= |s|
    ensures forall m :: i <= m < SkipWord(s, i) ==> !IsSpace(s[m])
    ensures SkipWord(s, i) == |s| || IsSpace(s[SkipWord(s, i)])
    decreases |s| - i
  {
    if i < |s| && !IsSpace(s[i]) {
      SkipWordSpec(s, i + 1);
    }
  }

  /** Walking back from `j`, but not below `lo`: the end of `s[lo..j]` without its trailing whitespace. */
  function BackSpaces(s: string, lo: nat, j: nat): (i: nat)
    requires lo <= j <= |s|
    ensures lo <= i <= j
    decreases j
  {
    if lo < j && IsSpace(s[j - 1]) then BackSpaces(s, lo, j - 1) else j
  }

  lemma {:induction false} BackSpacesSpec(s: string, lo: nat, j: nat)
    requires lo <= j <= |s|
    ensures forall m :: BackSpaces(s, lo, j) <= m < j ==> IsSpace(s[m])
    ensures BackSpaces(s, lo, j) == lo || !IsSpace(s[BackSpaces(s, lo, j) - 1])
    decreases j
  {
    if lo < j && IsSpace(s[j - 1]) {
      BackSpacesSpec(s, lo, j - 1);
    }
  }

  /** Where `s.strip()` starts in `s`. */
  function StripStart(s: string): nat
  {
    SkipSpaces(s, 0)
  }

  /** Where `s.strip()` ends in `s`. */
  function StripEnd(s: string): nat
  {
    BackSpaces(s, StripStart(s), |s|)
  }

  /** `s.strip()`: `s` without its leading and trailing whitespace. */
  function Strip(s: string): string
  {
    s[StripStart(s)..StripEnd(s)]
  }

  /**
   * `strip` keeps exactly the piece of `s` between its leading and its
   * trailing whitespace: the piece neither starts nor ends with whitespace,
   * and everything cut off on either side is whitespace.
   */
  lemma StripKeepsMiddle(s: string)
    ensures StripStart(s) <= StripEnd(s) <= |s|
    ensures Strip(s) == [] || (!IsSpace(Strip(s)[0]) && !IsSpace(Strip(s)[|Strip(s)| - 1]))
    ensures forall i :: 0 <= i < StripStart(s) ==> IsSpace(s[i])
    ensures forall i :: StripEnd(s) <= i < |s| ==> IsSpace(s[i])
  {
    var a, b := StripStart(s), StripEnd(s);
    SkipSpacesSpec(s, 0);
    BackSpacesSpec(s, a, |s|);
    if a < b {
      assert Strip(s)[0] == s[a];
      assert Strip(s)[b - a - 1] == s[b - 1];
    }
  }

  /** Text without whitespace at either end is its own strip. */
  lemma StripUnpadded(s: string)
    requires s == [] || (!IsSpace(s[0]) && !IsSpace(s[|s| - 1]))
    ensures Strip(s) == s
  {
    assert StripStart(s) == 0;
    assert StripEnd(s) == |s|;
    assert s[0..|s|] == s;
  }

  /** Stripping twice is stripping once. */
  lemma StripIdempotent(s: string)
    ensures Strip(Strip(s)) == Strip(s)
  {
    var r := Strip(s);
    StripKeepsMiddle(s);
    assert StripStart(r) == 0;
    assert StripEnd(r) == |r|;
    assert r[0..|r|] == r;
  }

  /** Text made of whitespace only (or nothing). */
  predicate IsBlank(s: string) {
    forall i :: 0 <= i < |s| ==> IsSpace(s[i])
  }

  /** `strip` yields the empty string exactly for blank text. */
  lemma StripEmptyIff(s: string)
    ensures Strip(s) == [] <==> IsBlank(s)
  {
    StripKeepsMiddle(s);
  }

  // ------------------------------------------------------------- split()

  /** A word of `s.split()`: non-empty, without whitespace. */
  predicate IsWord(w: string) {
    |w| > 0 && forall i :: 0 <= i < |w| ==> !IsSpace(w[i])
  }

  /** The words of `s` from position `i` on. */
  function WordsFrom(s: string, i: nat): seq<string>
    requires i <= |s|
    decreases |s| - i
  {
    var a := SkipSpaces(s, i);
    if a == |s| then []
    else
      var b := SkipWord(s, a);
      [s[a..b]] + WordsFrom(s, b)
  }

  /** `s.split()`: the maximal runs of non-whitespace characters, in order. */
  function Words(s: string): seq<string>
  {
    WordsFrom(s, 0)
  }

  lemma {:induction false} WordsFromAreWords(s: string, i: nat, k: nat)
    requires i <= |s| && k < |WordsFrom(s, i)|
    ensures IsWord(WordsFrom(s, i)[k])
    decreases |s| - i
  {
    var a := SkipSpaces(s, i);
    var b := SkipWord(s, a);
    SkipSpacesSpec(s, i);
    assert WordsFrom(s, i) == [s[a..b]] + WordsFrom(s, b);
    if k == 0 {
      SkipWordSpec(s, a);
      forall m | 0 <= m < b - a ensures !IsSpace(s[a..b][m]) {
        assert s[a..b][m] == s[a + m];
      }
    } else {
      WordsFromAreWords(s, b, k - 1);
    }
  }

  /** Every piece `split()` returns is a word. */
  lemma WordsAreWords(s: string)
    ensures forall k :: 0 <= k < |Words(s)| ==> IsWord(Words(s)[k])
  {
    forall k | 0 <= k < |Words(s)| ensures IsWord(Words(s)[k]) {
      WordsFromAreWords(s, 0, k);
    }
  }

  /** `SkipWord` run from inside a word `w` placed at `i` stops right after it. */
  lemma {:induction false} SkipWordOver(s: string, i: nat, w: string, k: nat)
    requires i + |w| <= |s| && s[i..i + |w|] == w && IsWord(w) && k <= |w|
    requires i + |w| == |s| || IsSpace(s[i + |w|])
    ensures SkipWord(s, i + k) == i + |w|
    decreases |w| - k
  {
    if k < |w| {
      assert s[i + k] == w[k];
      SkipWordOver(s, i, w, k + 1);
    }
  }

  /** A word at `i`, ended by whitespace or the end of `s`, is the first word found from `i`. */
  lemma WordsFromWord(s: string, i: nat, w: string)
    requires i + |w| <= |s| && s[i..i + |w|] == w && IsWord(w)
    requires i + |w| == |s| || IsSpace(s[i + |w|])
    ensures WordsFrom(s, i) == [w] + WordsFrom(s, i + |w|)
  {
    assert s[i] == w[0];
    assert SkipSpaces(s, i) == i;
    SkipWordOver(s, i, w, 0);
  }

  lemma WordsFromSpace(s: string, e: nat)
    requires e + 1 < |s| && IsSpace(s[e]) && !IsSpace(s[e + 1])
    ensures WordsFrom(s, e) == WordsFrom(s, e + 1)
  {
    assert SkipSpaces(s, e) == SkipSpaces(s, e + 1);
  }

  lemma JoinHead(xs: seq<string>)
    requires xs != []
    ensures |xs[0]| <= |Join(" ", xs)| && Join(" ", xs)[..|xs[0]|] == xs[0]
  {
  }

  lemma ConsTail<T>(xs: seq<T>)
    requires xs != []
    ensures xs == [xs[0]] + xs[1..]
  {
  }

  lemma JoinOne(s: string, i: nat, ws: seq<string>)
    requires i <= |s| && s[i..] == Join(" ", ws) && |ws| == 1
    ensures i + |ws[0]| == |s| && s[i..i + |ws[0]|] == ws[0]
  {
  }

  /** Where a join of two or more words sits in `s`: first word, one space, the rest. */
  lemma JoinCons(s: string, i: nat, ws: seq<string>)
    requires i <= |s| && s[i..] == Join(" ", ws) && |ws| >= 2 && IsWord(ws[1])
    ensures i + |ws[0]| + 1 < |s|
    ensures s[i..i + |ws[0]|] == ws[0]
    ensures s[i + |ws[0]|] == ' ' && !IsSpace(s[i + |ws[0]| + 1])
    ensures s[i + |ws[0]| + 1..] == Join(" ", ws[1..])
  {
    var w := ws[0];
    var j := Join(" ", ws[1..]);
    assert s[i..] == w + " " + j;
    assert s[i..][..|w|] == w;
    JoinHead(ws[1..]);
    assert j[0] == ws[1][0];
  }

  lemma WordsFromJoinNil(s: string, i: nat)
    requires i <= |s| && s[i..] == []
    ensures WordsFrom(s, i) == []
  {
    assert |s[i..]| == 0;
    assert SkipSpaces(s, i) == |s|;
  }

  lemma WordsFromJoinOne(s: string, i: nat, ws: seq<string>)
    requires i <= |s| && s[i..] == Join(" ", ws) && |ws| == 1 && IsWord(ws[0])
    ensures WordsFrom(s, i) == ws
  {
    JoinOne(s, i, ws);
    WordsFromWord(s, i, ws[0]);
    WordsFromJoinNil(s, |s|);
  }

  lemma WordsFromJoinStep(s: string, i: nat, ws: seq<string>, j: nat, tail: seq<string>)
    requires |ws| >= 2 && IsWord(ws[0]) && tail == ws[1..] && j == i + |ws[0]| + 1
    requires j < |s| && s[i..i + |ws[0]|] == ws[0]
    requires s[i + |ws[0]|] == ' ' && !IsSpace(s[j])
    requires WordsFrom(s, j) == tail
    ensures WordsFrom(s, i) == ws
  {
    WordsFromWord(s, i, ws[0]);
    WordsFromSpace(s, i + |ws[0]|);
    ConsTail(ws);
  }

  /** From a position where a single-space join of words starts, `split()` finds exactly those words. */
  lemma {:induction false} WordsFromJoin(s: string, i: nat, ws: seq<string>)
    requires i <= |s| && s[i..] == Join(" ", ws)
    requires forall k :: 0 <= k < |ws| ==> IsWord(ws[k])
    ensures WordsFrom(s, i) == ws
    decreases |ws|
  {
    if ws == [] {
      WordsFromJoinNil(s, i);
    } else if |ws| == 1 {
      WordsFromJoinOne(s, i, ws);
    } else {
      var tail := ws[1..];
      assert forall k :: 0 <= k < |tail| ==> IsWord(tail[k]) by {
        forall k | 0 <= k < |tail| ensures IsWord(tail[k]) {
          assert tail[k] == ws[k + 1];
        }
      }
      var j := i + |ws[0]| + 1;
      JoinCons(s, i, ws);
      WordsFromJoin(s, j, tail);
      WordsFromJoinStep(s, i, ws, j, tail);
    }
  }

  /** `split()` gives back the words a single-space `join` was made of. */
  lemma WordsOfJoin(ws: seq<string>)
    requires forall k :: 0 <= k < |ws| ==> IsWord(ws[k])
    ensures Words(Join(" ", ws)) == ws
  {
    var s := Join(" ", ws);
    assert s[0..] == s;
    WordsFromJoin(s, 0, ws);
  }

  /** `split()` finds no word exactly in all-whitespace text. */
  lemma WordsEmptyIff(s: string)
    ensures Words(s) == [] <==> forall i :: 0 <= i < |s| ==> IsSpace(s[i])
  {
    SkipSpacesSpec(s, 0);
  }

  /**
   * Text in which every whitespace character is a single `' '` with
   * non-whitespace on both sides: no leading or trailing whitespace and never
   * two whitespace characters in a row.
   */
  predicate SingleSpaced(s: string) {
    forall i :: 0 <= i < |s| && IsSpace(s[i]) ==>
      s[i] == ' ' && 0 < i < |s| - 1 && !IsSpace(s[i - 1]) && !IsSpace(s[i + 1])
  }

  lemma {:induction false} JoinWordsSingleSpaced(ws: seq<string>)
    requires forall k :: 0 <= k < |ws| ==> IsWord(ws[k])
    ensures SingleSpaced(Join(" ", ws))
    ensures ws != [] ==> Join(" ", ws) != []
  {
    if |ws| >= 2 {
      var w, j := ws[0], Join(" ", ws[1..]);
      JoinWordsSingleSpaced(ws[1..]);
      var s := w + " " + j;
      assert j != [] && !IsSpace(j[0]) && !IsSpace(j[|j| - 1]);
      forall i | 0 <= i < |s| && IsSpace(s[i])
        ensures s[i] == ' ' && 0 < i < |s| - 1 && !IsSpace(s[i - 1]) && !IsSpace(s[i + 1])
      {
        if i == |w| {
          assert s[i + 1] == j[0];
          assert s[i - 1] == w[|w| - 1];
        } else if i > |w| {
          var m := i - |w| - 1;
          assert s[i] == j[m];
          if m > 0 {
            assert s[i - 1] == j[m - 1];
          }
          assert s[i + 1] == j[m + 1];
        }
      }
    }
  }

  // ------------------------------------------------------------- str(int)

  function DigitChar(d: nat): char
    requires d < 10
  {
    "0123456789"[d]
  }

  /** `str(n)` for a natural number: its decimal digits, most significant first. */
  function NatToString(n: nat): string
  {
    if n < 10 then [DigitChar(n)] else NatToString(n / 10) + [DigitChar(n % 10)]
  }

  /** `str(i)` for any integer. */
  function IntToString(i: int): string
  {
    if i < 0 then "-" + NatToString(-i) else NatToString(i)
  }
}
