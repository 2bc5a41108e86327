/**
 * String helpers used throughout the chatbot: Python's notion of whitespace,
 * `str.strip()`, `str.split()` with no separator, `sep.join(parts)`, the
 * whitespace normaliser `' '.join(s.split())` applied to every scraped text
 * item, and the case-insensitive quit test of the chat loop.
 */
module Text {

  /** Python's `str.isspace()` for a single character: the ASCII controls
      TAB..CR and FS..US, the space, and the Unicode space separators. */
  predicate IsSpace(c: char) {
    || c == ' '
    || '\t' <= c <= '\r'
    || '\U{1C}' <= c <= '\U{1F}'
    || c == '\U{85}' || c == '\U{A0}' || c == '\U{1680}'
    || '\U{2000}' <= c <= '\U{200A}'
    || c == '\U{2028}' || c == '\U{2029}' || c == '\U{202F}'
    || c == '\U{205F}' || c == '\U{3000}'
  }

  ghost predicate AllSpace(s: string) {
    forall i :: 0 <= i < |s| ==> IsSpace(s[i])
  }

  /** A string with no whitespace at either end. */
  ghost predicate Trimmed(s: string) {
    s == [] || (!IsSpace(s[0]) && !IsSpace(s[|s| - 1]))
  }

  /** A maximal run of non-whitespace characters, as `str.split()` yields. */
  ghost predicate IsWord(w: string) {
    w != [] && forall i :: 0 <= i < |w| ==> !IsSpace(w[i])
  }

  // ---------------------------------------------------------------------------
  // str.strip()
  // ---------------------------------------------------------------------------

  /** The first position at or after `i` that does not hold whitespace, or
      `|s|` when there is none. */
  function SkipSpace(s: string, i: nat): (j: nat)
    requires i <= |s|
    ensures i <= j <= |s|
    ensures forall k :: i <= k < j ==> IsSpace(s[k])
    ensures j < |s| ==> !IsSpace(s[j])
    decreases |s| - i
  {
    if i < |s| && IsSpace(s[i]) then SkipSpace(s, i + 1) else i
  }

  /** The end of `s[lo..j]` once the whitespace at its end is dropped. */
  function SkipSpaceBack(s: string, lo: nat, j: nat): (e: nat)
    requires lo <= j <= |s|
    ensures lo <= e <= j
    ensures forall k :: e <= k < j ==> IsSpace(s[k])
    ensures lo < e ==> !IsSpace(s[e - 1])
    decreases j - lo
  {
    if lo < j && IsSpace(s[j - 1]) then SkipSpaceBack(s, lo, j - 1) else j
  }

  /** `s.strip()`: the whitespace at the start is skipped, then the
      whitespace at the end of what remains. */
  function Strip(s: string): (r: string)
    ensures Trimmed(r)
    ensures |r| <= |s|
  {
    var a := SkipSpace(s, 0);
    s[a..SkipSpaceBack(s, a, |s|)]
  }

  /** What strip removes is whitespace at the two ends, and nothing else:
      the result is a slice of `s` with only whitespace around it, and it is
      empty exactly when `s` is all whitespace. */
  lemma {:induction false} StripSlice(s: string)
    ensures var r := Strip(s);
      && (exists lead :: 0 <= lead <= |s| - |r| && r == s[lead..lead + |r|]
            && AllSpace(s[..lead]) && AllSpace(s[lead + |r|..]))
      && (r == [] <==> AllSpace(s))
  {
    var a := SkipSpace(s, 0);
    var e := SkipSpaceBack(s, a, |s|);
    var r := Strip(s);
    assert r == s[a..a + |r|];
    assert AllSpace(s[..a]) by {
      forall k | 0 <= k < a ensures IsSpace(s[..a][k]) { }
    }
    assert AllSpace(s[e..]) by {
      forall k | 0 <= k < |s| - e ensures IsSpace(s[e..][k]) {
        assert s[e..][k] == s[e + k];
      }
    }
    if r == [] {
      forall k | 0 <= k < |s| ensures IsSpace(s[k]) { }
    } else {
      assert s[a] == r[0];
    }
  }

  lemma {:induction false} SkipSpaceShift(s: string, i: nat)
    requires i <= |s|
    ensures SkipSpace(" " + s, i + 1) == SkipSpace(s, i) + 1
    decreases |s| - i
  {
    assert (" " + s)[i + 1..] == s[i..];
    if i < |s| {
      assert (" " + s)[i + 1] == s[i];
      SkipSpaceShift(s, i + 1);
    }
  }

  lemma {:induction false} SkipSpaceBackShift(s: string, lo: nat, j: nat)
    requires lo <= j <= |s|
    ensures SkipSpaceBack(" " + s, lo + 1, j + 1) == SkipSpaceBack(s, lo, j) + 1
    decreases j - lo
  {
    if lo < j {
      assert (" " + s)[j] == s[j - 1];
      SkipSpaceBackShift(s, lo, j - 1);
    }
  }

  /** Stripping removes a leading blank before anything else, which is why the
      first chunk built as " " + item + ... strips to the plain join. */
  lemma {:induction false} StripLeadingSpace(s: string)
    ensures Strip(" " + s) == Strip(s)
  {
    var t := " " + s;
    var a := SkipSpace(s, 0);
    var e := SkipSpaceBack(s, a, |s|);
    assert t[0] == ' ';
    assert SkipSpace(t, 0) == SkipSpace(t, 1);
    SkipSpaceShift(s, 0);
    SkipSpaceBackShift(s, a, |s|);
    assert Strip(t) == t[a + 1..e + 1];
    ShiftedSlice(s, a, e);
  }

  lemma {:induction false} ShiftedSlice(s: string, a: nat, e: nat)
    requires a <= e <= |s|
    ensures (" " + s)[a + 1..e + 1] == s[a..e]
  {
  }

  /** Strip leaves a string alone exactly when it has no whitespace at either end. */
  lemma {:induction false} StripFixpoint(s: string)
    ensures Strip(s) == s <==> Trimmed(s)
  {
    if Trimmed(s) && s != [] {
      assert SkipSpace(s, 0) == 0;
      assert SkipSpaceBack(s, 0, |s|) == |s|;
      assert s[0..|s|] == s;
    }
  }

  lemma {:induction false} StripIdempotent(s: string)
    ensures Strip(Strip(s)) == Strip(s)
  {
    StripFixpoint(Strip(s));
  }

  // ---------------------------------------------------------------------------
  // sep.join(parts)
  // ---------------------------------------------------------------------------

  /** `sep.join(parts)`, defined from the right end so that appending a part
      to a running join is a single unfolding. */
  function Join(sep: string, parts: seq<string>): string
    decreases |parts|
  {
    if |parts| == 0 then ""
    else if |parts| == 1 then parts[0]
    else Join(sep, parts[..|parts| - 1]) + sep + parts[|parts| - 1]
  }

  /** Unfolding the join from the left end. */
  lemma {:induction false} JoinCons(sep: string, w: string, rest: seq<string>)
    requires rest != []
    ensures Join(sep, [w] + rest) == w + sep + Join(sep, rest)
    decreases |rest|
  {
    var parts := [w] + rest;
    if |rest| == 1 {
      assert parts[..1] == [w];
    } else {
      var init := rest[..|rest| - 1];
      assert parts[..|parts| - 1] == [w] + init;
      JoinCons(sep, w, init);
    }
  }

  // ---------------------------------------------------------------------------
  // str.split() and the normaliser ' '.join(s.split())
  // ---------------------------------------------------------------------------

  /** The longest whitespace-free prefix of `s`. */
  function Word(s: string): (w: string)
    ensures |w| <= |s| && w == s[..|w|]
    ensures forall i :: 0 <= i < |w| ==> !IsSpace(w[i])
    ensures |w| == |s| || IsSpace(s[|w|])
  {
    if s == [] || IsSpace(s[0]) then [] else [s[0]] + Word(s[1..])
  }

  /** `s.split()`: the maximal whitespace-free runs of `s`, left to right. */
  function Split(s: string): (ws: seq<string>)
    ensures forall k :: 0 <= k < |ws| ==> IsWord(ws[k])
    decreases |s|
  {
    if s == [] then []
    else if IsSpace(s[0]) then Split(s[1..])
    else
      var w := Word(s);
      [w] + Split(s[|w|..])
  }

  /** `gaps[0] + words[0] + gaps[1] + ... + words[n - 1] + gaps[n]`. */
  function Interleave(gaps: seq<string>, words: seq<string>): string
    requires |gaps| == |words| + 1
    decreases |words|
  {
    if words == [] then gaps[0] else gaps[0] + words[0] + Interleave(gaps[1..], words[1..])
  }

  /** `s` consists of `words` separated by runs of whitespace: the runs at
      the two ends may be empty, a run between two words may not. */
  ghost predicate Layout(s: string, words: seq<string>, gaps: seq<string>) {
    && |gaps| == |words| + 1
    && (forall k :: 0 <= k < |words| ==> IsWord(words[k]))
    && (forall k :: 0 <= k < |gaps| ==> AllSpace(gaps[k]))
    && (forall k :: 0 < k < |words| ==> gaps[k] != [])
    && s == Interleave(gaps, words)
  }

  /** The first character of an interleaving comes from the first gap, or
      from the first word when that gap is empty. */
  lemma {:induction false} InterleaveFirst(gaps: seq<string>, words: seq<string>)
    requires |gaps| == |words| + 1
    ensures words == [] ==> Interleave(gaps, words) == gaps[0]
    ensures gaps[0] != [] ==> Interleave(gaps, words) != [] && Interleave(gaps, words)[0] == gaps[0][0]
    ensures gaps[0] == [] && words != [] && words[0] != [] ==>
      Interleave(gaps, words) != [] && Interleave(gaps, words)[0] == words[0][0]
  {
    if words != [] {
      var r := Interleave(gaps, words);
      assert r == gaps[0] + (words[0] + Interleave(gaps[1..], words[1..]));
    }
  }

  /** `split()` reads past whitespace at the start. */
  lemma {:induction false} SplitSkipsSpace(g: string, t: string)
    requires AllSpace(g)
    ensures Split(g + t) == Split(t)
    decreases |g|
  {
    if g != [] {
      assert (g + t)[1..] == g[1..] + t;
      SplitSkipsSpace(g[1..], t);
    } else {
      assert g + t == t;
    }
  }

  /** A word followed by nothing or by whitespace is split off whole. */
  lemma {:induction false} SplitWordFirst(w: string, t: string)
    requires IsWord(w)
    requires t == [] || IsSpace(t[0])
    ensures Split(w + t) == [w] + Split(t)
  {
    var s := w + t;
    assert s[0] == w[0];
    WordOfJoined(w, t);
    assert s[|w|..] == t;
  }

  /** A whitespace character in front joins the first gap. */
  lemma {:induction false} LayoutSpace(c: char, t: string, words: seq<string>, g: seq<string>)
    requires IsSpace(c)
    requires Layout(t, words, g)
    ensures Layout([c] + t, words, [[c] + g[0]] + g[1..])
  {
    var gaps := [[c] + g[0]] + g[1..];
    assert gaps[1..] == g[1..];
    assert AllSpace(gaps[0]) by {
      forall i | 0 <= i < |gaps[0]| ensures IsSpace(gaps[0][i]) {
        if i > 0 { assert gaps[0][i] == g[0][i - 1]; }
      }
    }
    assert forall k :: 0 < k < |gaps| ==> gaps[k] == g[k];
    if words == [] {
      assert Interleave(gaps, words) == [c] + g[0];
    } else {
      assert Interleave(gaps, words) == [c] + (g[0] + words[0] + Interleave(g[1..], words[1..]));
    }
  }

  /** A word in front, followed by nothing or by whitespace, becomes the
      first word after an empty gap. */
  lemma {:induction false} LayoutWord(w: string, t: string, words: seq<string>, g: seq<string>)
    requires IsWord(w)
    requires t == [] || IsSpace(t[0])
    requires Layout(t, words, g)
    ensures Layout(w + t, [w] + words, [""] + g)
  {
    var gaps, ws := [""] + g, [w] + words;
    assert gaps[1..] == g && ws[1..] == words;
    if words != [] {
      InterleaveFirst(g, words);
      assert g[0] != [];
    }
    assert Interleave(gaps, ws) == w + t;
    assert forall k :: 0 < k < |gaps| ==> gaps[k] == g[k - 1];
    assert forall k :: 0 < k < |ws| ==> ws[k] == words[k - 1];
  }

  /** The whitespace runs around and between the words of `split()`. */
  ghost function Gaps(s: string): (gaps: seq<string>)
    ensures |gaps| == |Split(s)| + 1
    decreases |s|
  {
    if s == [] then [""]
    else if IsSpace(s[0]) then
      var g := Gaps(s[1..]);
      [[s[0]] + g[0]] + g[1..]
    else [""] + Gaps(s[|Word(s)|..])
  }

  lemma {:induction false} SplitGaps(s: string)
    ensures Layout(s, Split(s), Gaps(s))
    decreases |s|
  {
    if s == [] {
      assert Split(s) == [] && Interleave([""], []) == s;
    } else if IsSpace(s[0]) {
      var t := s[1..];
      SplitGaps(t);
      LayoutSpace(s[0], t, Split(t), Gaps(t));
      assert [s[0]] + t == s && Split(s) == Split(t);
    } else {
      var w := Word(s);
      var t := s[|w|..];
      SplitGaps(t);
      LayoutWord(w, t, Split(t), Gaps(t));
      assert w + t == s && Split(s) == [w] + Split(t);
    }
  }

  /** Every string is the words `split()` returns separated by whitespace:
      nothing but whitespace is dropped, and two consecutive words were
      apart in the input. */
  lemma {:induction false} SplitLayout(s: string)
    ensures exists gaps :: Layout(s, Split(s), gaps)
  {
    SplitGaps(s);
  }

  /** Taking off the first gap and word leaves a layout of the rest, which
      starts with whitespace unless it is empty. */
  lemma {:induction false} LayoutTail(s: string, words: seq<string>, gaps: seq<string>)
    requires Layout(s, words, gaps)
    requires words != []
    ensures var rest := Interleave(gaps[1..], words[1..]);
      && s == gaps[0] + (words[0] + rest)
      && (rest == [] || IsSpace(rest[0]))
      && Layout(rest, words[1..], gaps[1..])
  {
    var g, ws := gaps[1..], words[1..];
    var rest := Interleave(g, ws);
    InterleaveFirst(g, ws);
    assert rest == [] || IsSpace(rest[0]) by {
      if ws != [] {
        assert g[0] == gaps[1] && gaps[1] != [];
      }
    }
    assert forall k :: 0 <= k < |g| ==> g[k] == gaps[k + 1];
    assert forall k :: 0 <= k < |ws| ==> ws[k] == words[k + 1];
  }

  /** Conversely, words separated by whitespace are what `split()` returns:
      with `SplitLayout` this determines the result of `split()`. */
  lemma {:induction false} LayoutSplit(s: string, words: seq<string>, gaps: seq<string>)
    requires Layout(s, words, gaps)
    ensures Split(s) == words
    decreases |words|
  {
    if words == [] {
      InterleaveFirst(gaps, words);
      SplitSkipsSpace(gaps[0], "");
      assert gaps[0] + "" == s;
    } else {
      var rest := Interleave(gaps[1..], words[1..]);
      LayoutTail(s, words, gaps);
      SplitSkipsSpace(gaps[0], words[0] + rest);
      SplitWordFirst(words[0], rest);
      LayoutSplit(rest, words[1..], gaps[1..]);
    }
  }

  /** `' '.join(s.split())`: runs of whitespace collapse to one blank and
      whitespace at the ends disappears. */
  function Normalise(s: string): string {
    Join(" ", Split(s))
  }

  lemma {:induction false} WordOfJoined(w: string, t: string)
    requires IsWord(w)
    requires t == [] || IsSpace(t[0])
    ensures Word(w + t) == w
    decreases |w|
  {
    var s := w + t;
    if |w| == 1 {
      assert s[1..] == t;
    } else {
      assert s[1..] == w[1..] + t;
      WordOfJoined(w[1..], t);
    }
  }

  /** Splitting a blank-joined list of words gives the words back. */
  lemma {:induction false} SplitJoin(ws: seq<string>)
    requires forall k :: 0 <= k < |ws| ==> IsWord(ws[k])
    ensures Split(Join(" ", ws)) == ws
    decreases |ws|
  {
    if |ws| == 0 {
    } else if |ws| == 1 {
      var w := ws[0];
      WordOfJoined(w, "");
      assert w + "" == w;
      assert w[|w|..] == [];
    } else {
      var w, rest := ws[0], ws[1..];
      assert ws == [w] + rest;
      JoinCons(" ", w, rest);
      var tail := " " + Join(" ", rest);
      var s := w + tail;
      assert Join(" ", ws) == s;
      WordOfJoined(w, tail);
      assert s[|w|..] == tail;
      assert tail[1..] == Join(" ", rest);
      SplitJoin(rest);
    }
  }

  /** Every whitespace character of a blank-joined list of words is a single
      blank standing strictly between two non-blank characters. */
  lemma {:induction false} JoinedWordsShape(ws: seq<string>)
    requires forall k :: 0 <= k < |ws| ==> IsWord(ws[k])
    ensures var r := Join(" ", ws);
      forall i :: 0 <= i < |r| && IsSpace(r[i]) ==>
        r[i] == ' ' && 0 < i < |r| - 1 && !IsSpace(r[i - 1]) && !IsSpace(r[i + 1])
    ensures ws != [] ==> Join(" ", ws) != []
    decreases |ws|
  {
    if |ws| > 1 {
      var init := ws[..|ws| - 1];
      var w := ws[|ws| - 1];
      JoinedWordsShape(init);
      var j := Join(" ", init);
      var r := Join(" ", ws);
      assert r == j + " " + w;
      forall i | 0 <= i < |r| && IsSpace(r[i])
        ensures r[i] == ' ' && 0 < i < |r| - 1 && !IsSpace(r[i - 1]) && !IsSpace(r[i + 1])
      {
        if i < |j| {
          assert r[i] == j[i];
          assert r[i + 1] == j[i + 1];
          assert r[i - 1] == j[i - 1];
        } else if i == |j| {
          assert r[i - 1] == j[|j| - 1];
          assert !IsSpace(j[|j| - 1]);
          assert r[i + 1] == w[0];
        } else {
          assert false;
        }
      }
    }
  }

  /** The normaliser's output has no whitespace at either end, no whitespace
      other than the blank, and never two blanks in a row. */
  lemma {:induction false} NormaliseShape(s: string)
    ensures var r := Normalise(s);
      Trimmed(r)
      && forall i :: 0 <= i < |r| && IsSpace(r[i]) ==>
           r[i] == ' ' && 0 < i < |r| - 1 && !IsSpace(r[i - 1]) && !IsSpace(r[i + 1])
  {
    JoinedWordsShape(Split(s));
  }

  /** The normaliser keeps exactly the words of its input, in order. */
  lemma {:induction false} NormaliseKeepsWords(s: string)
    ensures Split(Normalise(s)) == Split(s)
  {
    SplitJoin(Split(s));
  }

  lemma {:induction false} NormaliseIdempotent(s: string)
    ensures Normalise(Normalise(s)) == Normalise(s)
  {
    NormaliseKeepsWords(s);
  }

  // ---------------------------------------------------------------------------
  // Case-insensitive quit test
  // ---------------------------------------------------------------------------

  /** `c.lower()` for ASCII letters; other characters are kept. */
  function LowerChar(c: char): char {
    if 'A' <= c <= 'Z' then (c as int + 32) as char else c
  }

  function Lower(s: string): string {
    seq(|s|, i requires 0 <= i < |s| => LowerChar(s[i]))
  }

  /** `s.lower() in ['quit', 'exit']`. */
  predicate IsQuitCommand(s: string) {
    Lower(s) in ["quit", "exit"]
  }

  /** Two strings equal up to the case of ASCII letters. */
  ghost predicate SameIgnoringCase(a: string, b: string) {
    |a| == |b| && forall i :: 0 <= i < |a| ==> LowerChar(a[i]) == LowerChar(b[i])
  }

  /** The quit test accepts "quit" and "exit" in any mix of upper and lower
      case, and nothing else. */
  lemma {:induction false} QuitIgnoresCase(s: string)
    ensures IsQuitCommand(s) <==> SameIgnoringCase(s, "quit") || SameIgnoringCase(s, "exit")
  {
    if SameIgnoringCase(s, "quit") { assert Lower(s) == "quit"; }
    if SameIgnoringCase(s, "exit") { assert Lower(s) == "exit"; }
    if Lower(s) == "quit" {
      assert forall i :: 0 <= i < 4 ==> LowerChar(s[i]) == Lower(s)[i];
    }
    if Lower(s) == "exit" {
      assert forall i :: 0 <= i < 4 ==> LowerChar(s[i]) == Lower(s)[i];
    }
  }
}
