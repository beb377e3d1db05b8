/**
 * The pieces of Python's `str` behaviour the scripts rely on: whitespace,
 * `split()`, `" ".join(...)`, `strip()`, `endswith`, and `str(n)` for a
 * non-negative integer. Strings are sequences of Unicode scalar values, as
 * Python's `str` is a sequence of code points.
 */
module Text {

  /** The characters for which Python's `str.isspace()` holds. */
  predicate IsSpace(c: char) {
    || c == ' '
    || ('\U{9}' <= c <= '\U{d}')
    || ('\U{1c}' <= c <= '\U{1f}')
    || c == '\U{85}' || c == '\U{a0}' || c == '\U{1680}'
    || ('\U{2000}' <= c <= '\U{200a}')
    || c == '\U{2028}' || c == '\U{2029}' || c == '\U{202f}' || c == '\U{205f}' || c == '\U{3000}'
  }

  /** An element of what `split()` returns: non-empty, without whitespace. */
  predicate IsWord(w: string) {
    |w| > 0 && forall i :: 0 <= i < |w| ==> !IsSpace(w[i])
  }

  /**
   * The shape `" ".join(s.split())` gives a string: no leading or trailing
   * whitespace, every whitespace character a single ' ' between two
   * non-space characters.
   */
  predicate Collapsed(s: string) {
    forall i :: 0 <= i < |s| && IsSpace(s[i]) ==>
      s[i] == ' ' && 0 < i < |s| - 1 && !IsSpace(s[i - 1]) && !IsSpace(s[i + 1])
  }

  predicate EndsWith(s: string, suffix: string) {
    |suffix| <= |s| && s[|s| - |suffix|..] == suffix
  }

  /** Length of the run of non-space characters at the start of `s`. */
  function WordLength(s: string): (n: nat)
    ensures n <= |s|
    ensures forall i :: 0 <= i < n ==> !IsSpace(s[i])
    ensures n < |s| ==> IsSpace(s[n])
  {
    if s == [] || IsSpace(s[0]) then 0 else 1 + WordLength(s[1..])
  }

  /** Python's `s.split()`: the maximal runs of non-space characters, in order. */
  function Words(s: string): (ws: seq<string>)
    ensures forall i :: 0 <= i < |ws| ==> IsWord(ws[i])
    ensures forall i, j :: 0 <= i < |ws| && 0 <= j < |ws[i]| ==> ws[i][j] in s
    decreases |s|
  {
    if s == [] then []
    else if IsSpace(s[0]) then Words(s[1..])
    else
      var n := WordLength(s);
      [s[..n]] + Words(s[n..])
  }

  /** Python's `sep.join(xs)`. */
  function Join(sep: string, xs: seq<string>): string {
    if xs == [] then ""
    else if |xs| == 1 then xs[0]
    else xs[0] + sep + Join(sep, xs[1..])
  }

  /** The first index at or after `i` that does not hold whitespace. */
  function SkipSpace(s: string, i: nat): (j: nat)
    requires i <= |s|
    ensures i <= j <= |s|
    ensures j == |s| || !IsSpace(s[j])
    ensures forall k :: i <= k < j ==> IsSpace(s[k])
    decreases |s| - i
  {
    if i < |s| && IsSpace(s[i]) then SkipSpace(s, i + 1) else i
  }

  /** The end of `s[lo..hi]` once its trailing whitespace is removed. */
  function TrimEnd(s: string, lo: nat, hi: nat): (j: nat)
    requires lo <= hi <= |s|
    ensures lo <= j <= hi
    ensures j == lo || !IsSpace(s[j - 1])
    ensures forall k :: j <= k < hi ==> IsSpace(s[k])
    decreases hi
  {
    if hi > lo && IsSpace(s[hi - 1]) then TrimEnd(s, lo, hi - 1) else hi
  }

  /**
   * Python's `s.strip()`: the slice of `s` left once the whitespace at both
   * ends is removed.
   */
  function Strip(s: string): (r: string)
    ensures r == [] || (!IsSpace(r[0]) && !IsSpace(r[|r| - 1]))
  {
    var a := SkipSpace(s, 0);
    s[a..TrimEnd(s, a, |s|)]
  }

  /**
   * What `strip()` removes is whitespace, and what it keeps is one piece of
   * the input.
   */
  lemma StripSlice(s: string)
    ensures exists a, b :: 0 <= a <= b <= |s| && Strip(s) == s[a..b]
              && (forall k :: 0 <= k < a ==> IsSpace(s[k]))
              && (forall k :: b <= k < |s| ==> IsSpace(s[k]))
  {
    var a := SkipSpace(s, 0);
    var b := TrimEnd(s, a, |s|);
    assert Strip(s) == s[a..b];
  }

  predicate IsDigit(c: char) {
    '0' as int <= c as int <= '9' as int
  }

  function DigitChar(d: nat): (c: char)
    requires d < 10
    ensures IsDigit(c) && (c as int) - ('0' as int) == d
  {
    (('0' as int) + d) as char
  }

  /** Python's `str(n)` (equivalently `f"{n}"`) for a non-negative integer: decimal, no leading zeros. */
  function NatToString(n: nat): (s: string)
    ensures |s| > 0 && forall i :: 0 <= i < |s| ==> IsDigit(s[i])
    decreases n
  {
    if n < 10 then [DigitChar(n)] else NatToString(n / 10) + [DigitChar(n % 10)]
  }

  function DigitValue(c: char): nat
    requires IsDigit(c)
  {
    (c as int) - ('0' as int)
  }

  /** The value of a non-empty string of decimal digits (Python's `int(s)`). */
  function ParseNat(s: string): nat
    requires |s| > 0 && forall i :: 0 <= i < |s| ==> IsDigit(s[i])
    decreases |s|
  {
    var last := DigitValue(s[|s| - 1]);
    if |s| == 1 then last else ParseNat(s[..|s| - 1]) * 10 + last
  }

  // ---------------------------------------------------------------------
  // split / join

  lemma {:induction false} WordLengthOfWord(w: string, rest: string)
    requires IsWord(w)
    requires rest == [] || IsSpace(rest[0])
    ensures WordLength(w + rest) == |w|
  {
    var s := w + rest;
    assert s[0] == w[0];
    if |w| == 1 {
      assert s[1..] == rest;
    } else {
      assert s[1..] == w[1..] + rest;
      assert IsWord(w[1..]) by {
        forall i | 0 <= i < |w| - 1 ensures !IsSpace(w[1..][i]) {
          assert w[1..][i] == w[i + 1];
        }
      }
      WordLengthOfWord(w[1..], rest);
    }
  }

  /** A word followed by nothing or by whitespace is the first thing `split()` returns. */
  lemma WordsAfterWord(w: string, rest: string)
    requires IsWord(w)
    requires rest == [] || IsSpace(rest[0])
    ensures Words(w + rest) == [w] + Words(rest)
  {
    var s := w + rest;
    WordLengthOfWord(w, rest);
    var n := WordLength(s);
    assert s[..n] == w && s[n..] == rest;
  }

  lemma WordsAfterSpace(s: string)
    ensures Words(" " + s) == Words(s)
  {
    assert (" " + s)[1..] == s;
  }

  lemma JoinFirst(xs: seq<string>)
    requires |xs| > 1
    ensures Join(" ", xs) == xs[0] + (" " + Join(" ", xs[1..]))
    ensures (" " + Join(" ", xs[1..]))[0] == ' '
  {
  }

  /** Splitting words joined by single spaces gives the words back. */
  lemma {:induction false} WordsOfJoin(ws: seq<string>)
    requires forall i :: 0 <= i < |ws| ==> IsWord(ws[i])
    ensures Words(Join(" ", ws)) == ws
  {
    if |ws| == 1 {
      WordsAfterWord(ws[0], "");
      assert ws[0] + "" == ws[0];
    } else if |ws| > 1 {
      var tail := Join(" ", ws[1..]);
      assert forall i :: 0 <= i < |ws| - 1 ==> ws[1..][i] == ws[i + 1];
      WordsOfJoin(ws[1..]);
      WordsAfterSpace(tail);
      JoinFirst(ws);
      WordsAfterWord(ws[0], " " + tail);
      assert ws == [ws[0]] + ws[1..];
    }
  }

  // ---------------------------------------------------------------------
  // split, characterised

  /** A run of whitespace, possibly empty. */
  predicate IsBlank(g: string) {
    forall i :: 0 <= i < |g| ==> IsSpace(g[i])
  }

  /** `gs[0] + ws[0] + gs[1] + ws[1] + ... + gs[|ws|]`: words with the gaps around them. */
  function Interleave(gs: seq<string>, ws: seq<string>): string
    requires |gs| == |ws| + 1
  {
    if ws == [] then gs[0] else gs[0] + ws[0] + Interleave(gs[1..], ws[1..])
  }

  /**
   * `ws` are words and `gs` the whitespace around them: one gap more than
   * words, every gap blank, and every gap between two words non-empty.
   */
  predicate Separates(gs: seq<string>, ws: seq<string>) {
    && |gs| == |ws| + 1
    && (forall i :: 0 <= i < |gs| ==> IsBlank(gs[i]))
    && (forall i :: 0 < i < |ws| ==> |gs[i]| > 0)
    && (forall i :: 0 <= i < |ws| ==> IsWord(ws[i]))
  }

  /** The whitespace `split()` drops: the gaps around `Words(s)`. */
  function Gaps(s: string): (gs: seq<string>)
    ensures Separates(gs, Words(s))
    ensures s != [] && IsSpace(s[0]) ==> |gs[0]| > 0
    decreases |s|
  {
    if s == [] then [""]
    else if IsSpace(s[0]) then
      var g := Gaps(s[1..]);
      [[s[0]] + g[0]] + g[1..]
    else
      var n := WordLength(s);
      assert s[n..] != [] ==> IsSpace(s[n..][0]);
      [""] + Gaps(s[n..])
  }

  /** Leading whitespace does not change what `split()` returns. */
  lemma {:induction false} WordsAfterBlank(g: string, s: string)
    requires IsBlank(g)
    ensures Words(g + s) == Words(s)
  {
    if g == [] {
      assert g + s == s;
    } else {
      assert (g + s)[0] == g[0];
      assert (g + s)[1..] == g[1..] + s;
      assert IsBlank(g[1..]) by {
        forall i | 0 <= i < |g| - 1 ensures IsSpace(g[1..][i]) {
          assert g[1..][i] == g[i + 1];
        }
      }
      WordsAfterBlank(g[1..], s);
    }
  }

  /** Whitespace in front of the first gap comes out in front of the string. */
  lemma {:induction false} InterleaveSpace(c: char, g: seq<string>, ws: seq<string>)
    requires |g| == |ws| + 1
    ensures Interleave([[c] + g[0]] + g[1..], ws) == [c] + Interleave(g, ws)
  {
    var gs := [[c] + g[0]] + g[1..];
    if ws != [] {
      assert gs[1..] == g[1..];
    }
  }

  /** A word behind an empty first gap comes out in front of the string. */
  lemma {:induction false} InterleaveWord(w: string, g: seq<string>, ws: seq<string>)
    requires |g| == |ws| + 1
    ensures Interleave([""] + g, [w] + ws) == w + Interleave(g, ws)
  {
    assert ([""] + g)[1..] == g && ([w] + ws)[1..] == ws;
  }

  /** Put back between the words, the gaps rebuild the string. */
  lemma {:induction false} InterleaveGaps(s: string)
    ensures Interleave(Gaps(s), Words(s)) == s
    decreases |s|
  {
    if s == [] {
    } else if IsSpace(s[0]) {
      var t := s[1..];
      InterleaveGaps(t);
      InterleaveSpace(s[0], Gaps(t), Words(t));
      assert s == [s[0]] + t;
    } else {
      var n := WordLength(s);
      var t := s[n..];
      InterleaveGaps(t);
      InterleaveWord(s[..n], Gaps(t), Words(t));
      assert s == s[..n] + t;
    }
  }

  /** Splitting words laid out with any such gaps gives exactly those words. */
  lemma {:induction false} WordsOfInterleave(gs: seq<string>, ws: seq<string>)
    requires Separates(gs, ws)
    ensures Words(Interleave(gs, ws)) == ws
  {
    if ws == [] {
      WordsAfterBlank(gs[0], "");
      assert gs[0] + "" == gs[0];
    } else {
      var rest := Interleave(gs[1..], ws[1..]);
      SeparatesTail(gs, ws);
      WordsOfInterleave(gs[1..], ws[1..]);
      RestStartsBlank(gs, ws);
      WordsAfterWord(ws[0], rest);
      WordsAfterBlank(gs[0], ws[0] + rest);
      assert Interleave(gs, ws) == gs[0] + (ws[0] + rest);
      assert ws == [ws[0]] + ws[1..];
    }
  }

  lemma SeparatesTail(gs: seq<string>, ws: seq<string>)
    requires Separates(gs, ws) && ws != []
    ensures Separates(gs[1..], ws[1..])
  {
    assert forall i :: 0 <= i < |ws| - 1 ==> ws[1..][i] == ws[i + 1] && gs[1..][i] == gs[i + 1];
  }

  /** After the first word comes the end of the string or whitespace. */
  lemma RestStartsBlank(gs: seq<string>, ws: seq<string>)
    requires Separates(gs, ws) && ws != []
    ensures Interleave(gs[1..], ws[1..]) == [] || IsSpace(Interleave(gs[1..], ws[1..])[0])
  {
    var rest := Interleave(gs[1..], ws[1..]);
    if |ws| > 1 {
      assert rest == gs[1] + ws[1] + Interleave(gs[2..], ws[2..]);
      assert rest[0] == gs[1][0];
    } else {
      assert rest == gs[1];
    }
  }

  /**
   * `split()` is characterised without reference to how it scans: `ws` is
   * `Words(s)` exactly when `s` is `ws` laid out with blank gaps, non-empty
   * between two words.
   */
  lemma WordsCharacterised(s: string, ws: seq<string>)
    ensures Words(s) == ws <==> exists gs :: Separates(gs, ws) && Interleave(gs, ws) == s
  {
    if Words(s) == ws {
      InterleaveGaps(s);
      assert Separates(Gaps(s), ws) && Interleave(Gaps(s), ws) == s;
    }
    if exists gs :: Separates(gs, ws) && Interleave(gs, ws) == s {
      var gs :| Separates(gs, ws) && Interleave(gs, ws) == s;
      WordsOfInterleave(gs, ws);
    }
  }

  /** A join keeps every property that holds of all characters of the separator and the parts. */
  lemma {:induction false} JoinKeeps(sep: string, xs: seq<string>, p: char -> bool)
    requires forall i :: 0 <= i < |sep| ==> p(sep[i])
    requires forall k, i :: 0 <= k < |xs| && 0 <= i < |xs[k]| ==> p(xs[k][i])
    ensures forall i :: 0 <= i < |Join(sep, xs)| ==> p(Join(sep, xs)[i])
  {
    if |xs| > 1 {
      JoinKeeps(sep, xs[1..], p);
      var tail := Join(sep, xs[1..]);
      forall i | 0 <= i < |xs[0] + sep + tail|
        ensures p((xs[0] + sep + tail)[i])
      {
        if i < |xs[0]| {
        } else if i < |xs[0]| + |sep| {
          assert (xs[0] + sep + tail)[i] == sep[i - |xs[0]|];
        } else {
          assert (xs[0] + sep + tail)[i] == tail[i - |xs[0]| - |sep|];
        }
      }
    }
  }

  /** Words joined by single spaces have collapsed whitespace. */
  lemma {:induction false} JoinCollapsed(ws: seq<string>)
    requires forall i :: 0 <= i < |ws| ==> IsWord(ws[i])
    ensures Collapsed(Join(" ", ws))
    ensures |ws| > 0 ==>
              && |Join(" ", ws)| > 0
              && !IsSpace(Join(" ", ws)[0])
              && !IsSpace(Join(" ", ws)[|Join(" ", ws)| - 1])
  {
    if |ws| > 1 {
      JoinCollapsed(ws[1..]);
      var w, tail := ws[0], Join(" ", ws[1..]);
      var s := w + " " + tail;
      assert s == Join(" ", ws);
      forall i | 0 <= i < |s| && IsSpace(s[i])
        ensures s[i] == ' ' && 0 < i < |s| - 1 && !IsSpace(s[i - 1]) && !IsSpace(s[i + 1])
      {
        if i == |w| {
          assert s[i - 1] == w[|w| - 1];
          assert s[i + 1] == tail[0];
        } else if i > |w| {
          var j := i - |w| - 1;
          assert s[i] == tail[j];
          assert s[i + 1] == tail[j + 1];
          if j == 0 {
          } else {
            assert s[i - 1] == tail[j - 1];
          }
        }
      }
      assert s[|s| - 1] == tail[|tail| - 1];
    }
  }

  // ---------------------------------------------------------------------
  // str(n)

  lemma {:induction false} ParseNatToString(n: nat)
    ensures ParseNat(NatToString(n)) == n
    decreases n
  {
    if n >= 10 {
      ParseNatToString(n / 10);
      var s := NatToString(n);
      assert s[..|s| - 1] == NatToString(n / 10);
    }
  }

  /** Distinct numbers print differently. */
  lemma NatToStringInjective(a: nat, b: nat)
    ensures NatToString(a) == NatToString(b) ==> a == b
  {
    ParseNatToString(a);
    ParseNatToString(b);
  }
}
