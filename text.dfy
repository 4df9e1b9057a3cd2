/**
 * The string operations of Python (and the one of JavaScript) that the
 * moderation code relies on: `str.isspace`, `str.lower`, `str.strip`,
 * `needle in hay`, `str.split()` and `' '.join`, and JavaScript's `trim()`.
 */
module Text {

  /** Python's `str.isspace()`: the characters that `strip()`, `split()` and the regex class `\s` treat as whitespace. */
  predicate IsSpace(c: char) {
    || c == ' '
    || ('\t' <= c <= '\r')
    || ('\U{1C}' <= c <= '\U{1F}')
    || c == '\U{85}' || c == '\U{A0}' || c == '\U{1680}'
    || ('\U{2000}' <= c <= '\U{200A}')
    || c == '\U{2028}' || c == '\U{2029}' || c == '\U{202F}' || c == '\U{205F}' || c == '\U{3000}'
  }

  /** JavaScript's whitespace and line terminators, as `String.prototype.trim()` removes them. */
  predicate IsJsSpace(c: char) {
    || c == ' ' || c == '\t' || c == '\U{B}' || c == '\U{C}' || c == '\n' || c == '\r'
    || c == '\U{A0}' || c == '\U{FEFF}' || c == '\U{1680}'
    || ('\U{2000}' <= c <= '\U{200A}')
    || c == '\U{2028}' || c == '\U{2029}' || c == '\U{202F}' || c == '\U{205F}' || c == '\U{3000}'
  }

  predicate IsUpper(c: char) {
    'A' <= c <= 'Z'
  }

  predicate IsLowerLetter(c: char) {
    'a' <= c <= 'z'
  }

  predicate IsAsciiLetter(c: char) {
    IsUpper(c) || IsLowerLetter(c)
  }

  function LowerChar(c: char): (d: char)
    ensures !IsUpper(d)
    ensures IsUpper(c) ==> IsLowerLetter(d)
    ensures !IsUpper(c) ==> d == c
  {
    if IsUpper(c) then (c as int + 32) as char else c
  }

  /** `s.lower()`, restricted to the ASCII case mapping. */
  function Lower(s: string): (r: string)
    ensures |r| == |s|
    ensures forall i :: 0 <= i < |r| ==> !IsUpper(r[i])
    ensures forall i :: 0 <= i < |s| ==> r[i] == LowerChar(s[i])
  {
    seq(|s|, i requires 0 <= i < |s| => LowerChar(s[i]))
  }

  lemma LowerOfLowered(s: string)
    requires forall i :: 0 <= i < |s| ==> !IsUpper(s[i])
    ensures Lower(s) == s
  {
  }

  /** Drops the leading characters that satisfy `ws`. */
  function TrimStart(s: string, ws: char -> bool): (r: string)
    ensures |r| <= |s| && r == s[|s| - |r|..]
    ensures r == [] || !ws(r[0])
    ensures forall i :: 0 <= i < |s| - |r| ==> ws(s[i])
    decreases |s|
  {
    if s != [] && ws(s[0]) then TrimStart(s[1..], ws) else s
  }

  /** Drops the trailing characters that satisfy `ws`. */
  function TrimEnd(s: string, ws: char -> bool): (r: string)
    ensures |r| <= |s| && r == s[..|r|]
    ensures r == [] || !ws(r[|r| - 1])
    ensures forall i :: |r| <= i < |s| ==> ws(s[i])
    decreases |s|
  {
    if s != [] && ws(s[|s| - 1]) then TrimEnd(s[..|s| - 1], ws) else s
  }

  /** Where the trimmed text starts inside `s`. */
  function TrimOffset(s: string, ws: char -> bool): nat {
    |s| - |TrimStart(s, ws)|
  }

  /** Both ends trimmed: what is left is a slice of `s` with no whitespace at either end, and it is empty exactly when `s` is all whitespace. */
  function TrimBy(s: string, ws: char -> bool): (r: string)
    ensures TrimOffset(s, ws) + |r| <= |s| && r == s[TrimOffset(s, ws)..TrimOffset(s, ws) + |r|]
    ensures r != [] ==> !ws(r[0]) && !ws(r[|r| - 1])
    ensures r == [] <==> forall i :: 0 <= i < |s| ==> ws(s[i])
  {
    TrimEnd(TrimStart(s, ws), ws)
  }

  /** A text whose ends are not whitespace is left as it is by trimming. */
  lemma TrimByUntouched(s: string, ws: char -> bool)
    requires s != [] ==> !ws(s[0]) && !ws(s[|s| - 1])
    ensures TrimBy(s, ws) == s
  {
  }

  /** Python's `s.strip()`. */
  function Strip(s: string): string {
    TrimBy(s, IsSpace)
  }

  /** JavaScript's `s.trim()`. */
  function JsTrim(s: string): string {
    TrimBy(s, IsJsSpace)
  }

  /** Python's `needle in hay` for strings (the empty needle is in every string). */
  function Contains(hay: string, needle: string): bool
    decreases |hay|
  {
    if |needle| > |hay| then false
    else if hay[..|needle|] == needle then true
    else Contains(hay[1..], needle)
  }

  /** An occurrence inside a slice is an occurrence in the whole text. */
  lemma {:induction false} ContainsInSlice(s: string, a: nat, b: nat, needle: string)
    requires a <= b <= |s|
    requires Contains(s[a..b], needle)
    ensures Contains(s, needle)
    decreases b - a
  {
    var t := s[a..b];
    if t[..|needle|] == needle {
      ContainsAtOffset(s, a, needle);
    } else {
      assert t[1..] == s[a + 1..b];
      ContainsInSlice(s, a + 1, b, needle);
    }
  }

  lemma {:induction false} ContainsAtOffset(s: string, a: nat, needle: string)
    requires a + |needle| <= |s| && s[a..a + |needle|] == needle
    ensures Contains(s, needle)
    decreases a
  {
    if a > 0 {
      assert s[1..][a - 1..a - 1 + |needle|] == s[a..a + |needle|];
      ContainsAtOffset(s[1..], a - 1, needle);
    }
  }

  /** A text in which `needle` occurs holds it at some position. */
  lemma {:induction false} ContainsWitness(s: string, needle: string) returns (at: nat)
    requires Contains(s, needle)
    ensures at + |needle| <= |s| && s[at..at + |needle|] == needle
    decreases |s|
  {
    if s[..|needle|] == needle {
      at := 0;
    } else {
      var k := ContainsWitness(s[1..], needle);
      assert s[1..][k..k + |needle|] == s[k + 1..k + 1 + |needle|];
      at := k + 1;
    }
  }

  /** A word of `str.split()`: non-empty and free of whitespace. */
  predicate IsWord(w: string) {
    w != [] && forall i :: 0 <= i < |w| ==> !IsSpace(w[i])
  }

  /** The length of the run of non-whitespace characters that starts `s`. */
  function WordLen(s: string): (n: nat)
    ensures n <= |s|
    ensures forall i :: 0 <= i < n ==> !IsSpace(s[i])
    ensures n == |s| || IsSpace(s[n])
    decreases |s|
  {
    if s == [] || IsSpace(s[0]) then 0 else 1 + WordLen(s[1..])
  }

  /** Python's `s.split()` with no separator: the maximal whitespace-free runs, in order. */
  function Split(s: string): (ws: seq<string>)
    ensures forall i :: 0 <= i < |ws| ==> IsWord(ws[i])
    decreases |s|
  {
    if s == [] then []
    else if IsSpace(s[0]) then Split(s[1..])
    else
      var n := WordLen(s);
      [s[..n]] + Split(s[n..])
  }

  /** Leading whitespace does not change the words. */
  lemma {:induction false} SplitSkipsSpaces(s: string)
    ensures Split(TrimStart(s, IsSpace)) == Split(s)
    decreases |s|
  {
    if s != [] && IsSpace(s[0]) {
      SplitSkipsSpaces(s[1..]);
    }
  }

  /** A text of whitespace only has no words. */
  lemma {:induction false} SplitAllSpace(t: string)
    requires forall i :: 0 <= i < |t| ==> IsSpace(t[i])
    ensures Split(t) == []
    decreases |t|
  {
    if t != [] {
      SplitAllSpace(t[1..]);
    }
  }

  /**
   * A non-whitespace character put in front of a text starts a word of its
   * own when the text is empty or starts with whitespace, and otherwise
   * joins the text's first word.
   */
  lemma SplitCons(c: char, x: string)
    requires !IsSpace(c)
    ensures x == [] || IsSpace(x[0]) ==> Split([c] + x) == [[c]] + Split(x)
    ensures x != [] && !IsSpace(x[0]) ==> Split(x) != [] && Split([c] + x) == [[c] + Split(x)[0]] + Split(x)[1..]
  {
    var y := [c] + x;
    assert y[1..] == x;
    var m := WordLen(x);
    assert WordLen(y) == 1 + m;
    assert y[..1 + m] == [c] + x[..m];
    assert y[1 + m..] == x[m..];
  }

  /** Trailing whitespace does not change the words. */
  lemma {:induction false} SplitTrailingSpaces(s: string, t: string)
    requires forall i :: 0 <= i < |t| ==> IsSpace(t[i])
    ensures Split(s + t) == Split(s)
    decreases |s|
  {
    if s == [] {
      assert s + t == t;
      SplitAllSpace(t);
    } else {
      var u := s[1..];
      assert (s + t)[1..] == u + t;
      SplitTrailingSpaces(u, t);
      if !IsSpace(s[0]) {
        assert s + t == [s[0]] + (u + t);
        assert s == [s[0]] + u;
        SplitCons(s[0], u + t);
        SplitCons(s[0], u);
        if u != [] {
          assert (u + t)[0] == u[0];
        } else {
          assert u + t == t;
        }
      }
    }
  }

  /** Trimming trailing whitespace does not change the words. */
  lemma SplitTrimEnd(a: string)
    ensures Split(TrimEnd(a, IsSpace)) == Split(a)
  {
    var b := TrimEnd(a, IsSpace);
    var t := a[|b|..];
    forall i | 0 <= i < |t| ensures IsSpace(t[i]) {
      assert t[i] == a[|b| + i];
    }
    assert a == b + t;
    SplitTrailingSpaces(b, t);
  }

  /** Stripping does not change the words. */
  lemma SplitStrip(s: string)
    ensures Split(Strip(s)) == Split(s)
  {
    SplitSkipsSpaces(s);
    SplitTrimEnd(TrimStart(s, IsSpace));
  }

  /** Python's `' '.join(ws)`. */
  function Join(ws: seq<string>): string {
    if ws == [] then []
    else if |ws| == 1 then ws[0]
    else ws[0] + " " + Join(ws[1..])
  }

  lemma {:induction false} WordLenOfWordThenSpace(w: string, rest: string)
    requires IsWord(w)
    requires rest == [] || IsSpace(rest[0])
    ensures WordLen(w + rest) == |w|
    decreases |w|
  {
    if |w| > 1 {
      assert (w + rest)[1..] == w[1..] + rest;
      WordLenOfWordThenSpace(w[1..], rest);
    } else {
      assert (w + rest)[1..] == rest;
    }
  }

  /** Splitting a joined list of words gives the words back. */
  lemma {:induction false} SplitJoin(ws: seq<string>)
    requires forall i :: 0 <= i < |ws| ==> IsWord(ws[i])
    ensures Split(Join(ws)) == ws
    decreases |ws|
  {
    if ws == [] {
    } else if |ws| == 1 {
      var w := ws[0];
      WordLenOfWordThenSpace(w, []);
      assert w + [] == w;
      assert w[..|w|] == w;
      assert w[|w|..] == [];
    } else {
      var w, rest := ws[0], Join(ws[1..]);
      var s := w + " " + rest;
      WordLenOfWordThenSpace(w, " " + rest);
      assert s == w + (" " + rest);
      assert s[..|w|] == w;
      assert s[|w|..] == " " + rest;
      assert (" " + rest)[1..] == rest;
      SplitJoin(ws[1..]);
      assert Split(s) == [w] + ws[1..];
      assert [w] + ws[1..] == ws;
    }
  }

  /** Every character of a joined text is a character of one of the words, or the separating space. */
  lemma {:induction false} JoinChars(ws: seq<string>, P: char -> bool)
    requires P(' ')
    requires forall i, j :: 0 <= i < |ws| && 0 <= j < |ws[i]| ==> P(ws[i][j])
    ensures forall k :: 0 <= k < |Join(ws)| ==> P(Join(ws)[k])
    decreases |ws|
  {
    if |ws| > 1 {
      JoinChars(ws[1..], P);
      var w, rest := ws[0], Join(ws[1..]);
      forall k | 0 <= k < |Join(ws)| ensures P(Join(ws)[k]) {
        if k < |w| {
          assert Join(ws)[k] == ws[0][k];
        } else if k > |w| {
          assert Join(ws)[k] == rest[k - |w| - 1];
        }
      }
    }
  }

  /** A joined text of words has no whitespace at its ends and no two whitespace characters in a row (only single spaces). */
  lemma {:induction false} JoinShape(ws: seq<string>)
    requires forall i :: 0 <= i < |ws| ==> IsWord(ws[i])
    ensures Join(ws) != [] ==> !IsSpace(Join(ws)[0]) && !IsSpace(Join(ws)[|Join(ws)| - 1])
    ensures forall k :: 0 <= k < |Join(ws)| && IsSpace(Join(ws)[k]) ==> Join(ws)[k] == ' '
    ensures forall k :: 0 <= k < |Join(ws)| - 1 ==> !(IsSpace(Join(ws)[k]) && IsSpace(Join(ws)[k + 1]))
    decreases |ws|
  {
    if |ws| > 1 {
      JoinShape(ws[1..]);
      var w, rest := ws[0], Join(ws[1..]);
      var s := Join(ws);
      assert s == w + " " + rest;
      assert rest != [];
      forall k | 0 <= k < |s| ensures IsSpace(s[k]) ==> s[k] == ' ' {
        if k < |w| {
          assert s[k] == w[k];
        } else if k > |w| {
          assert s[k] == rest[k - |w| - 1];
        }
      }
      forall k | 0 <= k < |s| - 1 ensures !(IsSpace(s[k]) && IsSpace(s[k + 1])) {
        if k < |w| - 1 {
          assert s[k] == w[k];
        } else if k == |w| - 1 {
          assert s[k] == w[k];
        } else if k == |w| {
          assert s[k + 1] == rest[0];
        } else {
          assert s[k] == rest[k - |w| - 1] && s[k + 1] == rest[k - |w|];
        }
      }
      assert s[|s| - 1] == rest[|rest| - 1];
    }
  }
}
