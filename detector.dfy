/**
 * detector.py: `preprocess_text`, the class labels, and the fail-open
 * mapping of `detect_cyberbullying` from the model's prediction to a verdict.
 * The transformer itself is outside the model: what it did is the input
 * `ModelOutcome`.
 */
module Detector {
  import opened Wrappers
  import opened Text
  import opened Labels

  /** `CLASS_LABELS`, indexed by the model's class id. */
  const ClassLabels: seq<string> := ["Ethnicity/Race", "Gender/Sexual", "Not Cyberbullying", "Religion"]

  /** The stopword list used when the NLTK corpus cannot be loaded. */
  const FallbackStopwords: set<string> := {
    "i", "me", "my", "myself", "we", "our", "ours", "ourselves", "you", "your", "yours",
    "yourself", "yourselves", "he", "him", "his", "himself", "she", "her", "hers",
    "herself", "it", "its", "itself", "they", "them", "their", "theirs", "themselves",
    "what", "which", "who", "whom", "this", "that", "these", "those", "am", "is", "are",
    "was", "were", "be", "been", "being", "have", "has", "had", "having", "do", "does",
    "did", "doing", "a", "an", "the", "and", "but", "if", "or", "because", "as", "until",
    "while", "of", "at", "by", "for", "with", "about", "against", "between", "into",
    "through", "during", "before", "after", "above", "below", "to", "from", "up", "down",
    "in", "out", "on", "off", "over", "under", "again", "further", "then", "once"}

  // ------------------------------------------------------------ preprocessing

  /** `re.sub(r'[^a-zA-Z\s]', '', s)`: keeps ASCII letters and whitespace. */
  function KeepLettersAndSpace(s: string): (r: string)
    ensures forall i :: 0 <= i < |r| ==> IsAsciiLetter(r[i]) || IsSpace(r[i])
    ensures forall i :: 0 <= i < |r| ==> r[i] in s
    ensures (forall i :: 0 <= i < |s| ==> IsAsciiLetter(s[i]) || IsSpace(s[i])) ==> r == s
    decreases |s|
  {
    if s == [] then []
    else
      var rest := KeepLettersAndSpace(s[1..]);
      if IsAsciiLetter(s[0]) || IsSpace(s[0]) then [s[0]] + rest else rest
  }

  /** `re.sub(r'\s+', ' ', s)`: every maximal run of whitespace becomes one space. */
  function Collapse(s: string): (r: string)
    ensures forall i :: 0 <= i < |r| && !IsSpace(r[i]) ==> r[i] in s
    ensures r == [] <==> s == []
    ensures r != [] ==> (IsSpace(r[0]) <==> IsSpace(s[0]))
    decreases |s|
  {
    if s == [] then []
    else if IsSpace(s[0]) then
      var rest := Collapse(TrimStart(s[1..], IsSpace));
      assert (" " + rest)[0] == ' ';
      " " + rest
    else
      var rest := Collapse(s[1..]);
      assert ([s[0]] + rest)[0] == s[0];
      [s[0]] + rest
  }

  /** After collapsing, the only whitespace left is single spaces. */
  lemma {:induction false} CollapseSingleSpaces(s: string)
    ensures forall i :: 0 <= i < |Collapse(s)| && IsSpace(Collapse(s)[i]) ==> Collapse(s)[i] == ' '
    ensures forall i :: 0 <= i < |Collapse(s)| - 1 ==> !(IsSpace(Collapse(s)[i]) && IsSpace(Collapse(s)[i + 1]))
    decreases |s|
  {
    if s != [] {
      var r := Collapse(s);
      var rest, t := r[1..], if IsSpace(s[0]) then TrimStart(s[1..], IsSpace) else s[1..];
      CollapseSingleSpaces(t);
      assert rest == Collapse(t);
      assert rest != [] && IsSpace(s[0]) ==> !IsSpace(rest[0]);
      forall i | 0 <= i < |r| ensures IsSpace(r[i]) ==> r[i] == ' ' {
        if i > 0 {
          assert r[i] == rest[i - 1];
        }
      }
      forall i | 0 <= i < |r| - 1 ensures !(IsSpace(r[i]) && IsSpace(r[i + 1])) {
        assert r[i + 1] == rest[i];
        if i > 0 {
          assert r[i] == rest[i - 1];
        }
      }
    }
  }

  /** Collapsing whitespace keeps the words of the text: `Collapse(s).split() == s.split()`. */
  lemma {:induction false} CollapseKeepsWords(s: string)
    ensures Split(Collapse(s)) == Split(s)
    decreases |s|
  {
    if s != [] {
      if IsSpace(s[0]) {
        var t := TrimStart(s[1..], IsSpace);
        CollapseKeepsWords(t);
        SplitSkipsSpaces(s[1..]);
        assert (" " + Collapse(t))[1..] == Collapse(t);
      } else {
        var u := s[1..];
        CollapseKeepsWords(u);
        assert s == [s[0]] + u;
        SplitCons(s[0], Collapse(u));
        SplitCons(s[0], u);
      }
    }
  }

  /** The filter works character by character: it distributes over concatenation, and one character is kept exactly when it is an ASCII letter or whitespace. */
  lemma {:induction false} KeepLettersAndSpaceAppend(a: string, b: string, c: char)
    ensures KeepLettersAndSpace(a + b) == KeepLettersAndSpace(a) + KeepLettersAndSpace(b)
    ensures KeepLettersAndSpace([c]) == if IsAsciiLetter(c) || IsSpace(c) then [c] else []
    decreases |a|
  {
    assert [c][1..] == [];
    if a == [] {
      assert a + b == b;
    } else {
      assert (a + b)[1..] == a[1..] + b;
      KeepLettersAndSpaceAppend(a[1..], b, c);
    }
  }

  /** A text whose only whitespace is single spaces is left as it is by `Collapse`. */
  lemma {:induction false} CollapseFixed(s: string)
    requires forall k :: 0 <= k < |s| && IsSpace(s[k]) ==> s[k] == ' '
    requires forall k :: 0 <= k < |s| - 1 ==> !(IsSpace(s[k]) && IsSpace(s[k + 1]))
    ensures Collapse(s) == s
    decreases |s|
  {
    if s != [] {
      var t := s[1..];
      forall k | 0 <= k < |t| - 1 ensures !(IsSpace(t[k]) && IsSpace(t[k + 1])) {
        assert t[k] == s[k + 1] && t[k + 1] == s[k + 2];
      }
      forall k | 0 <= k < |t| && IsSpace(t[k]) ensures t[k] == ' ' {
        assert t[k] == s[k + 1];
      }
      CollapseFixed(t);
      if IsSpace(s[0]) {
        assert t == [] || !IsSpace(t[0]) by {
          if t != [] {
            assert t[0] == s[1];
          }
        }
        assert TrimStart(t, IsSpace) == t;
        assert Collapse(s) == " " + t;
      } else {
        assert Collapse(s) == [s[0]] + t;
      }
      assert s == [s[0]] + t;
    }
  }


  /** The words of `ws` that are not stopwords, in their order. */
  function DropStopwords(ws: seq<string>, stopwords: set<string>): (r: seq<string>)
    ensures |r| <= |ws|
    ensures forall i :: 0 <= i < |r| ==> r[i] !in stopwords && r[i] in ws
    ensures (forall i :: 0 <= i < |ws| ==> ws[i] !in stopwords) ==> r == ws
  {
    if ws == [] then []
    else (if ws[0] in stopwords then [] else [ws[0]]) + DropStopwords(ws[1..], stopwords)
  }

  /** Dropping stopwords from two runs of words one after the other keeps the survivors of the first run before those of the second. */
  lemma {:induction false} DropStopwordsAppend(a: seq<string>, b: seq<string>, stopwords: set<string>)
    ensures DropStopwords(a + b, stopwords) == DropStopwords(a, stopwords) + DropStopwords(b, stopwords)
    decreases |a|
  {
    if a == [] {
      assert a + b == b;
    } else {
      assert (a + b)[1..] == a[1..] + b;
      DropStopwordsAppend(a[1..], b, stopwords);
    }
  }

  /** The words that survive preprocessing, before they are joined. */
  function PreprocessWords(text: string, stopwords: set<string>): seq<string> {
    DropStopwords(Split(Strip(Collapse(KeepLettersAndSpace(Lower(text))))), stopwords)
  }

  /** Every character that survives preprocessing is a lower-case ASCII letter or a space. */
  predicate IsCleanChar(c: char) {
    IsLowerLetter(c) || c == ' '
  }

  /**
   * `preprocess_text(text)` with the stopword set `stopwords`: the result is
   * the surviving words joined by single spaces, made only of lower-case
   * ASCII letters and spaces, with no space at either end and none doubled,
   * and with no stopword left in it.
   */
  function Preprocess(text: string, stopwords: set<string>): (r: string)
    ensures Split(r) == PreprocessWords(text, stopwords)
    ensures forall k :: 0 <= k < |r| ==> IsCleanChar(r[k])
    ensures r != [] ==> r[0] != ' ' && r[|r| - 1] != ' '
    ensures forall k :: 0 <= k < |r| - 1 ==> !(r[k] == ' ' && r[k + 1] == ' ')
    ensures forall i :: 0 <= i < |Split(r)| ==> Split(r)[i] !in stopwords
  {
    var ws := PreprocessWords(text, stopwords);
    PreprocessWordsClean(text, stopwords);
    SplitJoin(ws);
    JoinShape(ws);
    JoinChars(ws, IsCleanChar);
    Join(ws)
  }

  /** Preprocessing keeps the input's words: its words are those of the lower-cased, letters-only text, stopwords dropped, in their order. */
  lemma PreprocessKeepsWords(text: string, stopwords: set<string>)
    ensures Split(Preprocess(text, stopwords)) == DropStopwords(Split(KeepLettersAndSpace(Lower(text))), stopwords)
  {
    var t := KeepLettersAndSpace(Lower(text));
    SplitStrip(Collapse(t));
    CollapseKeepsWords(t);
  }

  /** Every non-whitespace character of `s` is a lower-case ASCII letter. */
  predicate LettersBetweenSpaces(s: string) {
    forall i :: 0 <= i < |s| && !IsSpace(s[i]) ==> IsLowerLetter(s[i])
  }

  /** After lower-casing and dropping everything but letters and whitespace, only lower-case letters and whitespace remain. */
  lemma FilteredIsLower(text: string)
    ensures LettersBetweenSpaces(KeepLettersAndSpace(Lower(text)))
  {
    var t1 := Lower(text);
    var t2 := KeepLettersAndSpace(t1);
    forall i | 0 <= i < |t2| && !IsSpace(t2[i]) ensures IsLowerLetter(t2[i]) {
      assert t2[i] in t1;
    }
  }

  /** Collapsing whitespace keeps that shape: it brings in no new non-whitespace character. */
  lemma CollapseKeepsLetters(t: string)
    requires LettersBetweenSpaces(t)
    ensures LettersBetweenSpaces(Collapse(t))
  {
    var r := Collapse(t);
    forall i | 0 <= i < |r| && !IsSpace(r[i]) ensures IsLowerLetter(r[i]) {
      assert r[i] in t;
    }
  }

  /** Any slice keeps that shape. */
  lemma SliceKeepsLetters(t: string, a: nat, b: nat)
    requires a <= b <= |t| && LettersBetweenSpaces(t)
    ensures LettersBetweenSpaces(t[a..b])
  {
    var u := t[a..b];
    forall i | 0 <= i < |u| && !IsSpace(u[i]) ensures IsLowerLetter(u[i]) {
      assert u[i] == t[a + i];
    }
  }

  /** Stripping keeps that shape, since it leaves a slice. */
  lemma StripKeepsLetters(t: string)
    requires LettersBetweenSpaces(t)
    ensures LettersBetweenSpaces(Strip(t))
  {
    var off := TrimOffset(t, IsSpace);
    var r := TrimBy(t, IsSpace);
    SliceKeepsLetters(t, off, off + |r|);
  }

  /** The surviving words are non-empty runs of lower-case ASCII letters. */
  lemma PreprocessWordsClean(text: string, stopwords: set<string>)
    ensures forall i :: 0 <= i < |PreprocessWords(text, stopwords)| ==> IsWord(PreprocessWords(text, stopwords)[i])
    ensures forall i, j :: 0 <= i < |PreprocessWords(text, stopwords)| && 0 <= j < |PreprocessWords(text, stopwords)[i]|
              ==> IsLowerLetter(PreprocessWords(text, stopwords)[i][j])
  {
    var t2 := KeepLettersAndSpace(Lower(text));
    FilteredIsLower(text);
    CollapseKeepsLetters(t2);
    StripKeepsLetters(Collapse(t2));
    SplitChars(Strip(Collapse(t2)), IsLowerLetter);
  }

  /** When every non-whitespace character of `s` satisfies `P`, every character of every word of `s.split()` does. */
  lemma {:induction false} SplitChars(s: string, P: char -> bool)
    requires forall i :: 0 <= i < |s| && !IsSpace(s[i]) ==> P(s[i])
    ensures forall i, j :: 0 <= i < |Split(s)| && 0 <= j < |Split(s)[i]| ==> P(Split(s)[i][j])
    decreases |s|
  {
    if s != [] {
      if IsSpace(s[0]) {
        SplitChars(s[1..], P);
      } else {
        var n := WordLen(s);
        SplitChars(s[n..], P);
        forall i, j | 0 <= i < |Split(s)| && 0 <= j < |Split(s)[i]| ensures P(Split(s)[i][j]) {
          if i == 0 {
            assert Split(s)[0] == s[..n];
            assert s[..n][j] == s[j];
          } else {
            assert Split(s)[i] == Split(s[n..])[i - 1];
          }
        }
      }
    }
  }

  /** Lower-casing and filtering leave a text of lower-case letters and spaces unchanged. */
  lemma CleanCharsFixed(r: string)
    requires forall k :: 0 <= k < |r| ==> IsCleanChar(r[k])
    ensures KeepLettersAndSpace(Lower(r)) == r
  {
    LowerOfLowered(r);
    assert forall i :: 0 <= i < |r| ==> IsAsciiLetter(r[i]) || IsSpace(r[i]);
  }

  /** Stripping leaves a text of lower-case letters and spaces with no space at either end unchanged. */
  lemma StripClean(r: string)
    requires forall k :: 0 <= k < |r| ==> IsCleanChar(r[k])
    requires r != [] ==> r[0] != ' ' && r[|r| - 1] != ' '
    ensures Strip(r) == r
  {
    assert r != [] ==> !IsSpace(r[0]) && !IsSpace(r[|r| - 1]) by {
      if r != [] {
        assert IsCleanChar(r[0]) && IsCleanChar(r[|r| - 1]);
      }
    }
    TrimByUntouched(r, IsSpace);
  }

  /** Collapsing leaves a text of lower-case letters and single spaces unchanged. */
  lemma CollapseClean(r: string)
    requires forall k :: 0 <= k < |r| ==> IsCleanChar(r[k])
    requires forall k :: 0 <= k < |r| - 1 ==> !(r[k] == ' ' && r[k + 1] == ' ')
    ensures Collapse(r) == r
  {
    forall k | 0 <= k < |r| && IsSpace(r[k]) ensures r[k] == ' ' {
      assert IsCleanChar(r[k]);
    }
    CollapseFixed(r);
  }

  /** A text already in the shape preprocessing produces passes through every stage unchanged up to the stopword filter. */
  lemma CleanTextIsFixed(r: string, stopwords: set<string>)
    requires forall k :: 0 <= k < |r| ==> IsCleanChar(r[k])
    requires r != [] ==> r[0] != ' ' && r[|r| - 1] != ' '
    requires forall k :: 0 <= k < |r| - 1 ==> !(r[k] == ' ' && r[k + 1] == ' ')
    requires forall i :: 0 <= i < |Split(r)| ==> Split(r)[i] !in stopwords
    ensures PreprocessWords(r, stopwords) == Split(r)
  {
    CleanCharsFixed(r);
    CollapseClean(r);
    StripClean(r);
  }

  /** Preprocessing an already preprocessed text changes nothing. */
  lemma PreprocessIdempotent(text: string, stopwords: set<string>)
    ensures Preprocess(Preprocess(text, stopwords), stopwords) == Preprocess(text, stopwords)
  {
    var r := Preprocess(text, stopwords);
    CleanTextIsFixed(r, stopwords);
    assert PreprocessWords(r, stopwords) == PreprocessWords(text, stopwords);
  }

  // ---------------------------------------------------------------- detection

  /** What the model did with the text: not loaded at start-up, prediction raised, or predicted a class id. */
  datatype ModelOutcome = NotLoaded | PredictionFailed | Predicted(classId: nat)

  /**
   * `detect_cyberbullying`: a class id with a label maps to its verdict; a
   * model that is not loaded, a prediction that raises, and an id with no
   * label (indexing `CLASS_LABELS` raises) all give the safe default.
   */
  function DetectCyberbullying(outcome: ModelOutcome): (v: Verdict)
    ensures outcome.Predicted? && outcome.classId < |ClassLabels| ==> v == VerdictOf(ClassLabels[outcome.classId])
    ensures !(outcome.Predicted? && outcome.classId < |ClassLabels|) ==> v == Safe
  {
    match outcome
    case Predicted(id) => if id < |ClassLabels| then VerdictOf(ClassLabels[id]) else Safe
    case _ => Safe
  }

  /** A comment is flagged exactly when the model predicted one of the three bullying classes, and its type is that class in lower case. */
  lemma DetectionCases(outcome: ModelOutcome)
    ensures DetectCyberbullying(outcome).isBullying <==> outcome.Predicted? && outcome.classId in {0, 1, 3}
    ensures DetectCyberbullying(outcome).bullyingType.Some? <==> DetectCyberbullying(outcome).isBullying
    ensures DetectCyberbullying(outcome).isBullying ==>
              DetectCyberbullying(outcome).bullyingType.value in {"ethnicity/race", "gender/sexual", "religion"}
  {
    if outcome.Predicted? && outcome.classId < |ClassLabels| {
      var id := outcome.classId;
      var name := ClassLabels[id];
      if id == 0 {
        assert Lower(name) == "ethnicity/race";
      } else if id == 1 {
        assert Lower(name) == "gender/sexual";
      } else if id == 3 {
        assert Lower(name) == "religion";
      } else {
        assert name == NotCyberbullying;
      }
    }
  }
}
