/** clean_text (app.py): the cleaning applied to every character-slot OCR
    result, written in the order the source performs it, and proved equal to a
    one-pass filter that keeps every character except '*' and whitespace. */
module Cleaning {
  import opened Text

  /** The characters clean_text keeps. */
  predicate IsTokenChar(c: char) {
    c != '*' && !IsSpace(c)
  }

  /** The first maximal run of non-whitespace characters of `s`. */
  function TakeWord(s: string): (w: string)
    ensures |w| <= |s| && w == s[..|w|] && NoSpace(w)
    ensures |w| < |s| ==> IsSpace(s[|w|])
  {
    if s == [] || IsSpace(s[0]) then [] else [s[0]] + TakeWord(s[1..])
  }

  /** Python's str.split() with no argument: the maximal runs of
      non-whitespace characters, in order. */
  function Words(s: string): seq<string>
    decreases |s|
  {
    var t := StripLeft(s);
    if t == [] then []
    else
      var w := TakeWord(t);
      assert w != [] by {
        assert !IsSpace(t[0]);
      }
      [w] + Words(t[|w|..])
  }

  /** Python's "".join(words). */
  function Concat(ws: seq<string>): string
  {
    if ws == [] then "" else ws[0] + Concat(ws[1..])
  }

  /** clean_text as written: drop '*', then "\n", then "\r", then join the
      whitespace-separated words with nothing between them. */
  function CleanText(text: string): string
  {
    Concat(Words(RemoveAll(RemoveAll(RemoveAll(text, "*"), "\n"), "\r")))
  }

  /** Leading whitespace contributes nothing to the filtered text. */
  lemma {:induction false} FilterStripLeft(s: string)
    ensures Filter(StripLeft(s), NotSpace) == Filter(s, NotSpace)
    decreases |s|
  {
    if s != [] && IsSpace(s[0]) {
      FilterStripLeft(s[1..]);
    }
  }

  /** A word followed by the rest of the text filters to the word itself
      followed by the filtered rest. */
  lemma FilterWord(t: string)
    ensures Filter(t, NotSpace) == TakeWord(t) + Filter(t[|TakeWord(t)|..], NotSpace)
  {
    var w := TakeWord(t);
    assert t == w + t[|w|..];
    FilterConcat(w, t[|w|..], NotSpace);
    FilterKeepsAll(w, NotSpace);
  }

  /** "".join(s.split()) deletes exactly the whitespace of s. */
  lemma {:induction false} JoinWordsDeletesSpace(s: string)
    ensures Concat(Words(s)) == Filter(s, NotSpace)
    decreases |s|
  {
    var t := StripLeft(s);
    FilterStripLeft(s);
    if t != [] {
      var w := TakeWord(t);
      assert w[0] == t[0];
      assert Words(s) == [w] + Words(t[|w|..]);
      FilterWord(t);
      JoinWordsDeletesSpace(t[|w|..]);
    }
  }

  /** Deleting one whitespace character before deleting all whitespace
      changes nothing. */
  lemma {:induction false} RemoveSpaceCharFirst(s: string, c: char)
    requires IsSpace(c)
    ensures Filter(RemoveAll(s, [c]), NotSpace) == Filter(s, NotSpace)
    decreases |s|
  {
    if s != [] {
      RemoveSpaceCharFirst(s[1..], c);
      if s[0] == c {
        assert s[..1] == [c];
        assert RemoveAll(s, [c]) == RemoveAll(s[1..], [c]);
      } else {
        assert s[..1] != [c];
        var r := RemoveAll(s[1..], [c]);
        assert RemoveAll(s, [c]) == [s[0]] + r;
        assert ([s[0]] + r)[0] == s[0] && ([s[0]] + r)[1..] == r;
      }
    }
  }

  /** Deleting '*' and then all whitespace is the token filter. */
  lemma {:induction false} RemoveStarThenSpace(s: string)
    ensures Filter(RemoveAll(s, "*"), NotSpace) == Filter(s, IsTokenChar)
    decreases |s|
  {
    if s != [] {
      RemoveStarThenSpace(s[1..]);
      if s[..1] != "*" {
        assert ([s[0]] + RemoveAll(s[1..], "*"))[1..] == RemoveAll(s[1..], "*");
      }
    }
  }

  /** clean_text keeps exactly the characters other than '*' and
      whitespace, in their original order. */
  lemma CleanTextIsFilter(text: string)
    ensures CleanText(text) == Filter(text, IsTokenChar)
  {
    var s1 := RemoveAll(text, "*");
    var s2 := RemoveAll(s1, "\n");
    var s3 := RemoveAll(s2, "\r");
    JoinWordsDeletesSpace(s3);
    RemoveSpaceCharFirst(s2, '\r');
    RemoveSpaceCharFirst(s1, '\n');
    RemoveStarThenSpace(text);
  }

  /** The cleaned text has no '*' and no whitespace, and is obtained from
      the input by deleting characters. */
  lemma CleanTextShape(text: string)
    ensures forall i :: 0 <= i < |CleanText(text)| ==> CleanText(text)[i] != '*' && !IsSpace(CleanText(text)[i])
    ensures IsSubsequence(CleanText(text), text)
  {
    CleanTextIsFilter(text);
    FilterSubsequence(text, IsTokenChar);
  }

  /** Cleaning an already cleaned text changes nothing. */
  lemma CleanTextIdempotent(text: string)
    ensures CleanText(CleanText(text)) == CleanText(text)
  {
    CleanTextIsFilter(text);
    CleanTextIsFilter(CleanText(text));
    FilterKeepsAll(CleanText(text), IsTokenChar);
  }

  /** A text without '*' or whitespace is left as it is. */
  lemma CleanTextKeepsToken(text: string)
    requires forall i :: 0 <= i < |text| ==> IsTokenChar(text[i])
    ensures CleanText(text) == text
  {
    CleanTextIsFilter(text);
    FilterKeepsAll(text, IsTokenChar);
  }

  predicate IsToken(s: string) {
    forall i :: 0 <= i < |s| ==> IsTokenChar(s[i])
  }

  predicate IsSeparator(s: string) {
    forall i :: 0 <= i < |s| ==> !IsTokenChar(s[i])
  }

  /** Three tokens with runs of '*' and whitespace around them clean to the
      three tokens run together. */
  lemma CleanTextJoinsTokens(text: string, a: string, s1: string, b: string, s2: string, c: string, s3: string)
    requires IsToken(a) && IsToken(b) && IsToken(c)
    requires IsSeparator(s1) && IsSeparator(s2) && IsSeparator(s3)
    requires text == a + s1 + b + s2 + c + s3
    ensures CleanText(text) == a + b + c
  {
    FilterKeepsAll(a, IsTokenChar);
    FilterKeepsAll(b, IsTokenChar);
    FilterKeepsAll(c, IsTokenChar);
    FilterDropsAll(s1, IsTokenChar);
    FilterDropsAll(s2, IsTokenChar);
    FilterDropsAll(s3, IsTokenChar);
    FilterConcat(a, s1, IsTokenChar);
    assert Filter(a + s1, IsTokenChar) == a;
    FilterConcat(a + s1, b, IsTokenChar);
    assert Filter(a + s1 + b, IsTokenChar) == a + b;
    FilterConcat(a + s1 + b, s2, IsTokenChar);
    assert Filter(a + s1 + b + s2, IsTokenChar) == a + b;
    FilterConcat(a + s1 + b + s2, c, IsTokenChar);
    assert Filter(a + s1 + b + s2 + c, IsTokenChar) == a + b + c;
    FilterConcat(a + s1 + b + s2 + c, s3, IsTokenChar);
    CleanTextIsFilter(text);
  }

  /** How the docstring example splits into tokens and separators. */
  lemma DocExampleParts(text: string)
    requires text == "シロコ テ ラー"
    ensures IsToken("シロコ") && IsToken("テ") && IsToken("ラー")
    ensures IsSeparator(" ") && IsSeparator("")
    ensures text == "シロコ" + " " + "テ" + " " + "ラー" + ""
  {
  }

  /** The docstring example: the spaces between the parts go. */
  lemma CleanTextDocExample(text: string)
    requires text == "シロコ テ ラー"
    ensures CleanText(text) == "シロコテラー"
  {
    DocExampleParts(text);
    CleanTextJoinsTokens(text, "シロコ", " ", "テ", " ", "ラー", "");
  }

  /** How the second example splits into tokens and separators. */
  lemma StarExampleParts(text: string)
    requires text == "シロコ* テ\n ラー "
    ensures IsToken("シロコ") && IsToken("テ") && IsToken("ラー")
    ensures IsSeparator("* ") && IsSeparator("\n ") && IsSeparator(" ")
    ensures text == "シロコ" + "* " + "テ" + "\n " + "ラー" + " "
  {
  }

  /** A '*', a newline and a trailing space go as well. */
  lemma CleanTextStarExample(text: string)
    requires text == "シロコ* テ\n ラー "
    ensures CleanText(text) == "シロコテラー"
  {
    StarExampleParts(text);
    CleanTextJoinsTokens(text, "シロコ", "* ", "テ", "\n ", "ラー", " ");
  }
}
