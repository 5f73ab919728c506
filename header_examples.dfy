/** Worked examples of parse_ocr_text, derived from the general lemmas. Each
    takes its input as a parameter fixed by `requires`, and the facts about the
    literal strings are collected in small lemmas of their own. */
module HeaderExamples {
  import opened Text
  import opened HeaderParser

  lemma NamesAreClean()
    ensures IsStripped("Alice") && !Contains("Alice", LevelTag)
    ensures IsStripped("Bob") && !Contains("Bob", LevelTag)
  {
    MissingCharNotContained("Alice", LevelTag, 0);
    MissingCharNotContained("Bob", LevelTag, 0);
  }

  /** Which of the prefix and keyword tests the example lines pass. */
  lemma AliceLine(line: string)
    requires line == "Lv.90 Alice"
    ensures IsLevelLine(line) && !HasWin(line) && !HasLose(line)
  {
    MissingCharNotContained(line, WinWord, 0);
    MissingCharNotContained(line, LoseWord, 1);
  }

  lemma BobLine(line: string)
    requires line == "Lv.90 Bob"
    ensures IsLevelLine(line) && !HasWin(line) && !HasLose(line)
  {
    MissingCharNotContained(line, WinWord, 0);
    MissingCharNotContained(line, LoseWord, 2);
  }

  lemma WinLine(line: string)
    requires line == "Win"
    ensures !IsLevelLine(line) && HasWin(line) && !HasLose(line)
  {
    MissingCharNotContained(line, LoseWord, 0);
    assert line[..|LevelPrefix|][0] == 'W';
  }

  lemma LoseLine(line: string)
    requires line == "Lose"
    ensures !IsLevelLine(line) && !HasWin(line) && HasLose(line)
  {
    MissingCharNotContained(line, WinWord, 0);
    assert line[..|LevelPrefix|][1] == 'o';
  }

  lemma AliceName(line: string)
    requires line == "Lv.90 Alice"
    ensures PlayerName(line) == "Alice"
  {
    NamesAreClean();
    PlayerNameOfTaggedLine(line, "Alice");
  }

  lemma BobName(line: string)
    requires line == "Lv.90 Bob"
    ensures PlayerName(line) == "Bob"
  {
    NamesAreClean();
    PlayerNameOfTaggedLine(line, "Bob");
  }

  lemma OtherLevelFacts(line: string)
    requires line == "Lv.85 Bob"
    ensures IsLevelLine(line) && IsStripped(line) && !Contains(line, LevelTag)
  {
    MissingCharNotContained(line, LevelTag, 4);
  }

  /** Only the exact tag "Lv.90" is removed: a player at another level
      keeps the level in the name. */
  lemma OtherLevelKept(line: string)
    requires line == "Lv.85 Bob"
    ensures IsLevelLine(line) && PlayerName(line) == line
  {
    OtherLevelFacts(line);
    PlayerNameWithoutTag(line);
  }

  /** A "Win" line next to the left name line and a "Lose" line further
      away: the left side wins, wherever the right side is. */
  lemma WinNextToLeft(h: seq<string>, win: nat, lose: nat, right: int)
    requires win < |h| && lose < |h| && 1 <= lose
    requires HasWin(h[win]) && HasLose(h[lose]) && win <= 1
    requires forall j :: 0 <= j < lose ==> !HasLose(h[j])
    ensures Outcomes(h, 0, right) == (WinWord, LoseWord)
  {
    assert AnyLine(h, HasWin) && AnyLine(h, HasLose);
    BothKeywordsRule(h, 0, right);
    assert SomeCloser(h, 0, HasWin, 0, HasLose) by {
      forall j | 0 <= j < |h| && HasLose(h[j]) ensures Dist(0, win) <= Dist(0, j) {
        assert j >= lose;
      }
    }
  }

  /** Name lines at 0 and 2 of four, the line between them not one. */
  lemma AdjacentSides(h: seq<string>, a: string, w: string, b: string, l: string)
    requires h == [a, w, b, l]
    requires IsLevelLine(a) && !IsLevelLine(w) && IsLevelLine(b)
    ensures LocatePlayers(h) == Sides(PlayerName(a), 0, PlayerName(b), 2)
  {
    LocateFirstTwo(h, 0, 2);
  }

  /** "Win" on line 1 and the first "Lose" on line 3. */
  lemma AdjacentOutcomes(h: seq<string>, a: string, w: string, b: string, l: string)
    requires h == [a, w, b, l]
    requires HasWin(w) && HasLose(l) && !HasLose(a) && !HasLose(w) && !HasLose(b)
    ensures Outcomes(h, 0, 2) == (WinWord, LoseWord)
  {
    WinNextToLeft(h, 1, 3, 2);
  }

  /** A header block of a name line, its result line, a name line and its
      result line: each side gets the result on the line below its name. */
  lemma LayoutAdjacent(h: seq<string>, a: string, w: string, b: string, l: string)
    requires h == [a, w, b, l]
    requires IsLevelLine(a) && !IsLevelLine(w) && IsLevelLine(b)
    requires HasWin(w) && HasLose(l) && !HasLose(a) && !HasLose(w) && !HasLose(b)
    ensures ParseHeader(h) == Header(PlayerName(a), WinWord, PlayerName(b), LoseWord)
  {
    AdjacentSides(h, a, w, b, l);
    AdjacentOutcomes(h, a, w, b, l);
  }

  /** The usual screen: the same four lines above "VS". */
  lemma LayoutAboveVs(lines: seq<string>, a: string, w: string, b: string, l: string)
    requires lines == [a, w, b, l, Separator]
    requires a != Separator && w != Separator && b != Separator && l != Separator
    requires IsLevelLine(a) && !IsLevelLine(w) && IsLevelLine(b)
    requires HasWin(w) && HasLose(l) && !HasLose(a) && !HasLose(w) && !HasLose(b)
    ensures ParseLines(lines) == Header(PlayerName(a), WinWord, PlayerName(b), LoseWord)
  {
    assert lines[..4] == [a, w, b, l];
    HeaderBlockBeforeVs(lines, 4);
    LayoutAdjacent(lines[..4], a, w, b, l);
  }

  /** Lines "Lv.90 Alice", "Win", "Lv.90 Bob", "Lose", "VS": Alice wins and
      Bob loses. */
  lemma VsExample(a: string, w: string, b: string, l: string)
    requires a == "Lv.90 Alice" && w == "Win" && b == "Lv.90 Bob" && l == "Lose"
    ensures ParseLines([a, w, b, l, Separator]) == Header("Alice", "Win", "Bob", "Lose")
  {
    AliceLine(a);
    WinLine(w);
    BobLine(b);
    LoseLine(l);
    LayoutAboveVs([a, w, b, l, Separator], a, w, b, l);
    AliceName(a);
    BobName(b);
  }

  /** The same five lines as the recognised text, joined by line breaks. */
  lemma OcrTextExample(a: string, w: string, b: string, l: string)
    requires a == "Lv.90 Alice" && w == "Win" && b == "Lv.90 Bob" && l == "Lose"
    ensures ParseOcrText(JoinLines([a, w, b, l, Separator])) == Header("Alice", "Win", "Bob", "Lose")
  {
    var lines := [a, w, b, l, Separator];
    ExampleLinesClean(lines);
    LinesOfJoin(lines);
    VsExample(a, w, b, l);
  }

  lemma ExampleLinesClean(lines: seq<string>)
    requires lines == ["Lv.90 Alice", "Win", "Lv.90 Bob", "Lose", Separator]
    ensures AllStripped(lines)
    ensures forall i :: 0 <= i < |lines| ==> NoLineBreak(lines[i])
  {
  }

  /** Two lines, the second not a name line. */
  lemma OneNameLine(h: seq<string>, a: string, w: string)
    requires h == [a, w] && !IsLevelLine(w)
    ensures FewerThanTwoLevelLines(h)
  {
    forall i, j | 0 <= i < j < |h| ensures !(IsLevelLine(h[i]) && IsLevelLine(h[j])) {
      assert h[j] == w;
    }
  }

  /** Two lines, the second the only one with "Win" or "Lose" in it. */
  lemma OnlyWinSecond(h: seq<string>, a: string, w: string)
    requires h == [a, w]
    requires HasWin(w) && !HasLose(a) && !HasLose(w)
    ensures Outcomes(h, -1, -1) == (WinWord, LoseWord)
  {
    assert HasWin(h[1]);
    PlaceholderOnlyWin(h);
  }

  /** A header block of some line and a "Win" line, with no second name
      line: the placeholders, and the left side wins. */
  lemma PlaceholderWin(h: seq<string>, a: string, w: string)
    requires h == [a, w]
    requires !IsLevelLine(w) && HasWin(w) && !HasLose(a) && !HasLose(w)
    ensures ParseHeader(h) == Header(LeftPlaceholder, WinWord, RightPlaceholder, LoseWord)
  {
    OneNameLine(h, a, w);
    PlaceholderHeader(h);
    OnlyWinSecond(h, a, w);
  }

  /** Without a "VS" line the header is the first half of the lines; when
      that half is a line and a "Win" line, the placeholders are used and
      the left side wins. */
  lemma LayoutWithoutVs(lines: seq<string>, a: string, w: string, l: string, b: string)
    requires lines == [a, w, l, b] && Separator !in lines
    requires !IsLevelLine(w) && HasWin(w) && !HasLose(a) && !HasLose(w)
    ensures ParseLines(lines) == Header(LeftPlaceholder, WinWord, RightPlaceholder, LoseWord)
  {
    HeaderBlockSpec(lines);
    assert HeaderBlock(lines) == [a, w];
    PlaceholderWin([a, w], a, w);
  }

  /** Lines "Lv.90 Alice", "Win", "Lose", "Lv.90 Bob" and no "VS": only the
      first two lines are read, so the result is the placeholders with
      "Win" on the left, not a proximity result over all four lines. */
  lemma NoVsExample(a: string, w: string, l: string, b: string)
    requires a == "Lv.90 Alice" && w == "Win" && l == "Lose" && b == "Lv.90 Bob"
    ensures ParseLines([a, w, l, b]) == Header("LeftPlayer", "Win", "RightPlayer", "Lose")
  {
    AliceLine(a);
    WinLine(w);
    LoseLine(l);
    BobLine(b);
    LayoutWithoutVs([a, w, l, b], a, w, l, b);
  }

  /** Name lines at 0 and 3 of four, the two lines between them not. */
  lemma BetweenSides(h: seq<string>, a: string, w: string, l: string, b: string)
    requires h == [a, w, l, b]
    requires IsLevelLine(a) && !IsLevelLine(w) && !IsLevelLine(l) && IsLevelLine(b)
    ensures LocatePlayers(h) == Sides(PlayerName(a), 0, PlayerName(b), 3)
  {
    LocateFirstTwo(h, 0, 3);
  }

  /** "Win" on line 1 and the first "Lose" on line 2. */
  lemma BetweenOutcomes(h: seq<string>, a: string, w: string, l: string, b: string)
    requires h == [a, w, l, b]
    requires HasWin(w) && HasLose(l) && !HasLose(a) && !HasLose(w)
    ensures Outcomes(h, 0, 3) == (WinWord, LoseWord)
  {
    WinNextToLeft(h, 1, 2, 3);
  }

  /** A header block with both result lines between the two name lines:
      "Win" next to the first name, so the first side wins. */
  lemma LayoutResultsBetween(h: seq<string>, a: string, w: string, l: string, b: string)
    requires h == [a, w, l, b]
    requires IsLevelLine(a) && !IsLevelLine(w) && !IsLevelLine(l) && IsLevelLine(b)
    requires HasWin(w) && HasLose(l) && !HasLose(a) && !HasLose(w)
    ensures ParseHeader(h) == Header(PlayerName(a), WinWord, PlayerName(b), LoseWord)
  {
    BetweenSides(h, a, w, l, b);
    BetweenOutcomes(h, a, w, l, b);
  }

  /** Header block "Lv.90 Alice", "Win", "Lose", "Lv.90 Bob": Alice is at
      distance 1 from "Win" and 2 from "Lose", so she wins and Bob loses. */
  lemma ProximityExample(a: string, w: string, l: string, b: string)
    requires a == "Lv.90 Alice" && w == "Win" && l == "Lose" && b == "Lv.90 Bob"
    ensures ParseHeader([a, w, l, b]) == Header("Alice", "Win", "Bob", "Lose")
  {
    AliceLine(a);
    WinLine(w);
    LoseLine(l);
    BobLine(b);
    LayoutResultsBetween([a, w, l, b], a, w, l, b);
    AliceName(a);
    BobName(b);
  }
}
