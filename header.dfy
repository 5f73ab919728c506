/** parse_ocr_text (app.py): the header of the battle screen, read from the
    OCR text of the masked frame, gives each visual side a player name and a
    "Win"/"Lose" result by a nearest-line heuristic. */
module HeaderParser {
  import opened Text

  datatype Option<T> = None | Some(value: T)

  /** What parse_ocr_text yields (its two trailing values are always None
      and are not modelled). Results are the strings the record stores. */
  datatype Header = Header(leftPlayer: string, leftResult: string, rightPlayer: string, rightResult: string)

  /** The two visual sides located in the header block: each side's name and
      the index of its line, or the placeholders with index -1. */
  datatype Sides = Sides(leftPlayer: string, leftIdx: int, rightPlayer: string, rightIdx: int)

  const Separator := "VS"
  const LevelPrefix := "Lv."
  const LevelTag := "Lv.90"
  const WinWord := "Win"
  const LoseWord := "Lose"
  const LeftPlaceholder := "LeftPlayer"
  const RightPlaceholder := "RightPlayer"

  // ---------------------------------------------------------------- lines

  /** [p.strip() for p in pieces if p.strip()] */
  function StrippedNonBlank(pieces: seq<string>): seq<string>
  {
    if pieces == [] then []
    else
      var t := Strip(pieces[0]);
      var rest := StrippedNonBlank(pieces[1..]);
      if t == [] then rest else [t] + rest
  }

  /** All lines non-empty and stripped. */
  predicate AllStripped(lines: seq<string>) {
    forall i :: 0 <= i < |lines| ==> lines[i] != [] && IsStripped(lines[i])
  }

  lemma ConsStripped(t: string, rest: seq<string>)
    requires t != [] && IsStripped(t) && AllStripped(rest)
    ensures AllStripped([t] + rest)
  {
    var lines := [t] + rest;
    forall i | 1 <= i < |lines| ensures lines[i] != [] && IsStripped(lines[i]) {
      assert lines[i] == rest[i - 1];
    }
  }

  /** Every kept piece is non-empty and stripped. */
  lemma {:induction false} StrippedNonBlankShape(pieces: seq<string>)
    ensures AllStripped(StrippedNonBlank(pieces))
    decreases |pieces|
  {
    if pieces != [] {
      StrippedNonBlankShape(pieces[1..]);
      var t := Strip(pieces[0]);
      if t != [] {
        ConsStripped(t, StrippedNonBlank(pieces[1..]));
      }
    }
  }

  /** The non-empty, stripped lines of the OCR text. */
  function Lines(text: string): seq<string>
  {
    StrippedNonBlank(SplitLines(text))
  }

  /** Every line of the OCR text is non-empty and stripped. */
  lemma LinesShape(text: string)
    ensures AllStripped(Lines(text))
  {
    StrippedNonBlankShape(SplitLines(text));
  }

  lemma TailStripped(lines: seq<string>)
    requires lines != [] && AllStripped(lines)
    ensures AllStripped(lines[1..])
  {
    forall i | 0 <= i < |lines| - 1 ensures lines[1..][i] != [] && IsStripped(lines[1..][i]) {
      assert lines[1..][i] == lines[i + 1];
    }
  }

  /** Pieces that are already non-empty and stripped are kept as they are,
      all of them and in order. */
  lemma {:induction false} StrippedNonBlankOfStripped(pieces: seq<string>)
    requires AllStripped(pieces)
    ensures StrippedNonBlank(pieces) == pieces
    decreases |pieces|
  {
    if pieces != [] {
      var p, tail := pieces[0], pieces[1..];
      assert [p] + tail == pieces;
      TailStripped(pieces);
      StrippedNonBlankOfStripped(tail);
      assert p != [] && IsStripped(p);
      StripStripped(p);
      KeepPiece(pieces);
    }
  }

  /** The comprehension works piece by piece: on a concatenation it is the
      concatenation of its results. */
  lemma {:induction false} StrippedNonBlankConcat(a: seq<string>, b: seq<string>)
    ensures StrippedNonBlank(a + b) == StrippedNonBlank(a) + StrippedNonBlank(b)
    decreases |a|
  {
    if a == [] {
      assert a + b == b;
    } else {
      var ab := a + b;
      assert ab[0] == a[0] && ab[1..] == a[1..] + b;
      StrippedNonBlankConcat(a[1..], b);
    }
  }

  /** One step of StrippedNonBlank on a piece that is not blank. */
  lemma KeepPiece(pieces: seq<string>)
    requires pieces != [] && Strip(pieces[0]) != []
    ensures StrippedNonBlank(pieces) == [Strip(pieces[0])] + StrippedNonBlank(pieces[1..])
  {
  }

  /** Splitting a text made of non-empty, stripped lines joined by "\n"
      gives back exactly those lines. */
  lemma LinesOfJoin(lines: seq<string>)
    requires AllStripped(lines)
    requires forall i :: 0 <= i < |lines| ==> NoLineBreak(lines[i])
    ensures Lines(JoinLines(lines)) == lines
  {
    SplitJoinLines(lines);
    StrippedNonBlankOfStripped(lines);
  }

  // --------------------------------------------------------- header block

  /** Python's lines.index(x), with None for the ValueError. */
  function IndexOf(lines: seq<string>, x: string): (r: Option<nat>)
    ensures r.None? <==> x !in lines
    ensures r.Some? ==> r.value < |lines| && lines[r.value] == x && x !in lines[..r.value]
  {
    if lines == [] then None
    else if lines[0] == x then Some(0)
    else match IndexOf(lines[1..], x)
      case None => None
      case Some(k) =>
        assert lines[1..][..k] == lines[1..k + 1];
        Some(k + 1)
  }

  /** The lines before the first "VS" line, or the first half of them when
      there is no "VS" line. */
  function HeaderBlock(lines: seq<string>): seq<string>
  {
    match IndexOf(lines, Separator)
    case Some(k) => lines[..k]
    case None => lines[..|lines| / 2]
  }

  lemma HeaderBlockSpec(lines: seq<string>)
    ensures Separator in lines ==>
      var h := HeaderBlock(lines);
      |h| < |lines| && h == lines[..|h|] && lines[|h|] == Separator && Separator !in h
    ensures Separator !in lines ==> HeaderBlock(lines) == lines[..|lines| / 2]
  {
  }

  /** A "VS" line at k with none before it ends the header block at k. */
  lemma HeaderBlockBeforeVs(lines: seq<string>, k: nat)
    requires k < |lines| && lines[k] == Separator && Separator !in lines[..k]
    ensures HeaderBlock(lines) == lines[..k]
  {
    var m := IndexOf(lines, Separator).value;
    assert lines[..m] == lines[..k];
  }

  // -------------------------------------------------------------- players

  predicate IsLevelLine(line: string) {
    StartsWith(line, LevelPrefix)
  }

  predicate HasWin(line: string) {
    Contains(line, WinWord)
  }

  predicate HasLose(line: string) {
    Contains(line, LoseWord)
  }

  /** `r` lists, in increasing order, exactly the indices of the lines that
      satisfy `p`. */
  predicate IsPositions(lines: seq<string>, p: string -> bool, r: seq<nat>) {
    && (forall k :: 0 <= k < |r| ==> r[k] < |lines| && p(lines[r[k]]))
    && (forall i :: 0 <= i < |lines| && p(lines[i]) ==> i in r)
    && (forall k, m :: 0 <= k < m < |r| ==> r[k] < r[m])
  }

  /** Extending the positions of a prefix by the next line. */
  lemma PositionsStep(lines: seq<string>, p: string -> bool, front: seq<nat>)
    requires |lines| > 0 && IsPositions(lines[..|lines| - 1], p, front)
    ensures IsPositions(lines, p, front + (if p(lines[|lines| - 1]) then [|lines| - 1] else []))
  {
    var n := |lines| - 1;
    var r := front + (if p(lines[n]) then [n] else []);
    forall k | 0 <= k < |front| ensures front[k] < n && p(lines[front[k]]) {
      assert lines[..n][front[k]] == lines[front[k]];
    }
    forall i | 0 <= i < |lines| && p(lines[i]) ensures i in r {
      if i < n {
        assert lines[..n][i] == lines[i];
        assert i in front;
      } else {
        assert r[|r| - 1] == n;
      }
    }
  }

  /** [i for i, line in enumerate(lines) if p(line)] */
  function Positions(lines: seq<string>, p: string -> bool): (r: seq<nat>)
    ensures IsPositions(lines, p, r)
  {
    if lines == [] then []
    else
      var n := |lines| - 1;
      var front := Positions(lines[..n], p);
      PositionsStep(lines, p, front);
      front + (if p(lines[n]) then [n] else [])
  }

  /** A level line with every "Lv.90" removed, then stripped. */
  function PlayerName(line: string): string
  {
    Strip(RemoveAll(line, LevelTag))
  }

  predicate FewerThanTwoLevelLines(header: seq<string>) {
    forall i, j :: 0 <= i < j < |header| ==> !(IsLevelLine(header[i]) && IsLevelLine(header[j]))
  }

  /** The first two level lines are the left and the right player; with fewer
      than two, the placeholders at index -1. */
  function LocatePlayers(header: seq<string>): (s: Sides)
    ensures FewerThanTwoLevelLines(header) ==>
      s == Sides(LeftPlaceholder, -1, RightPlaceholder, -1)
    ensures !FewerThanTwoLevelLines(header) ==>
      && 0 <= s.leftIdx < s.rightIdx < |header|
      && IsLevelLine(header[s.leftIdx]) && IsLevelLine(header[s.rightIdx])
      && (forall k :: 0 <= k < s.rightIdx && k != s.leftIdx ==> !IsLevelLine(header[k]))
      && s.leftPlayer == PlayerName(header[s.leftIdx])
      && s.rightPlayer == PlayerName(header[s.rightIdx])
  {
    var lv := Positions(header, IsLevelLine);
    if |lv| >= 2 then
      assert forall k :: 0 <= k < lv[1] && IsLevelLine(header[k]) ==> k == lv[0] by {
        forall k | 0 <= k < lv[1] && IsLevelLine(header[k]) ensures k == lv[0] {
          var m :| 0 <= m < |lv| && lv[m] == k;
          assert m == 0;
        }
      }
      Sides(PlayerName(header[lv[0]]), lv[0], PlayerName(header[lv[1]]), lv[1])
    else
      assert FewerThanTwoLevelLines(header) by {
        forall i, j | 0 <= i < j < |header| && IsLevelLine(header[i])
          ensures !IsLevelLine(header[j])
        {
          var m :| 0 <= m < |lv| && lv[m] == i;
          assert lv == [i];
        }
      }
      Sides(LeftPlaceholder, -1, RightPlaceholder, -1)
  }

  /** Conversely, the first two level lines are what LocatePlayers picks:
      level lines at i < j with none other before j. */
  lemma LocateFirstTwo(header: seq<string>, i: nat, j: nat)
    requires i < j < |header| && IsLevelLine(header[i]) && IsLevelLine(header[j])
    requires forall k :: 0 <= k < j && k != i ==> !IsLevelLine(header[k])
    ensures LocatePlayers(header) == Sides(PlayerName(header[i]), i, PlayerName(header[j]), j)
  {
    var s := LocatePlayers(header);
    assert !FewerThanTwoLevelLines(header);
    assert s.leftIdx == i by {
      assert !(s.leftIdx < i && s.leftIdx < j);
      assert !(i < s.leftIdx && i < s.rightIdx);
    }
    assert s.rightIdx == j by {
      assert !(s.rightIdx < j && s.rightIdx != i);
      assert !(j < s.rightIdx && j != s.leftIdx);
    }
  }

  /** A line "Lv.90 " followed by a stripped name without "Lv.90" in it
      yields that name. */
  lemma PlayerNameOfTaggedLine(line: string, name: string)
    requires line == LevelTag + " " + name
    requires IsStripped(name) && !Contains(name, LevelTag)
    ensures PlayerName(line) == name
  {
    var rest := " " + name;
    assert line[..|LevelTag|] == LevelTag && line[|LevelTag|..] == rest;
    assert rest[0] == ' ' && rest[1..] == name;
    assert !StartsWith(rest, LevelTag) by {
      if |LevelTag| <= |rest| {
        assert rest[..|LevelTag|][0] == ' ';
      }
    }
    assert !Contains(rest, LevelTag);
    RemoveAllAbsent(rest, LevelTag);
    assert RemoveAll(line, LevelTag) == RemoveAll(rest, LevelTag);
    StripLeadingSpace(' ', name);
    StripStripped(name);
  }

  /** A stripped line without "Lv.90" in it is its own player name. */
  lemma PlayerNameWithoutTag(line: string)
    requires IsStripped(line) && !Contains(line, LevelTag)
    ensures PlayerName(line) == line
  {
    RemoveAllAbsent(line, LevelTag);
    StripStripped(line);
  }

  // ------------------------------------------------------------- outcomes

  function Dist(a: int, b: int): nat {
    if a >= b then a - b else b - a
  }

  /** min([abs(idx - p) for p in ps]) */
  function MinDist(idx: int, ps: seq<nat>): (d: nat)
    requires |ps| > 0
    ensures exists k :: 0 <= k < |ps| && d == Dist(idx, ps[k])
    ensures forall k :: 0 <= k < |ps| ==> d <= Dist(idx, ps[k])
  {
    if |ps| == 1 then Dist(idx, ps[0])
    else
      var rest := MinDist(idx, ps[1..]);
      assert forall k :: 1 <= k < |ps| ==> ps[1..][k - 1] == ps[k];
      if Dist(idx, ps[0]) <= rest then Dist(idx, ps[0]) else rest
  }

  predicate IsResultPair(l: string, r: string) {
    (l == WinWord && r == LoseWord) || (l == LoseWord && r == WinWord) || (l == "" && r == "")
  }

  predicate NoKeyword(header: seq<string>) {
    forall i :: 0 <= i < |header| ==> !HasWin(header[i]) && !HasLose(header[i])
  }

  /** The result pair, decided by the distance from each side's line to the
      lines containing "Win" and "Lose". */
  function Outcomes(header: seq<string>, leftIdx: int, rightIdx: int): (r: (string, string))
    ensures IsResultPair(r.0, r.1)
    ensures r.0 == "" <==> NoKeyword(header)
  {
    var wins := Positions(header, HasWin);
    var loses := Positions(header, HasLose);
    if |wins| > 0 && |loses| > 0 then
      if MinDist(leftIdx, wins) <= MinDist(leftIdx, loses) then (WinWord, LoseWord) else (LoseWord, WinWord)
    else if |wins| > 0 then
      if MinDist(leftIdx, wins) <= MinDist(rightIdx, wins) then (WinWord, LoseWord) else (LoseWord, WinWord)
    else if |loses| > 0 then
      if MinDist(leftIdx, loses) <= MinDist(rightIdx, loses) then (LoseWord, WinWord) else (WinWord, LoseWord)
    else
      assert NoKeyword(header);
      ("", "")
  }

  // ------------------------------------------------------------ the rules

  /** Some line satisfying `p` is at least as close to line `a` as every line
      satisfying `q` is to line `b`: the comparison of two minimum distances,
      stated without computing a minimum. */
  ghost predicate SomeCloser(header: seq<string>, a: int, p: string -> bool, b: int, q: string -> bool) {
    exists i :: 0 <= i < |header| && p(header[i]) &&
      forall j :: 0 <= j < |header| && q(header[j]) ==> Dist(a, i) <= Dist(b, j)
  }

  ghost predicate AnyLine(header: seq<string>, p: string -> bool) {
    exists i :: 0 <= i < |header| && p(header[i])
  }

  lemma NoPositions(header: seq<string>, p: string -> bool)
    requires !AnyLine(header, p)
    ensures Positions(header, p) == []
  {
  }

  /** A "p" line that attains the smaller minimum is closer than every "q"
      line. */
  lemma MinDistCloser(header: seq<string>, a: int, p: string -> bool, b: int, q: string -> bool)
    requires |Positions(header, p)| > 0 && |Positions(header, q)| > 0
    requires MinDist(a, Positions(header, p)) <= MinDist(b, Positions(header, q))
    ensures SomeCloser(header, a, p, b, q)
  {
    var ps, qs := Positions(header, p), Positions(header, q);
    var mp := MinDist(a, ps);
    var k :| 0 <= k < |ps| && mp == Dist(a, ps[k]);
    var i := ps[k];
    forall j | 0 <= j < |header| && q(header[j]) ensures Dist(a, i) <= Dist(b, j) {
      assert j in qs;
    }
  }

  /** A "p" line closer than every "q" line bounds the minima. */
  lemma CloserMinDist(header: seq<string>, a: int, p: string -> bool, b: int, q: string -> bool)
    requires |Positions(header, p)| > 0 && |Positions(header, q)| > 0
    requires SomeCloser(header, a, p, b, q)
    ensures MinDist(a, Positions(header, p)) <= MinDist(b, Positions(header, q))
  {
    var ps, qs := Positions(header, p), Positions(header, q);
    var i :| 0 <= i < |header| && p(header[i]) &&
      forall j :: 0 <= j < |header| && q(header[j]) ==> Dist(a, i) <= Dist(b, j);
    assert i in ps;
    var m :| 0 <= m < |qs| && MinDist(b, qs) == Dist(b, qs[m]);
    assert Dist(a, i) <= Dist(b, qs[m]);
  }

  /** Comparing two minimum distances is the same as asking for a line that
      beats every line of the other kind. */
  lemma MinDistCompare(header: seq<string>, a: int, p: string -> bool, b: int, q: string -> bool)
    requires AnyLine(header, p) && AnyLine(header, q)
    ensures |Positions(header, p)| > 0 && |Positions(header, q)| > 0
    ensures MinDist(a, Positions(header, p)) <= MinDist(b, Positions(header, q)) <==> SomeCloser(header, a, p, b, q)
  {
    var i0 :| 0 <= i0 < |header| && p(header[i0]);
    var j0 :| 0 <= j0 < |header| && q(header[j0]);
    assert i0 in Positions(header, p) && j0 in Positions(header, q);
    if MinDist(a, Positions(header, p)) <= MinDist(b, Positions(header, q)) {
      MinDistCloser(header, a, p, b, q);
    }
    if SomeCloser(header, a, p, b, q) {
      CloserMinDist(header, a, p, b, q);
    }
  }

  /** "Win" and "Lose" both present: the left side wins iff a "Win" line is
      at least as close to it as every "Lose" line (a tie goes to "Win"). */
  lemma BothKeywordsRule(header: seq<string>, leftIdx: int, rightIdx: int)
    requires AnyLine(header, HasWin) && AnyLine(header, HasLose)
    ensures Outcomes(header, leftIdx, rightIdx).0 == WinWord <==> SomeCloser(header, leftIdx, HasWin, leftIdx, HasLose)
    ensures Outcomes(header, leftIdx, rightIdx).0 != WinWord ==> Outcomes(header, leftIdx, rightIdx) == (LoseWord, WinWord)
  {
    MinDistCompare(header, leftIdx, HasWin, leftIdx, HasLose);
  }

  /** "Win" and "Lose" both present: the right side gets the complement of
      the left side's result and its own distances are never consulted. */
  lemma BothKeywordsIgnoreRight(header: seq<string>, leftIdx: int, rightIdx: int, otherIdx: int)
    requires AnyLine(header, HasWin) && AnyLine(header, HasLose)
    ensures Outcomes(header, leftIdx, rightIdx) == Outcomes(header, leftIdx, otherIdx)
  {
    BothKeywordsRule(header, leftIdx, rightIdx);
    BothKeywordsRule(header, leftIdx, otherIdx);
  }

  /** With one keyword only, the side nearer to its lines gets it. */
  lemma OneKeywordOutcomes(header: seq<string>, leftIdx: int, rightIdx: int)
    ensures var ws, ls := Positions(header, HasWin), Positions(header, HasLose);
      var o := Outcomes(header, leftIdx, rightIdx);
      && (ls == [] && ws != [] ==> o == if MinDist(leftIdx, ws) <= MinDist(rightIdx, ws) then (WinWord, LoseWord) else (LoseWord, WinWord))
      && (ws == [] && ls != [] ==> o == if MinDist(leftIdx, ls) <= MinDist(rightIdx, ls) then (LoseWord, WinWord) else (WinWord, LoseWord))
  {
  }

  /** Only "Win" present: the left side wins iff it is at least as close to a
      "Win" line as the right side is (a tie goes to the left). */
  lemma OnlyWinRule(header: seq<string>, leftIdx: int, rightIdx: int)
    requires AnyLine(header, HasWin) && !AnyLine(header, HasLose)
    ensures Outcomes(header, leftIdx, rightIdx).0 == WinWord <==> SomeCloser(header, leftIdx, HasWin, rightIdx, HasWin)
    ensures Outcomes(header, leftIdx, rightIdx).0 != WinWord ==> Outcomes(header, leftIdx, rightIdx) == (LoseWord, WinWord)
  {
    NoPositions(header, HasLose);
    var i :| 0 <= i < |header| && HasWin(header[i]);
    assert i in Positions(header, HasWin);
    OneKeywordOutcomes(header, leftIdx, rightIdx);
    MinDistCompare(header, leftIdx, HasWin, rightIdx, HasWin);
  }

  /** Only "Lose" present: the left side loses iff it is at least as close to
      a "Lose" line as the right side is (a tie goes to the left). */
  lemma OnlyLoseRule(header: seq<string>, leftIdx: int, rightIdx: int)
    requires !AnyLine(header, HasWin) && AnyLine(header, HasLose)
    ensures Outcomes(header, leftIdx, rightIdx).0 == LoseWord <==> SomeCloser(header, leftIdx, HasLose, rightIdx, HasLose)
    ensures Outcomes(header, leftIdx, rightIdx).0 != LoseWord ==> Outcomes(header, leftIdx, rightIdx) == (WinWord, LoseWord)
  {
    NoPositions(header, HasWin);
    var i :| 0 <= i < |header| && HasLose(header[i]);
    assert i in Positions(header, HasLose);
    OneKeywordOutcomes(header, leftIdx, rightIdx);
    MinDistCompare(header, leftIdx, HasLose, rightIdx, HasLose);
  }

  /** With fewer than two level lines the placeholders are used and both
      sides sit at index -1; the outcomes are still inferred. */
  lemma PlaceholderHeader(header: seq<string>)
    requires FewerThanTwoLevelLines(header)
    ensures ParseHeader(header) ==
      Header(LeftPlaceholder, Outcomes(header, -1, -1).0, RightPlaceholder, Outcomes(header, -1, -1).1)
  {
  }

  /** Both sides at index -1 and only "Win" present: the distances tie, so
      the left side wins. */
  lemma PlaceholderOnlyWin(header: seq<string>)
    requires AnyLine(header, HasWin) && !AnyLine(header, HasLose)
    ensures Outcomes(header, -1, -1) == (WinWord, LoseWord)
  {
    NoPositions(header, HasLose);
    var i :| 0 <= i < |header| && HasWin(header[i]);
    assert i in Positions(header, HasWin);
  }

  /** Both sides at index -1 and only "Lose" present: the left side loses. */
  lemma PlaceholderOnlyLose(header: seq<string>)
    requires !AnyLine(header, HasWin) && AnyLine(header, HasLose)
    ensures Outcomes(header, -1, -1) == (LoseWord, WinWord)
  {
    NoPositions(header, HasWin);
    var i :| 0 <= i < |header| && HasLose(header[i]);
    assert i in Positions(header, HasLose);
  }

  /** Both sides at index -1 and both keywords present: the left side wins
      iff some "Win" line comes no later than every "Lose" line. */
  lemma PlaceholderBothKeywords(header: seq<string>)
    requires AnyLine(header, HasWin) && AnyLine(header, HasLose)
    ensures Outcomes(header, -1, -1).0 == WinWord <==>
      exists i :: 0 <= i < |header| && HasWin(header[i]) &&
        forall j :: 0 <= j < |header| && HasLose(header[j]) ==> i <= j
  {
    BothKeywordsRule(header, -1, -1);
  }

  function ParseHeader(header: seq<string>): (r: Header)
    ensures IsResultPair(r.leftResult, r.rightResult)
    ensures r.leftResult == "" <==> NoKeyword(header)
  {
    var s := LocatePlayers(header);
    var o := Outcomes(header, s.leftIdx, s.rightIdx);
    Header(s.leftPlayer, o.0, s.rightPlayer, o.1)
  }

  function ParseLines(lines: seq<string>): Header
  {
    ParseHeader(HeaderBlock(lines))
  }

  /** parse_ocr_text */
  function ParseOcrText(text: string): (r: Header)
    ensures IsResultPair(r.leftResult, r.rightResult)
    ensures r.leftResult == "" <==> NoKeyword(HeaderBlock(Lines(text)))
  {
    ParseLines(Lines(text))
  }
}
