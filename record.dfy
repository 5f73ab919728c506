/** The row process_image (app.py) hands on for confirmation: the date, then
    the attacking side's name, result and six characters, one empty column,
    then the defending side's name, result and six characters. The side whose
    icon slot shows the sword attacks. */
module Record {
  import opened HeaderParser

  /** One side of the row: player name, result and character names. */
  datatype Side = Side(player: string, result: string, chars: seq<string>)

  function LeftSide(h: Header, chars: seq<string>): Side {
    Side(h.leftPlayer, h.leftResult, chars)
  }

  function RightSide(h: Header, chars: seq<string>): Side {
    Side(h.rightPlayer, h.rightResult, chars)
  }

  /** The row as process_image builds it: the players and results are
      swapped on left_has_sword, then, by a second test of the same flag,
      the character lists. */
  function AssembleRow(date: string, h: Header, leftHasSword: bool, leftChars: seq<string>, rightChars: seq<string>): (row: seq<string>)
    ensures |row| == 6 + |leftChars| + |rightChars|
    ensures row[0] == date
  {
    var attackPlayer := if leftHasSword then h.leftPlayer else h.rightPlayer;
    var attackResult := if leftHasSword then h.leftResult else h.rightResult;
    var defensePlayer := if leftHasSword then h.rightPlayer else h.leftPlayer;
    var defenseResult := if leftHasSword then h.rightResult else h.leftResult;
    var attackChars := if leftHasSword then leftChars else rightChars;
    var defenseChars := if leftHasSword then rightChars else leftChars;
    [date, attackPlayer, attackResult] + attackChars + [""] + [defensePlayer, defenseResult] + defenseChars
  }

  /** Columns B to I of an 18-column row. */
  function AttackOf(row: seq<string>): Side
    requires |row| == 18
  {
    Side(row[1], row[2], row[3..9])
  }

  /** Columns K to R of an 18-column row. */
  function DefenseOf(row: seq<string>): Side
    requires |row| == 18
  {
    Side(row[10], row[11], row[12..18])
  }

  /** With six characters a side, the row has 18 columns, the tenth (index
      9) is empty, and reading the two blocks back gives the sword side
      whole, then the other side whole, each with its slots in region
      order. */
  lemma RowLayout(date: string, h: Header, leftHasSword: bool, leftChars: seq<string>, rightChars: seq<string>)
    requires |leftChars| == 6 && |rightChars| == 6
    ensures var row := AssembleRow(date, h, leftHasSword, leftChars, rightChars);
      && |row| == 18 && row[0] == date && row[9] == ""
      && AttackOf(row) == (if leftHasSword then LeftSide(h, leftChars) else RightSide(h, rightChars))
      && DefenseOf(row) == (if leftHasSword then RightSide(h, rightChars) else LeftSide(h, leftChars))
  {
    var row := AssembleRow(date, h, leftHasSword, leftChars, rightChars);
    var ac := if leftHasSword then leftChars else rightChars;
    var dc := if leftHasSword then rightChars else leftChars;
    assert row == [date, row[1], row[2]] + ac + [""] + [row[10], row[11]] + dc;
    assert row[3..9] == ac;
    assert row[12..18] == dc;
  }

  /** The two sides of a header swapped. */
  function Mirror(h: Header): Header {
    Header(h.rightPlayer, h.rightResult, h.leftPlayer, h.leftResult)
  }

  /** Without the sword on the left, the row is the one the mirrored screen
      would give with the sword on the left. */
  lemma SwapSymmetry(date: string, h: Header, leftChars: seq<string>, rightChars: seq<string>)
    ensures AssembleRow(date, h, false, leftChars, rightChars) == AssembleRow(date, Mirror(h), true, rightChars, leftChars)
  {
  }

  /** A complementary (or empty) result pair stays one in the row. */
  lemma RowResults(date: string, h: Header, leftHasSword: bool, leftChars: seq<string>, rightChars: seq<string>)
    requires |leftChars| == 6 && |rightChars| == 6
    requires IsResultPair(h.leftResult, h.rightResult)
    ensures var row := AssembleRow(date, h, leftHasSword, leftChars, rightChars);
      |row| == 18 && IsResultPair(row[2], row[11])
  {
    RowLayout(date, h, leftHasSword, leftChars, rightChars);
  }

  /** The row determines the header and both character lists once it is
      known which side had the sword. */
  lemma RowDetermines(date: string, h: Header, leftHasSword: bool, lc: seq<string>, rc: seq<string>,
                      h': Header, lc': seq<string>, rc': seq<string>)
    requires |lc| == 6 && |rc| == 6 && |lc'| == 6 && |rc'| == 6
    requires AssembleRow(date, h, leftHasSword, lc, rc) == AssembleRow(date, h', leftHasSword, lc', rc')
    ensures h == h' && lc == lc' && rc == rc'
  {
    RowLayout(date, h, leftHasSword, lc, rc);
    RowLayout(date, h', leftHasSword, lc', rc');
  }
}
