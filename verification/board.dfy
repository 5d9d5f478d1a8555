/** The game board: five rows of as many cells as the target word has letters.
    A cell shows the letter of the guess in that row and column and is marked
    when that letter equals the target's letter in the same column. There is no
    marking for letters that occur elsewhere in the target. */
module Board {

  /** Rows drawn, whatever the number of guesses. */
  const BoardRows: int := 5

  /** The CSS class of a cell: "correct" or none. */
  datatype Grade = Match | Plain

  datatype Cell = Cell(letter: string, grade: Grade)

  /** The cell in row `r`, column `c`. A guess that is absent or empty is
      falsy in the component and shows an empty unmarked row; a column past
      the end of a shorter guess reads as undefined, which matches nothing. */
  function CellAt(words: seq<string>, target: string, r: int, c: int): (cell: Cell)
    requires 0 <= r < BoardRows && 0 <= c < |target|
    ensures cell.grade == Match <==> r < |words| && c < |words[r]| && words[r][c] == target[c]
    ensures cell.letter == if r < |words| && c < |words[r]| then [words[r][c]] else ""
  {
    if r < |words| && words[r] != "" then
      var guess := words[r];
      Cell(if c < |guess| then [guess[c]] else "",
           if c < |guess| && guess[c] == target[c] then Match else Plain)
    else
      Cell("", Plain)
  }

  /** The whole board, row by row. */
  function BoardOf(words: seq<string>, target: string): (b: seq<seq<Cell>>)
    ensures |b| == BoardRows
    ensures forall r :: 0 <= r < BoardRows ==> |b[r]| == |target|
    ensures forall r, c :: 0 <= r < BoardRows && 0 <= c < |target| ==> b[r][c] == CellAt(words, target, r, c)
  {
    seq(BoardRows, r requires 0 <= r < BoardRows =>
      seq(|target|, c requires 0 <= c < |target| => CellAt(words, target, r, c)))
  }

  /** Every recorded guess has the target's length. */
  predicate AllFit(words: seq<string>, target: string) {
    forall i :: 0 <= i < |words| ==> |words[i]| == |target|
  }

  /** What the board shows when every guess has the target's length: row `r`
      spells out guess `r` letter by letter, rows without a guess are empty and
      unmarked, and (for a non-empty target) a row is marked throughout exactly
      when its guess is the target. */
  lemma BoardShowsGuesses(words: seq<string>, target: string, r: int)
    requires AllFit(words, target) && 0 <= r < BoardRows
    ensures var b := BoardOf(words, target);
            (r < |words| ==> forall c :: 0 <= c < |target| ==> b[r][c].letter == [words[r][c]])
            && (r >= |words| ==> forall c :: 0 <= c < |target| ==> b[r][c] == Cell("", Plain))
            && (target != "" ==>
                  ((forall c :: 0 <= c < |target| ==> b[r][c].grade == Match)
                   <==> r < |words| && words[r] == target))
  {
    var b: seq<seq<Cell>> := BoardOf(words, target);
    if r < |words| {
      RowAllMatchIff(words, target, r);
    } else if target != "" {
      assert b[r][0].grade == Plain;
    }
  }

  /** A row whose guess has the target's length is fully marked exactly when
      the guess is the target, so the board agrees with the component's win
      test. */
  lemma RowAllMatchIff(words: seq<string>, target: string, r: int)
    requires 0 <= r < BoardRows && r < |words| && |words[r]| == |target|
    ensures (forall c :: 0 <= c < |target| ==> CellAt(words, target, r, c).grade == Match)
            <==> words[r] == target
  {
    if forall c :: 0 <= c < |target| ==> CellAt(words, target, r, c).grade == Match {
      forall c | 0 <= c < |target| ensures words[r][c] == target[c] {
        assert CellAt(words, target, r, c).grade == Match;
      }
    }
  }

  /** Only the first five guesses are ever drawn: the board is the same when
      every later guess is dropped. */
  lemma OnlyFirstRowsDrawn(words: seq<string>, target: string)
    requires |words| > BoardRows
    ensures BoardOf(words, target) == BoardOf(words[..BoardRows], target)
  {
    var b := BoardOf(words, target);
    var b' := BoardOf(words[..BoardRows], target);
    forall r | 0 <= r < BoardRows ensures b[r] == b'[r] {
      forall c | 0 <= c < |target| ensures b[r][c] == b'[r][c] {
        assert CellAt(words, target, r, c) == CellAt(words[..BoardRows], target, r, c);
      }
    }
  }
}
