/** The text of a matrix file (generate.py, lines 16-19): one line per row,
    the row's values in decimal joined by single spaces, each line ended by
    "\n". The values `randint(-50, 50)` produces are taken as a given grid of
    draws, row by row. */
module MatrixText {
  import opened Decimal
  import opened Text

  const Low: int := -50
  const High: int := 50

  function Max(a: int, b: int): (m: int)
    ensures m >= a && m >= b && (m == a || m == b)
  {
    if a >= b then a else b
  }

  /** What `n` rounds of `n` calls to `randint(-50, 50)` can produce: for a
      size `n <= 0`, no row at all. */
  predicate IsDrawGrid(draws: seq<seq<int>>, n: int) {
    && |draws| == Max(n, 0)
    && (forall r :: 0 <= r < |draws| ==> |draws[r]| == n)
    && (forall r, c :: 0 <= r < |draws| && 0 <= c < |draws[r]| ==> Low <= draws[r][c] <= High)
  }

  /** `[str(v) for v in row]`. */
  function Tokens(row: seq<int>): (tokens: seq<string>)
  {
    seq(|row|, c requires 0 <= c < |row| => IntToString(row[c]))
  }

  /** `" ".join(...)` of the row's decimal forms: one line without its
      terminator. */
  function Row(row: seq<int>): (line: string)
  {
    Join(Tokens(row), ' ')
  }

  function RowLines(grid: seq<seq<int>>): (lines: seq<string>)
  {
    seq(|grid|, r requires 0 <= r < |grid| => Row(grid[r]))
  }

  /** The whole file: every row's line followed by "\n". */
  function MatrixFile(grid: seq<seq<int>>): (text: string)
  {
    Terminated(RowLines(grid))
  }

  /** Reads one line back into its values. */
  function ParseRow(line: string): (row: seq<int>)
  {
    var tokens := Split(line, ' ');
    seq(|tokens|, c requires 0 <= c < |tokens| => ParseInt(tokens[c]))
  }

  /** Reads a whole file back: the pieces between newlines, without the
      empty piece after the last one. */
  function ParseMatrix(text: string): (grid: seq<seq<int>>)
  {
    var pieces := Split(text, '\n');
    var lines := pieces[..|pieces| - 1];
    seq(|lines|, r requires 0 <= r < |lines| => ParseRow(lines[r]))
  }

  /** A line is made of digits, minus signs and spaces only. */
  lemma {:induction false} RowCharacters(row: seq<int>, i: nat)
    requires i < |Row(row)|
    ensures Row(row)[i] == ' ' || Row(row)[i] == '-' || IsDigit(Row(row)[i])
  {
    var tokens := Tokens(row);
    JoinCharacters(tokens, ' ', i);
    var ch := Row(row)[i];
    if ch != ' ' {
      var k :| 0 <= k < |tokens| && ch in tokens[k];
      IntToStringIsDecimal(row[k]);
    }
  }

  lemma RowHasNoNewline(row: seq<int>)
    ensures '\n' !in Row(row)
  {
    forall i | 0 <= i < |Row(row)| ensures Row(row)[i] != '\n' {
      RowCharacters(row, i);
    }
  }

  /** Splitting a line on " " gives exactly the decimal forms of the row's
      values, one token per value, and the line neither starts nor ends with
      a space. */
  lemma {:induction false} RowTokens(row: seq<int>)
    requires |row| >= 1
    ensures Split(Row(row), ' ') == Tokens(row)
    ensures |Split(Row(row), ' ')| == |row|
    ensures |Row(row)| >= 1 && Row(row)[0] != ' ' && Row(row)[|Row(row)| - 1] != ' '
  {
    var tokens := Tokens(row);
    forall k | 0 <= k < |tokens| ensures ' ' !in tokens[k] && |tokens[k]| >= 1 {
      IntToStringIsDecimal(row[k]);
    }
    SplitJoin(tokens, ' ');
    JoinEnds(tokens, ' ');
  }

  /** Splitting the file on "\n" gives one line per row, then the empty
      piece after the final terminator. */
  lemma {:induction false} MatrixFileLines(grid: seq<seq<int>>)
    ensures Split(MatrixFile(grid), '\n') == RowLines(grid) + [""]
  {
    var lines := RowLines(grid);
    forall r | 0 <= r < |lines| ensures '\n' !in lines[r] {
      RowHasNoNewline(grid[r]);
    }
    SplitTerminated(lines);
  }

  /** The shape of the file written for size `n`: exactly `max(n, 0)` lines,
      each ended by "\n", the file empty for `n <= 0`; each line splits on " "
      into exactly `n` tokens, the decimal forms of values in [-50, 50]. */
  lemma {:induction false} MatrixFileShape(draws: seq<seq<int>>, n: int)
    requires IsDrawGrid(draws, n)
    ensures var pieces := Split(MatrixFile(draws), '\n');
      && |pieces| == Max(n, 0) + 1
      && pieces[Max(n, 0)] == ""
      && forall r :: 0 <= r < Max(n, 0) ==>
           && |Split(pieces[r], ' ')| == n
           && |pieces[r]| >= 1 && pieces[r][0] != ' ' && pieces[r][|pieces[r]| - 1] != ' '
           && forall c :: 0 <= c < n ==>
                && Split(pieces[r], ' ')[c] == IntToString(draws[r][c])
                && IsDecimal(Split(pieces[r], ' ')[c])
                && Low <= ParseInt(Split(pieces[r], ' ')[c]) <= High
    ensures n <= 0 <==> MatrixFile(draws) == ""
    ensures n > 0 ==> MatrixFile(draws)[|MatrixFile(draws)| - 1] == '\n'
  {
    MatrixFileLines(draws);
    var pieces := Split(MatrixFile(draws), '\n');
    forall r | 0 <= r < Max(n, 0)
      ensures |Split(pieces[r], ' ')| == n
      ensures |pieces[r]| >= 1 && pieces[r][0] != ' ' && pieces[r][|pieces[r]| - 1] != ' '
      ensures forall c :: 0 <= c < n ==>
                && Split(pieces[r], ' ')[c] == IntToString(draws[r][c])
                && IsDecimal(Split(pieces[r], ' ')[c])
                && Low <= ParseInt(Split(pieces[r], ' ')[c]) <= High
    {
      RowTokens(draws[r]);
      forall c | 0 <= c < n
        ensures IsDecimal(IntToString(draws[r][c]))
        ensures ParseInt(IntToString(draws[r][c])) == draws[r][c]
      {
        IntToStringIsDecimal(draws[r][c]);
        ParseIntOfIntToString(draws[r][c]);
      }
    }
    if n > 0 {
      TerminatedEndsWithNewline(RowLines(draws));
    } else {
      assert RowLines(draws) == [];
    }
  }

  /** The file determines the matrix: reading it back gives the drawn values,
      for every size `n >= 1`. */
  lemma {:induction false} ParseMatrixFile(grid: seq<seq<int>>)
    requires forall r :: 0 <= r < |grid| ==> |grid[r]| >= 1
    ensures ParseMatrix(MatrixFile(grid)) == grid
  {
    MatrixFileLines(grid);
    var lines := RowLines(grid);
    var back := ParseMatrix(MatrixFile(grid));
    assert |back| == |grid|;
    forall r | 0 <= r < |grid| ensures back[r] == grid[r] {
      RowTokens(grid[r]);
      assert back[r] == ParseRow(lines[r]);
      forall c | 0 <= c < |grid[r]| ensures back[r][c] == grid[r][c] {
        ParseIntOfIntToString(grid[r][c]);
      }
    }
  }
}
