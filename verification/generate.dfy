/** The whole of generate.py, lines 6-19, with its inputs made parameters:
    the listing of "matrices/" (line 6), the size typed at the prompt
    (line 14) and the values `randint(-50, 50)` returns (line 18). The
    results are the path opened for writing and the text written to it. */
module Generate {
  import opened IndexSearch
  import opened MatrixText
  import opened Text

  method GenerateMatrixFile(files: seq<string>, n: int, draws: seq<seq<int>>)
    returns (filename: string, text: string)
    requires IsDrawGrid(draws, n)
    ensures filename == FileName(NextIndex(files))
    ensures filename !in files
    ensures text == MatrixFile(draws)
  {
    var i := FindNextIndex(files);
    filename := FileName(i);
    text := "";
    // The row loop reuses `i`; the path was fixed above.
    i := 0;
    while i < n
      invariant 0 <= i <= Max(n, 0)
      invariant filename == FileName(NextIndex(files))
      invariant text == MatrixFile(draws[..i])
    {
      TerminatedAppend(RowLines(draws[..i]), Row(draws[i]));
      assert RowLines(draws[..i + 1]) == RowLines(draws[..i]) + [Row(draws[i])];
      text := text + Row(draws[i]);
      text := text + "\n";
      i := i + 1;
    }
    assert draws[..i] == draws;
  }
}
