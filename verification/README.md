# Matrix file generator, modelled in Dafny

`generate.py` writes a square matrix of random integers in `[-50, 50]` to a
new numbered file `matrices/matrix<N>.txt`. It first looks for the file
number: starting at 1, it counts up while the name for that number is in
the listing of `matrices/`, so it picks the first unused number (the first
gap), not one past the largest. It then reads the size `n` and writes `n`
lines. Each line is `n` values in decimal, separated by single spaces, and
ends with `"\n"`.

The model has five modules:

- `Decimal` (`decimal.dfy`): Python's `str` of an integer (`IntToString`) and
  its inverse `ParseInt`. They are inverse bijections between the integers and
  the decimal numerals. So distinct numbers get distinct names, and a written
  value can be read back.
- `Text` (`text.dfy`): Python's `sep.join(parts)` and `s.split(sep)`, and text
  written as newline-terminated lines. Splitting a join gives back the parts.
- `IndexSearch` (`next_index.dfy`): the file name, the next-index function and
  the search loop as a method. The loop ends because the listing is finite and
  the names for 1..k are k distinct strings (a pigeonhole bound), so the index
  is at most one more than the listing's length.
- `MatrixText` (`matrix_text.dfy`): the text of one row and of the whole file.
  It also gives the shape of that text, and a reader that recovers the drawn
  values from it.
- `Generate` (`generate.dfy`): the script from the listing to the written
  text. It includes the write loop, which reuses `i` as the row counter after
  the path has been fixed.

The values `randint(-50, 50)` returns are an input: a grid `draws` of
`max(n, 0)` rows of `n` values, each in `[-50, 50]` (`IsDrawGrid`). The
directory listing is an input `files: seq<string>`, where membership is list
membership as in the script. The size is an input `n: int`. The file's content
is the string the loop builds up.

## Model

| member | source | states |
|---|---|---|
| `Decimal.ParseIntOfIntToString` | generate.py:18 | reading back the decimal form of any integer gives that integer |
| `Decimal.IntToStringInjective` | generate.py:10 | distinct integers have distinct decimal forms |
| `Decimal.IntToStringIsDecimal` | generate.py:18 | `str(v)` is a canonical decimal numeral (optional `-`, no leading zero, no `-0`) made only of digits and `-` |
| `Decimal.IntToStringOfParseInt` | generate.py:18 | every canonical decimal numeral is the `str` of the integer it denotes (converse of the round trip) |
| `Decimal.SmallIntToStringLength` | generate.py:18 | a value in `[-50, 50]` is written with 1 to 3 characters |
| `Decimal.NatToStringLength` | generate.py:10 | a rendering starts with `0` only for 0; it has one digit below 10 and at most two below 100 |
| `Text.SplitJoin` | generate.py:18 | `" ".join` of parts without a space, split on `" "`, gives the parts back |
| `Text.JoinEnds` | generate.py:18 | a join of non-empty parts starts with the first part's first character and ends with the last part's last character |
| `Text.SplitTerminated` | generate.py:17-19 | text written line by line, each followed by `"\n"`, splits on `"\n"` into exactly those lines plus a final empty piece |
| `Text.TerminatedAppend` | generate.py:19 | writing one more line and then `"\n"` extends the text by exactly those characters |
| `Text.TerminatedEndsWithNewline` | generate.py:17-19 | text of at least one line ends with `"\n"` |
| `IndexSearch.IndexOfFileName` | generate.py:13 | the number can be read back from `"matrices/matrix{}.txt".format(i)` |
| `IndexSearch.FileNameInjective` | generate.py:10 | distinct numbers give distinct file names |
| `IndexSearch.NamesUpToSize` | generate.py:10-11 | the names for 1..k are k distinct strings |
| `IndexSearch.ListedNamesBound` | generate.py:10-11 | if the names for 1..k are all listed, the listing has at least k entries (pigeonhole) |
| `IndexSearch.NextIndexFrom` | generate.py:8-11 | searching from `i` with every number below `i` taken returns the first gap, with `i <= r <= |files| + 1` |
| `IndexSearch.NextIndexIsFirstGap` | generate.py:8-11 | the chosen number is at least 1 and at most `|files| + 1`; a number is the smallest positive one whose name is unlisted exactly when it is the chosen number |
| `IndexSearch.NextIndexIsOne` | generate.py:8-10 | the number is 1 exactly when `matrix1.txt` is not listed, and always for an empty listing |
| `IndexSearch.FillsFirstGap` | generate.py:8-11 | with `matrix1.txt` and `matrix3.txt` listed the number is 2, not 4 |
| `IndexSearch.NextIndexAfterCreate` | generate.py:8-13 | once the chosen file is added to the listing, the next search picks a larger number |
| `IndexSearch.FindNextIndex` | generate.py:8-11 | the loop terminates and returns `NextIndex(files)`: at least 1, unlisted, every smaller positive number listed, at most `|files| + 1` |
| `MatrixText.RowCharacters` | generate.py:18 | a line holds only digits, `-` and spaces |
| `MatrixText.RowHasNoNewline` | generate.py:18 | a line holds no `"\n"` |
| `MatrixText.RowTokens` | generate.py:18 | a row of at least one value splits on `" "` into exactly the decimal forms of its values, one per value, with no leading or trailing space |
| `MatrixText.MatrixFileLines` | generate.py:17-19 | the file splits on `"\n"` into one line per row, then an empty piece |
| `MatrixText.MatrixFileShape` | generate.py:16-19 | for size `n` the file has exactly `max(n, 0)` lines, each ended by `"\n"`; it is empty exactly when `n <= 0`; each line has exactly `n` space-separated tokens, each the decimal form of its drawn value and inside `[-50, 50]` |
| `MatrixText.ParseMatrixFile` | generate.py:16-19 | reading the file back gives exactly the drawn grid |
| `Generate.GenerateMatrixFile` | generate.py:6-19 | the path is the name of `NextIndex(files)` and is not in the listing, even though `i` is reused as the row counter; the text written is `MatrixFile(draws)` |

## Left out

- The directory listing `glob("matrices/*")` (generate.py:6) is an input `files`. The model does not include how the directory is read. On a platform whose glob returns paths with another separator, the membership test would never match, and that is not modelled.
- The prompt and `int(input(...))` (generate.py:14) are left out. The size is an input `n: int`, so the failure on non-numeric input, and the signs, whitespace and underscores that `int` accepts, are not modelled.
- `randint(-50, 50)` (generate.py:18) is left out. Its results are the input grid `draws`, which may hold any values in the range. The uniform distribution is not modelled.
- `open` and `file.write` (generate.py:16-19) are left out. The file content is the string built up in order, and write failures, a missing `matrices/` directory and partial files are not modelled.
- The two `print` calls (generate.py:4, 21) only produce output.
- Two runs at once choosing the same number is a filesystem race outside the script's logic.
