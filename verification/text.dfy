/** The string operations the generator's output is built from and read back
    with: Python's `sep.join(parts)`, `s.split(sep)` with an explicit one-
    character separator, and a sequence of lines each written followed by
    "\n". */
module Text {

  /** Python's `sep.join(parts)`: the parts with one separator between
      neighbours; the empty list joins to "". */
  function Join(parts: seq<string>, sep: char): (s: string)
    decreases |parts|
  {
    if parts == [] then ""
    else if |parts| == 1 then parts[0]
    else parts[0] + [sep] + Join(parts[1..], sep)
  }

  /** Python's `s.split(sep)` for a one-character separator: the maximal
      separator-free pieces, empty pieces included; "" splits to [""]. */
  function Split(s: string, sep: char): (pieces: seq<string>)
    ensures |pieces| >= 1
    decreases |s|
  {
    if s == [] then [""]
    else
      var rest := Split(s[1..], sep);
      if s[0] == sep then [""] + rest
      else [[s[0]] + rest[0]] + rest[1..]
  }

  /** The text written by `write(line); write("\n")` for each line in turn. */
  function Terminated(lines: seq<string>): (s: string)
    decreases |lines|
  {
    if lines == [] then "" else lines[0] + "\n" + Terminated(lines[1..])
  }

  lemma {:induction false} SplitWithoutSeparator(t: string, sep: char)
    requires sep !in t
    ensures Split(t, sep) == [t]
    decreases |t|
  {
    if t != [] {
      SplitWithoutSeparator(t[1..], sep);
      assert [t[0]] + t[1..] == t;
    }
  }

  /** Splitting at the first separator peels off the piece before it. */
  lemma {:induction false} SplitAtSeparator(t: string, sep: char, u: string)
    requires sep !in t
    ensures Split(t + [sep] + u, sep) == [t] + Split(u, sep)
    decreases |t|
  {
    var s := t + [sep] + u;
    if t == [] {
      assert s[1..] == u;
    } else {
      assert s[1..] == t[1..] + [sep] + u;
      SplitAtSeparator(t[1..], sep, u);
      assert [t[0]] + t[1..] == t;
    }
  }

  /** Splitting a join gives back the parts, provided none of them holds the
      separator. */
  lemma {:induction false} SplitJoin(parts: seq<string>, sep: char)
    requires |parts| >= 1
    requires forall k :: 0 <= k < |parts| ==> sep !in parts[k]
    ensures Split(Join(parts, sep), sep) == parts
    decreases |parts|
  {
    if |parts| == 1 {
      SplitWithoutSeparator(parts[0], sep);
    } else {
      SplitJoin(parts[1..], sep);
      SplitAtSeparator(parts[0], sep, Join(parts[1..], sep));
    }
  }

  /** Every character of a join is the separator or a character of one of
      the parts. */
  lemma {:induction false} JoinCharacters(parts: seq<string>, sep: char, i: nat)
    requires i < |Join(parts, sep)|
    ensures Join(parts, sep)[i] == sep || exists k :: 0 <= k < |parts| && Join(parts, sep)[i] in parts[k]
    decreases |parts|
  {
    var s := Join(parts, sep);
    if |parts| >= 2 && i >= |parts[0]| + 1 {
      var r := Join(parts[1..], sep);
      assert s[i] == r[i - |parts[0]| - 1];
      JoinCharacters(parts[1..], sep, i - |parts[0]| - 1);
      if s[i] != sep {
        var k :| 0 <= k < |parts[1..]| && r[i - |parts[0]| - 1] in parts[1..][k];
        assert s[i] in parts[k + 1];
      }
    } else if |parts| >= 2 && i < |parts[0]| {
      assert s[i] == parts[0][i];
    } else if |parts| == 1 {
      assert s[i] in parts[0];
    }
  }

  /** A join of non-empty parts starts with the first part's first character
      and ends with the last part's last character, so it has no separator
      at either end when the parts have none. */
  lemma {:induction false} JoinEnds(parts: seq<string>, sep: char)
    requires |parts| >= 1
    requires forall k :: 0 <= k < |parts| ==> |parts[k]| >= 1
    ensures |Join(parts, sep)| >= 1
    ensures Join(parts, sep)[0] == parts[0][0]
    ensures Join(parts, sep)[|Join(parts, sep)| - 1] == parts[|parts| - 1][|parts[|parts| - 1]| - 1]
    decreases |parts|
  {
    if |parts| >= 2 {
      JoinEnds(parts[1..], sep);
    }
  }

  /** Splitting newline-terminated lines on "\n" gives the lines followed by
      the empty piece after the last terminator. */
  lemma {:induction false} SplitTerminated(lines: seq<string>)
    requires forall k :: 0 <= k < |lines| ==> '\n' !in lines[k]
    ensures Split(Terminated(lines), '\n') == lines + [""]
    decreases |lines|
  {
    if lines != [] {
      SplitTerminated(lines[1..]);
      SplitAtSeparator(lines[0], '\n', Terminated(lines[1..]));
      assert lines[0] + "\n" == lines[0] + ['\n'];
      assert [lines[0]] + lines[1..] == lines;
    }
  }

  /** Writing one more line appends it and its terminator to the text. */
  lemma {:induction false} TerminatedAppend(lines: seq<string>, line: string)
    ensures Terminated(lines + [line]) == Terminated(lines) + line + "\n"
    decreases |lines|
  {
    if lines != [] {
      TerminatedAppend(lines[1..], line);
      assert (lines + [line])[1..] == lines[1..] + [line];
    }
  }

  /** Non-empty output ends with a newline: every line is terminated. */
  lemma {:induction false} TerminatedEndsWithNewline(lines: seq<string>)
    requires lines != []
    ensures |Terminated(lines)| >= 1 && Terminated(lines)[|Terminated(lines)| - 1] == '\n'
    decreases |lines|
  {
    if |lines| >= 2 {
      TerminatedEndsWithNewline(lines[1..]);
    }
  }
}
