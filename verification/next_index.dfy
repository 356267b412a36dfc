/** The search for the next free file number (generate.py, lines 8-13):
    starting from 1, the number is increased while "matrices/matrix<i>.txt"
    is among the listed files. The listing of the "matrices" directory
    (line 6) is taken here as a given sequence of paths. */
module IndexSearch {
  import opened Decimal

  const Prefix: string := "matrices/matrix"
  const Suffix: string := ".txt"

  /** `"matrices/matrix{}.txt".format(i)`. */
  function FileName(i: int): (path: string)
  {
    Prefix + IntToString(i) + Suffix
  }

  /** Reads the number back out of a name built by FileName. */
  function IndexOf(path: string): (i: int)
  {
    if |path| >= |Prefix| + |Suffix| then ParseInt(path[|Prefix| .. |path| - |Suffix|]) else 0
  }

  lemma {:induction false} IndexOfFileName(i: int)
    ensures IndexOf(FileName(i)) == i
  {
    var path := FileName(i);
    assert path[|Prefix| .. |path| - |Suffix|] == IntToString(i);
    ParseIntOfIntToString(i);
  }

  /** Distinct numbers give distinct file names. */
  lemma {:induction false} FileNameInjective(i: int, j: int)
    ensures FileName(i) == FileName(j) ==> i == j
  {
    IndexOfFileName(i);
    IndexOfFileName(j);
  }

  /** `k` is the first gap: the smallest positive number whose file name is
      not listed. */
  ghost predicate IsFirstGap(files: seq<string>, k: int) {
    && k >= 1
    && FileName(k) !in files
    && forall j :: 1 <= j < k ==> FileName(j) in files
  }

  /** The set of the names numbered 1 to k. */
  ghost function NamesUpTo(k: nat): (names: set<string>)
    decreases k
  {
    if k == 0 then {} else NamesUpTo(k - 1) + {FileName(k)}
  }

  lemma {:induction false} NamesUpToExcludesLater(k: nat, m: int)
    requires m > k
    ensures FileName(m) !in NamesUpTo(k)
    decreases k
  {
    if k > 0 {
      NamesUpToExcludesLater(k - 1, m);
      FileNameInjective(m, k);
    }
  }

  /** The names numbered 1 to k are k distinct strings. */
  lemma {:induction false} NamesUpToSize(k: nat)
    ensures |NamesUpTo(k)| == k
    decreases k
  {
    if k > 0 {
      NamesUpToSize(k - 1);
      NamesUpToExcludesLater(k - 1, k);
    }
  }

  lemma {:induction false} NamesUpToListed(files: seq<string>, k: nat)
    requires forall j :: 1 <= j <= k ==> FileName(j) in files
    ensures NamesUpTo(k) <= Elements(files)
    decreases k
  {
    if k > 0 {
      NamesUpToListed(files, k - 1);
      ElementsMembership(files, FileName(k));
    }
  }

  /** The distinct entries of the listing. */
  ghost function Elements(files: seq<string>): (set_of_files: set<string>)
    decreases |files|
  {
    if files == [] then {} else {files[0]} + Elements(files[1..])
  }

  lemma {:induction false} ElementsMembership(files: seq<string>, x: string)
    ensures x in Elements(files) <==> x in files
    decreases |files|
  {
    if files != [] {
      ElementsMembership(files[1..], x);
      assert files == [files[0]] + files[1..];
    }
  }

  lemma {:induction false} ElementsSize(files: seq<string>)
    ensures |Elements(files)| <= |files|
    decreases |files|
  {
    if files != [] {
      ElementsSize(files[1..]);
    }
  }

  lemma SubsetSize(a: set<string>, b: set<string>)
    requires a <= b
    ensures |a| <= |b|
  {
    assert b == a + (b - a);
  }

  /** Pigeonhole: if the names numbered 1 to k are all listed, the listing
      has at least k entries. */
  lemma {:induction false} ListedNamesBound(files: seq<string>, k: nat)
    requires forall j :: 1 <= j <= k ==> FileName(j) in files
    ensures k <= |files|
  {
    NamesUpToListed(files, k);
    NamesUpToSize(k);
    ElementsSize(files);
    SubsetSize(NamesUpTo(k), Elements(files));
  }

  /** The search from `i` on, when every number below `i` is taken. */
  function NextIndexFrom(files: seq<string>, i: int): (r: int)
    requires i >= 1
    requires forall j :: 1 <= j < i ==> FileName(j) in files
    ensures i <= r <= |files| + 1
    ensures IsFirstGap(files, r)
    decreases |files| + 1 - i
  {
    ListedNamesBound(files, i - 1);
    if FileName(i) in files then
      ListedNamesBound(files, i);
      NextIndexFrom(files, i + 1)
    else
      i
  }

  /** The number generate.py picks for the new file. */
  function NextIndex(files: seq<string>): (r: int)
  {
    NextIndexFrom(files, 1)
  }

  /** NextIndex is the first gap and nothing else, and it is at most one
      more than the number of listed files. */
  lemma NextIndexIsFirstGap(files: seq<string>, k: int)
    ensures 1 <= NextIndex(files) <= |files| + 1
    ensures IsFirstGap(files, k) <==> k == NextIndex(files)
  {
  }

  /** The number is 1 exactly when "matrices/matrix1.txt" is not listed; in
      particular for an empty listing or one without any such name. */
  lemma NextIndexIsOne(files: seq<string>)
    ensures NextIndex(files) == 1 <==> FileName(1) !in files
    ensures files == [] ==> NextIndex(files) == 1
  {
  }

  /** A gap is filled before numbering past the largest: with files 1 and 3
      present the new file is number 2, not 4. */
  lemma FillsFirstGap()
    ensures NextIndex(["matrices/matrix1.txt", "matrices/matrix3.txt"]) == 2
  {
    var files := ["matrices/matrix1.txt", "matrices/matrix3.txt"];
    assert FileName(1) == "matrices/matrix1.txt";
    assert FileName(2) == "matrices/matrix2.txt";
    NextIndexIsFirstGap(files, 2);
  }

  /** Once the new file exists, the next run picks a larger number: no two
      runs in sequence write the same file. */
  lemma NextIndexAfterCreate(files: seq<string>)
    ensures NextIndex(files + [FileName(NextIndex(files))]) > NextIndex(files)
  {
  }

  /** The loop of generate.py, lines 8-11. */
  method FindNextIndex(files: seq<string>) returns (i: int)
    ensures i == NextIndex(files)
    ensures i >= 1 && FileName(i) !in files
    ensures forall j :: 1 <= j < i ==> FileName(j) in files
    ensures i <= |files| + 1
  {
    i := 1;
    while FileName(i) in files
      invariant 1 <= i <= |files| + 1
      invariant forall j :: 1 <= j < i ==> FileName(j) in files
      decreases |files| + 1 - i
    {
      ListedNamesBound(files, i);
      i := i + 1;
    }
    NextIndexIsFirstGap(files, i);
  }
}
