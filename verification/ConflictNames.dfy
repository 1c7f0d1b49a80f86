/** Names for entries in conflict: splitting off an extension (libkbfs/conflict_renamer.go) and finding a name that is
    not taken (libkbfs/cr_actions.go). */
module ConflictNames {
  import opened Outcomes

  // ---------- Extensions ----------

  predicate IsSlash(c: char) {
    c == '/' || c == '\\'
  }

  /** The characters that end the search for an extension. */
  predicate IsMark(c: char) {
    c == '.' || IsSlash(c) || c == ' '
  }

  datatype Split = Split(base: string, ext: string)

  /** The last mark after the first character and before position n, or 0. */
  function LastMark(path: string, n: nat): (i: nat)
    requires n <= |path|
    ensures i == 0 || (i < n && IsMark(path[i]))
    ensures forall j :: i < j < n ==> !IsMark(path[j])
  {
    if n <= 1 then 0 else if IsMark(path[n - 1]) then n - 1 else LastMark(path, n - 1)
  }

  /** Where the extension starts if its last dot is at i. */
  function ExtStart(path: string, i: nat): (k: nat)
    requires i < |path|
    ensures k <= i
  {
    if i >= 4 && path[i - 4..i] == ".tar" then i - 4 else i
  }

  function SplitAt(path: string): Split {
    var i := LastMark(path, |path|);
    if i == 0 || path[i] != '.' then Split(path, "")
    else
      var k := ExtStart(path, i);
      if k == 0 || IsSlash(path[k - 1]) then Split(path, "") else Split(path[..k], path[k..])
  }

  /** Base and extension make up the name. */
  lemma SplitConcats(path: string)
    ensures SplitAt(path).base + SplitAt(path).ext == path
  {
  }

  predicate NoMarks(s: string) {
    forall j :: 0 <= j < |s| ==> s[j] !in "./\\ "
  }

  /** An extension is a dot, or ".tar.", and then no further mark; and it is not the whole of the last part of the
      path. */
  lemma SplitIsExtension(path: string) returns (w: string)
    requires SplitAt(path).ext != ""
    ensures var s := SplitAt(path);
            && (s.ext == "." + w || s.ext == ".tar." + w) && NoMarks(w)
            && s.base != "" && s.base[|s.base| - 1] !in "/\\"
  {
    var i := LastMark(path, |path|);
    w := path[i + 1..];
    assert path[i..] == "." + w;
    if ExtStart(path, i) != i {
      assert path[i - 4..] == path[i - 4..i] + path[i..];
      assert ".tar" + ("." + w) == ".tar." + w;
    }
  }

  lemma {:induction false} LastMarkAt(path: string, n: nat, i: nat)
    requires 0 < i < n <= |path| && IsMark(path[i]) && forall j :: i < j < n ==> !IsMark(path[j])
    ensures LastMark(path, n) == i
  {
    if i < n - 1 {
      LastMarkAt(path, n - 1, i);
    }
  }

  predicate EndsIn(s: string, end: string) {
    |s| >= |end| && s[|s| - |end|..] == end
  }

  lemma LastDot(front: string, w: string)
    requires front != "" && NoMarks(w)
    ensures var path := front + ("." + w);
            |front| < |path| && path[|front|] == '.' && LastMark(path, |path|) == |front|
  {
    var path := front + ("." + w);
    assert forall j :: |front| < j < |path| ==> path[j] == w[j - |front| - 1];
    LastMarkAt(path, |path|, |front|);
  }

  lemma StartOfExtension(stem: string, tar: string, rest: string)
    requires rest != "" && (tar == ".tar" || (tar == "" && !EndsIn(stem, ".tar")))
    ensures ExtStart(stem + tar + rest, |stem + tar|) == |stem|
  {
    var path, i := stem + tar + rest, |stem + tar|;
    if tar == ".tar" {
      assert path[i - 4..i] == tar;
    } else if i >= 4 {
      assert path[i - 4..i] == stem[i - 4..];
    }
  }

  /** The other way round: a dot, or ".tar.", and then no further mark is split off any nonempty stem that does not end
      in a slash; ".tar" is never left behind. */
  lemma ExtensionIsSplit(stem: string, tar: string, w: string)
    requires stem != "" && stem[|stem| - 1] !in "/\\" && NoMarks(w)
    requires tar == ".tar" || (tar == "" && !EndsIn(stem, ".tar"))
    ensures SplitAt(stem + tar + ("." + w)) == Split(stem, tar + ("." + w))
  {
    var path := stem + tar + ("." + w);
    LastDot(stem + tar, w);
    StartOfExtension(stem, tar, "." + w);
    assert path[|stem| - 1] == stem[|stem| - 1];
    assert path[..|stem|] == stem && path[|stem|..] == tar + ("." + w);
  }

  method SplitExtension(path: string) returns (base: string, ext: string)
    ensures Split(base, ext) == SplitAt(path)
  {
    var i := |path| - 1;
    while i > 0
      invariant path != "" ==> 0 <= i < |path| && LastMark(path, |path|) == LastMark(path, i + 1)
      invariant path == "" ==> i == -1
      decreases i
    {
      if path[i] == '.' {
        if i >= 4 && path[i - 4..i] == ".tar" {
          i := i - 4;
        }
        if i == 0 || IsSlash(path[i - 1]) {
          return path, "";
        }
        return path[..i], path[i..];
      } else if IsMark(path[i]) {
        return path, "";
      }
      i := i - 1;
    }
    return path, "";
  }

  // ---------- Numbered names ----------

  const TRIES: int := 100

  function Digit(d: nat): char
    requires d < 10
  {
    '0' + d as char
  }

  function Decimal(n: nat): (s: string)
    ensures s != ""
  {
    if n < 10 then [Digit(n)] else Decimal(n / 10) + [Digit(n % 10)]
  }

  predicate IsDigits(s: string) {
    forall j :: 0 <= j < |s| ==> '0' <= s[j] <= '9'
  }

  /** The number that a string of digits writes. */
  function Value(s: string): nat
    requires IsDigits(s)
  {
    if s == "" then 0 else 10 * Value(s[..|s| - 1]) + (s[|s| - 1] as int - '0' as int)
  }

  /** Decimal writes its number, without a leading zero. */
  lemma {:induction false} DecimalWrites(n: nat)
    ensures var s := Decimal(n); IsDigits(s) && Value(s) == n && (s[0] == '0' ==> n == 0)
  {
    if n >= 10 {
      DecimalWrites(n / 10);
      assert Decimal(n)[..|Decimal(n)| - 1] == Decimal(n / 10);
    }
  }

  /** The names that are tried: the name itself, and then numbered ones. */
  function Candidate(name: string, i: nat): string {
    if i == 0 then name else SplitAt(name).base + " (" + Decimal(i) + ")" + SplitAt(name).ext
  }

  /** The number stands in the name between base and extension. */
  lemma NumberIn(base: string, number: string, ext: string)
    ensures var x := base + " (" + number + ")" + ext; x[|base| + 2..|x| - |ext| - 1] == number
  {
  }

  lemma NumberedIsLonger(name: string, i: nat)
    requires i > 0
    ensures |Candidate(name, i)| > |name|
  {
    SplitConcats(name);
    assert |name| == |SplitAt(name).base| + |SplitAt(name).ext|;
  }

  lemma NumbersDistinct(base: string, m: string, n: string, ext: string)
    requires base + " (" + m + ")" + ext == base + " (" + n + ")" + ext
    ensures m == n
  {
    NumberIn(base, m, ext);
    NumberIn(base, n, ext);
  }

  lemma CandidatesDistinct(name: string, i: nat, j: nat)
    requires Candidate(name, i) == Candidate(name, j)
    ensures i == j
  {
    if i > 0 {
      NumberedIsLonger(name, i);
    }
    if j > 0 {
      NumberedIsLonger(name, j);
    }
    if i > 0 && j > 0 {
      NumbersDistinct(SplitAt(name).base, Decimal(i), Decimal(j), SplitAt(name).ext);
      DecimalWrites(i);
      DecimalWrites(j);
    }
  }

  function Names(name: string, n: nat): (names: seq<string>)
    ensures |names| == n
  {
    if n == 0 then [] else Names(name, n - 1) + [Candidate(name, n - 1)]
  }

  lemma {:induction false} NamesAt(name: string, n: nat, i: nat)
    requires i < n
    ensures Names(name, n)[i] == Candidate(name, i)
  {
    if i < n - 1 {
      NamesAt(name, n - 1, i);
    }
  }

  predicate Distinct<T(==)>(names: seq<T>) {
    forall i, j :: 0 <= i < j < |names| ==> names[i] != names[j]
  }

  lemma NamesDistinct(name: string, n: nat)
    ensures Distinct(Names(name, n))
  {
    var names := Names(name, n);
    forall i, j | 0 <= i < j < |names|
      ensures names[i] != names[j]
    {
      NamesAt(name, n, i);
      NamesAt(name, n, j);
      if Candidate(name, i) == Candidate(name, j) {
        CandidatesDistinct(name, i, j);
      }
    }
  }

  /** The first name from the i-th on that is not taken. */
  function FirstFree<T(==)>(taken: set<T>, names: seq<T>, i: nat): Option<T>
    requires i <= |names|
    decreases |names| - i
  {
    if i == |names| then None
    else if names[i] !in taken then Some(names[i])
    else FirstFree(taken, names, i + 1)
  }

  function UniqueName(taken: set<string>, name: string): Option<string> {
    FirstFree(taken, Names(name, TRIES + 1), 0)
  }

  /** Name j is the first one from i on that is not taken. */
  ghost predicate IsFirstFree<T>(taken: set<T>, names: seq<T>, i: int, j: int) {
    0 <= i <= j < |names| && names[j] !in taken && forall k :: i <= k < j ==> names[k] in taken
  }

  lemma {:induction false} FirstFreeIs<T>(taken: set<T>, names: seq<T>, i: nat)
    requires i <= |names|
    ensures var r := FirstFree(taken, names, i);
            && (r.Some? ==> exists j :: IsFirstFree(taken, names, i, j) && r.value == names[j])
            && (r.None? <==> forall j :: i <= j < |names| ==> names[j] in taken)
    decreases |names| - i
  {
    if i < |names| {
      FirstFreeIs(taken, names, i + 1);
      if names[i] !in taken {
        assert IsFirstFree(taken, names, i, i);
      } else if FirstFree(taken, names, i).Some? {
        var j :| IsFirstFree(taken, names, i + 1, j) && FirstFree(taken, names, i).value == names[j];
        assert IsFirstFree(taken, names, i, j);
      }
    }
  }

  lemma {:induction false} DistinctSize<T>(names: seq<T>, taken: set<T>)
    requires Distinct(names) && forall j :: 0 <= j < |names| ==> names[j] in taken
    ensures |names| <= |taken|
  {
    if |names| > 0 {
      DistinctSize(names[..|names| - 1], taken - {names[|names| - 1]});
    }
  }

  /** A name that is found is the first of the candidates that is not taken; none is found exactly when all are taken,
      which needs more than a hundred. */
  lemma UniqueNameIsFree(taken: set<string>, name: string)
    ensures var r, names := UniqueName(taken, name), Names(name, TRIES + 1);
            && (r.Some? ==> r.value !in taken)
            && (r.Some? ==> exists j :: IsFirstFree(taken, names, 0, j) && r.value == Candidate(name, j))
            && (r.None? <==> forall j :: 0 <= j < |names| ==> names[j] in taken)
            && (r.None? ==> |taken| > TRIES)
  {
    var names := Names(name, TRIES + 1);
    FirstFreeIs(taken, names, 0);
    NamesDistinct(name, TRIES + 1);
    if UniqueName(taken, name).None? {
      DistinctSize(names, taken);
    } else {
      var j :| IsFirstFree(taken, names, 0, j) && UniqueName(taken, name).value == names[j];
      NamesAt(name, TRIES + 1, j);
    }
  }

  lemma FoundNameIsFree(taken: set<string>, name: string)
    ensures UniqueName(taken, name).Some? ==> UniqueName(taken, name).value !in taken
  {
    UniqueNameIsFree(taken, name);
  }

  method UniquifyName(taken: set<string>, name: string) returns (r: Option<string>)
    ensures r == UniqueName(taken, name)
  {
    ghost var names := Names(name, TRIES + 1);
    NamesAt(name, TRIES + 1, 0);
    if name !in taken {
      return Some(name);
    }
    var base, ext := SplitExtension(name);
    var i: nat := 1;
    while i <= TRIES
      invariant 1 <= i <= TRIES + 1 && FirstFree(taken, names, 0) == FirstFree(taken, names, i)
    {
      var newName := base + " (" + Decimal(i) + ")" + ext;
      NamesAt(name, TRIES + 1, i);
      if newName !in taken {
        return Some(newName);
      }
      i := i + 1;
    }
    return None;
  }
}
