/** An append-only list of entries kept in files named by ordinals (libkbfs/disk_journal.go). */
module DiskJournal {
  import opened Outcomes

  // ---------- Ordinals ----------

  /** Ordinals are 64-bit. */
  const ORDINALS: int := 0x1_0000_0000_0000_0000

  function HexDigit(d: int): char
    requires 0 <= d < 16
  {
    if d < 10 then '0' + d as char else 'a' + (d - 10) as char
  }

  function HexValue(c: char): Option<int> {
    if '0' <= c <= '9' then Some(c as int - '0' as int)
    else if 'a' <= c <= 'f' then Some(c as int - 'a' as int + 10)
    else if 'A' <= c <= 'F' then Some(c as int - 'A' as int + 10)
    else None
  }

  function Hex(n: nat, width: nat): (s: string)
    ensures |s| == width
  {
    if width == 0 then "" else Hex(n / 16, width - 1) + [HexDigit(n % 16)]
  }

  function ParseHex(s: string): Option<nat> {
    if s == "" then Some(0)
    else
      var high := ParseHex(s[..|s| - 1]);
      var low := HexValue(s[|s| - 1]);
      if high.Some? && low.Some? then Some(16 * high.value + low.value) else None
  }

  function Pow16(w: nat): (p: nat)
    ensures p > 0
  {
    if w == 0 then 1 else 16 * Pow16(w - 1)
  }

  /** The file name of an ordinal: sixteen hexadecimal digits. */
  function OrdinalString(o: nat): (s: string)
    ensures |s| == 16
  {
    Hex(o, 16)
  }

  function MakeJournalOrdinal(s: string): Result<nat> {
    if |s| != 16 then Err
    else
      var u := ParseHex(s);
      if u.Some? then Ok(u.value) else Err
  }

  lemma {:induction false} ParseUndoesHex(n: nat, w: nat)
    requires n < Pow16(w)
    ensures ParseHex(Hex(n, w)) == Some(n)
  {
    if w > 0 {
      var s := Hex(n / 16, w - 1);
      var c := HexDigit(n % 16);
      assert (s + [c])[..|s + [c]| - 1] == s;
      assert HexValue(c) == Some(n % 16);
      ParseUndoesHex(n / 16, w - 1);
    }
  }

  /** Reading an ordinal file gives the ordinal that was written, for all 2^64 ordinals. */
  lemma OrdinalRoundTrip(o: nat)
    requires o < ORDINALS
    ensures MakeJournalOrdinal(OrdinalString(o)) == Ok(o)
  {
    assert Pow16(4) == 0x1_0000;
    assert Pow16(8) == 0x1_0000_0000;
    assert Pow16(12) == 0x1_0000_0000_0000;
    assert Pow16(16) == ORDINALS;
    ParseUndoesHex(o, 16);
  }

  /** A hexadecimal digit in lower case. */
  function Lower(c: char): char {
    if 'A' <= c <= 'F' then c - 'A' + 'a' else c
  }

  predicate IsHexDigit(c: char) {
    '0' <= c <= '9' || 'a' <= c <= 'f' || 'A' <= c <= 'F'
  }

  predicate IsHex(s: string) {
    forall i :: 0 <= i < |s| ==> IsHexDigit(s[i])
  }

  function Lowered(s: string): (t: string)
    ensures |t| == |s|
  {
    seq(|s|, i requires 0 <= i < |s| => Lower(s[i]))
  }

  lemma HexDigits(c: char)
    ensures HexValue(c).Some? <==> IsHexDigit(c)
    ensures HexValue(c).Some? ==> 0 <= HexValue(c).value < 16 && HexDigit(HexValue(c).value) == Lower(c)
  {
  }

  lemma IsHexMore(s: string, p: string, c: char)
    requires s == p + [c]
    ensures IsHex(s) <==> IsHex(p) && IsHexDigit(c)
    ensures Lowered(s) == Lowered(p) + [Lower(c)]
  {
    assert c == s[|p|] && forall i :: 0 <= i < |p| ==> p[i] == s[i];
  }

  lemma HexMore(n: nat, w: nat, d: nat)
    requires d < 16
    ensures Hex(16 * n + d, w + 1) == Hex(n, w) + [HexDigit(d)]
  {
    assert (16 * n + d) / 16 == n && (16 * n + d) % 16 == d;
  }

  lemma ParseMore(s: string)
    requires s != ""
    ensures var high, low := ParseHex(s[..|s| - 1]), HexValue(s[|s| - 1]);
            ParseHex(s) == if high.Some? && low.Some? then Some(16 * high.value + low.value) else None
  {
  }

  lemma {:induction false} ParseHexIs(s: string)
    ensures ParseHex(s).Some? <==> IsHex(s)
    ensures IsHex(s) ==> Hex(ParseHex(s).value, |s|) == Lowered(s)
  {
    if s != "" {
      var p, c := s[..|s| - 1], s[|s| - 1];
      ParseHexIs(p);
      HexDigits(c);
      assert s == p + [c];
      IsHexMore(s, p, c);
      ParseMore(s);
      if IsHex(s) {
        HexMore(ParseHex(p).value, |p|, HexValue(c).value);
      }
    }
  }

  /** The texts that are read as an ordinal are exactly those of sixteen hexadecimal digits in either case, and writing
      what was read gives the text in lower case. */
  lemma OrdinalTexts(s: string)
    ensures MakeJournalOrdinal(s).Ok? <==> |s| == 16 && IsHex(s)
    ensures MakeJournalOrdinal(s).Ok? ==> OrdinalString(MakeJournalOrdinal(s).value) == Lowered(s)
  {
    ParseHexIs(s);
  }

  // ---------- Files ----------

  /** The files of a journal directory. */
  datatype FileName = Earliest | Latest | Entry(o: nat)

  function FileString(f: FileName): string {
    match f
    case Earliest => "EARLIEST"
    case Latest => "LATEST"
    case Entry(o) => OrdinalString(o)
  }

  predicate InRange(f: FileName) {
    f.Entry? ==> f.o < ORDINALS
  }

  /** No two files of a journal directory have the same name, so a directory can be keyed by FileName. */
  lemma FileStringsDistinct(f: FileName, g: FileName)
    requires InRange(f) && InRange(g) && FileString(f) == FileString(g)
    ensures f == g
  {
    if f.Entry? && g.Entry? {
      OrdinalRoundTrip(f.o);
      OrdinalRoundTrip(g.o);
    }
  }

  /** A file holds an ordinal as text, or an encoded entry, or neither.  Reading undoes writing: for ordinals by
      OrdinalRoundTrip, for entries because decoding undoes encoding. */
  datatype FileData<E> = Ordinal(o: nat) | Encoded(entry: E) | Garbage

  type Files<E> = map<FileName, FileData<E>>

  datatype OrdinalRead = NotExist | Invalid | Valid(o: nat)

  function ReadOrdinal<E>(files: Files<E>, f: FileName): OrdinalRead {
    if f !in files then NotExist
    else if files[f].Ordinal? && files[f].o < ORDINALS then Valid(files[f].o)
    else Invalid
  }

  function ReadEntry<E>(files: Files<E>, o: nat): Option<E> {
    if Entry(o) in files && files[Entry(o)].Encoded? then Some(files[Entry(o)].entry) else None
  }

  datatype Write<E> = Write(name: FileName, data: FileData<E>)

  function Written<E>(files: Files<E>, ws: seq<Write<E>>): Files<E> {
    if ws == [] then files
    else Written(files, ws[..|ws| - 1])[ws[|ws| - 1].name := ws[|ws| - 1].data]
  }

  // ---------- Appending ----------

  /** The writes of an append, in order, and whether it then reports success. */
  datatype Plan<E> = Plan(writes: seq<Write<E>>, ok: bool)

  /** The ordinal of the next entry: o, or 0, in an empty journal, and otherwise the successor of the latest, which o
      must match and which must not roll over. */
  function NextOrdinal<E>(files: Files<E>, o: Option<nat>): Result<nat> {
    match ReadOrdinal(files, Latest)
    case NotExist => Ok(if o.Some? then o.value else 0)
    case Invalid => Err
    case Valid(lo) =>
      if lo + 1 == ORDINALS || (o.Some? && o.value != lo + 1) then Err else Ok(lo + 1)
  }

  function AppendPlan<E>(files: Files<E>, o: Option<nat>, e: E): Plan<E> {
    var next := NextOrdinal(files, o);
    if next.Err? then Plan([], false)
    else
      var entry, latest := Write(Entry(next.value), Encoded(e)), Write(Latest, Ordinal(next.value));
      match ReadOrdinal(files, Earliest)
      case NotExist => Plan([entry, Write(Earliest, Ordinal(next.value)), latest], true)
      case Invalid => Plan([entry], false)
      case Valid(_) => Plan([entry, latest], true)
  }

  // ---------- Reading back ----------

  function ReadFrom<E>(files: Files<E>, i: nat, last: nat): Result<seq<E>>
    decreases last + 1 - i
  {
    if i > last then Ok([])
    else
      var e := ReadEntry(files, i);
      var rest := ReadFrom(files, i + 1, last);
      if e.Some? && rest.Ok? then Ok([e.value] + rest.value) else Err
  }

  function Prepend<E>(read: seq<E>, rest: Result<seq<E>>): Result<seq<E>> {
    if rest.Ok? then Ok(read + rest.value) else Err
  }

  lemma PrependNothing<E>(rest: Result<seq<E>>)
    ensures Prepend([], rest) == rest
  {
    if rest.Ok? {
      assert [] + rest.value == rest.value;
    }
  }

  lemma PrependStep<E>(files: Files<E>, read: seq<E>, i: nat, last: nat)
    requires i <= last
    ensures var e := ReadEntry(files, i);
            Prepend(read, ReadFrom(files, i, last))
            == if e.Some? then Prepend(read + [e.value], ReadFrom(files, i + 1, last)) else Err
  {
    var e, rest := ReadEntry(files, i), ReadFrom(files, i + 1, last);
    if e.Some? && rest.Ok? {
      assert read + ([e.value] + rest.value) == read + [e.value] + rest.value;
    }
  }

  /** The list of entries, as reading from Earliest to Latest gives it. */
  function ReadBack<E>(files: Files<E>): Result<seq<E>> {
    match ReadOrdinal(files, Earliest)
    case NotExist => Ok([])
    case Invalid => Err
    case Valid(first) =>
      var last := ReadOrdinal(files, Latest);
      if last.Valid? then ReadFrom(files, first, last.o) else Err
  }

  function JournalLength<E>(files: Files<E>): Result<nat> {
    match ReadOrdinal(files, Earliest)
    case NotExist => Ok(0)
    case Invalid => Err
    case Valid(first) =>
      var last := ReadOrdinal(files, Latest);
      if last.Valid? then Ok((last.o - first + 1) % ORDINALS) else Err
  }

  // ---------- What a directory of files stands for ----------

  ghost predicate EntryAt<E>(files: Files<E>, o: nat, e: E) {
    Entry(o) in files && files[Entry(o)] == Encoded(e)
  }

  ghost predicate EntriesAt<E>(files: Files<E>, first: nat, es: seq<E>) {
    forall i :: 0 <= i < |es| ==> EntryAt(files, first + i, es[i])
  }

  /** The files are a journal with these entries, the first of them at ordinal first. */
  ghost predicate Holds<E>(files: Files<E>, first: nat, es: seq<E>) {
    && es != [] && first + |es| <= ORDINALS
    && Earliest in files && files[Earliest] == Ordinal(first)
    && Latest in files && files[Latest] == Ordinal(first + |es| - 1)
    && EntriesAt(files, first, es)
  }

  /** No entry was ever completed.  Earliest may be there already, written for an entry at ordinal 0. */
  ghost predicate Blank<E>(files: Files<E>) {
    Latest !in files && (Earliest in files ==> files[Earliest] == Ordinal(0))
  }

  lemma {:induction false} ReadFromHolds<E>(files: Files<E>, first: nat, es: seq<E>, i: nat)
    requires es != [] && EntriesAt(files, first, es) && i <= |es|
    ensures ReadFrom(files, first + i, first + |es| - 1) == Ok(es[i..])
    decreases |es| - i
  {
    if i < |es| {
      ReadFromHolds(files, first, es, i + 1);
      assert EntryAt(files, first + i, es[i]);
      assert [es[i]] + es[i + 1..] == es[i..];
    } else {
      assert es[i..] == [];
    }
  }

  /** A journal reads back as exactly its entries, and its length is their number. */
  lemma HoldsReadsBack<E>(files: Files<E>, first: nat, es: seq<E>)
    requires Holds(files, first, es)
    ensures ReadBack(files) == Ok(es)
    ensures JournalLength(files) == Ok(|es| % ORDINALS)
  {
    ReadFromHolds(files, first, es, 0);
    assert es[0..] == es;
  }

  /** Writing any file but those of the entries does not disturb the entries. */
  lemma OtherFileIsApart<E>(files: Files<E>, first: nat, es: seq<E>, f: FileName, data: FileData<E>)
    requires EntriesAt(files, first, es) && (f.Entry? ==> first + |es| <= f.o)
    ensures EntriesAt(files[f := data], first, es)
  {
  }

  // ---------- Complete and interrupted appends ----------

  lemma WrittenOne<E>(files: Files<E>, w: Write<E>)
    ensures Written(files, []) == files
    ensures Written(files, [w]) == files[w.name := w.data]
  {
  }

  lemma WrittenTwo<E>(files: Files<E>, w: Write<E>, x: Write<E>)
    ensures Written(files, [w, x]) == files[w.name := w.data][x.name := x.data]
  {
    assert [w, x][..1] == [w];
    WrittenOne(files, w);
  }

  lemma WrittenThree<E>(files: Files<E>, w: Write<E>, x: Write<E>, y: Write<E>)
    ensures Written(files, [w, x, y]) == files[w.name := w.data][x.name := x.data][y.name := y.data]
  {
    assert [w, x, y][..2] == [w, x];
    WrittenTwo(files, w, x);
  }

  /** Stopped after any number of its writes short of all, an append to a journal with entries leaves exactly the old
      list; completed, it leaves the old list with the entry at the end. */
  lemma AppendToEntries<E>(files: Files<E>, first: nat, es: seq<E>, e: E, k: nat)
    requires Holds(files, first, es) && k <= |AppendPlan(files, None, e).writes|
    ensures var plan := AppendPlan(files, None, e);
            var files' := Written(files, plan.writes[..k]);
            && (plan.ok <==> first + |es| < ORDINALS)
            && (if plan.ok && k == |plan.writes| then Holds(files', first, es + [e]) else Holds(files', first, es))
  {
    var next := first + |es|;
    var plan := AppendPlan(files, None, e);
    if next < ORDINALS {
      var w: Write<E>, x: Write<E> := Write(Entry(next), Encoded(e)), Write(Latest, Ordinal(next));
      assert plan == Plan([w, x], true);
      var one := files[w.name := w.data];
      OtherFileIsApart(files, first, es, w.name, w.data);
      OtherFileIsApart(one, first, es, Latest, x.data);
      WrittenOne(files, w);
      WrittenTwo(files, w, x);
      assert [w, x][..k] == if k == 0 then [] else if k == 1 then [w] else [w, x];
      assert EntriesAt(one[x.name := x.data], first, es + [e]);
    } else {
      assert plan.writes[..k] == [];
    }
  }

  /** An append that names its ordinal is the append that follows on, or else changes nothing and fails. */
  lemma GivenOrdinal<E>(files: Files<E>, first: nat, es: seq<E>, o: nat, e: E)
    requires Holds(files, first, es)
    ensures AppendPlan(files, Some(o), e)
            == if o == first + |es| then AppendPlan(files, None, e) else Plan([], false)
  {
  }

  /** The first append: until its last write the journal stays without entries, but once Earliest is written it no
      longer reads as empty. */
  lemma AppendToBlank<E>(files: Files<E>, e: E, k: nat)
    requires Blank(files) && k <= |AppendPlan(files, None, e).writes|
    ensures var plan := AppendPlan(files, None, e);
            var files' := Written(files, plan.writes[..k]);
            && plan.ok && |plan.writes| == (if Earliest in files then 2 else 3)
            && (if k == |plan.writes| then Holds(files', 0, [e])
                else Blank(files') && (Earliest in files' <==> Earliest in files || k == 2))
  {
    var w: Write<E>, x: Write<E>, y: Write<E> :=
      Write(Entry(0), Encoded(e)), Write(Earliest, Ordinal(0)), Write(Latest, Ordinal(0));
    WrittenOne(files, w);
    if Earliest in files {
      assert AppendPlan(files, None, e) == Plan([w, y], true);
      WrittenTwo(files, w, y);
      assert [w, y][..k] == if k == 0 then [] else if k == 1 then [w] else [w, y];
    } else {
      assert AppendPlan(files, None, e) == Plan([w, x, y], true);
      WrittenTwo(files, w, x);
      WrittenThree(files, w, x, y);
      assert [w, x, y][..k] == if k == 0 then [] else if k == 1 then [w] else if k == 2 then [w, x] else [w, x, y];
    }
  }

  /** The first append to a directory without a journal may start it at any ordinal. */
  lemma FirstOrdinal<E>(files: Files<E>, o: Option<nat>, e: E)
    requires Earliest !in files && Latest !in files && (o.Some? ==> o.value < ORDINALS)
    ensures var plan := AppendPlan(files, o, e);
            plan.ok && Holds(Written(files, plan.writes), if o.Some? then o.value else 0, [e])
  {
    var first := if o.Some? then o.value else 0;
    var w: Write<E>, x: Write<E>, y: Write<E> :=
      Write(Entry(first), Encoded(e)), Write(Earliest, Ordinal(first)), Write(Latest, Ordinal(first));
    WrittenThree(files, w, x, y);
    assert AppendPlan(files, o, e) == Plan([w, x, y], true);
  }

  predicate Readable<E>(files: Files<E>, f: FileName) {
    f in files && files[f].Ordinal? && files[f].o < ORDINALS
  }

  /** An ordinal follows: there is no latest one yet, or it can be read, is not the last of all, and is the one before
      that asked for. */
  predicate Follows<E>(files: Files<E>, o: Option<nat>) {
    Latest in files ==>
      Readable(files, Latest) && files[Latest].o + 1 < ORDINALS && (o.Some? ==> o.value == files[Latest].o + 1)
  }

  /** An append fails exactly if no ordinal follows or Earliest is there but cannot be read.  It then leaves the files
      as they were, but for a stray entry in the second case. */
  lemma AppendFails<E>(files: Files<E>, o: Option<nat>, e: E)
    ensures var plan := AppendPlan(files, o, e);
            && (plan.ok <==> Follows(files, o) && (Earliest in files ==> Readable(files, Earliest)))
            && (!plan.ok ==>
                  Written(files, plan.writes) ==
                  if Follows(files, o) then files[Entry(NextOrdinal(files, o).value) := Encoded(e)] else files)
  {
    var plan := AppendPlan(files, o, e);
    if !plan.ok && Follows(files, o) {
      WrittenOne(files, plan.writes[0]);
      assert plan.writes == [plan.writes[0]];
    }
  }

  /** The list that a directory of files spells, whatever is in them: none without Earliest, and otherwise an entry for
      every ordinal from Earliest to Latest. */
  ghost predicate Spells<E>(files: Files<E>, es: seq<E>) {
    if Earliest !in files then es == []
    else
      && Readable(files, Earliest) && Readable(files, Latest)
      && var first, last := files[Earliest].o, files[Latest].o;
         |es| == (if first <= last then last + 1 - first else 0) && EntriesAt(files, first, es)
  }

  lemma {:induction false} ReadFromSpells<E>(files: Files<E>, i: nat, last: nat, es: seq<E>)
    ensures ReadFrom(files, i, last) == Ok(es) <==>
            |es| == (if i <= last then last + 1 - i else 0) && EntriesAt(files, i, es)
    decreases last + 1 - i
  {
    if i <= last && es != [] {
      ReadFromSpells(files, i + 1, last, es[1..]);
      assert es == [es[0]] + es[1..];
      if EntriesAt(files, i, es) {
        assert EntryAt(files, i + 0, es[0]);
        forall j | 0 <= j < |es[1..]|
          ensures EntryAt(files, i + 1 + j, es[1..][j])
        {
          assert EntryAt(files, i + (j + 1), es[j + 1]);
        }
      }
      if ReadFrom(files, i, last) == Ok(es) {
        forall j | 0 <= j < |es|
          ensures EntryAt(files, i + j, es[j])
        {
          assert j > 0 ==> EntryAt(files, i + 1 + (j - 1), es[1..][j - 1]);
        }
      }
    }
  }

  /** Reading gives exactly the list that the files spell, and an error if they spell none; the length is that of the
      list, unless it is all ordinals or Latest is before Earliest. */
  lemma ReadBackSpells<E>(files: Files<E>, es: seq<E>)
    ensures ReadBack(files) == Ok(es) <==> Spells(files, es)
    ensures JournalLength(files).Ok? <==> (Earliest in files ==> Readable(files, Earliest) && Readable(files, Latest))
    ensures Spells(files, es) ==>
              (JournalLength(files) == Ok(|es|) <==>
               |es| < ORDINALS && (es == [] && Earliest in files ==> files[Earliest].o == files[Latest].o + 1))
  {
    if Readable(files, Earliest) && Readable(files, Latest) {
      ReadFromSpells(files, files[Earliest].o, files[Latest].o, es);
    }
  }

  /** So what is read of the journal is the same after a failed append as before. */
  lemma FailedAppendUnseen<E>(files: Files<E>, o: Option<nat>, e: E)
    requires !AppendPlan(files, o, e).ok
    ensures var files' := Written(files, AppendPlan(files, o, e).writes);
            ReadBack(files') == ReadBack(files) && JournalLength(files') == JournalLength(files)
  {
    AppendFails(files, o, e);
  }

  /** The files of a journal that starts at ordinal 0. */
  ghost predicate Journal<E>(files: Files<E>, es: seq<E>) {
    if es == [] then Blank(files) else Holds(files, 0, es)
  }

  /** Such a journal reads back as its entries, except that one that was stopped in its very first append after writing
      Earliest cannot be read until an append completes. */
  lemma JournalReadsBack<E>(files: Files<E>, es: seq<E>)
    requires Journal(files, es)
    ensures ReadBack(files) == Ok(es) <==> es != [] || Earliest !in files
    ensures |es| < ORDINALS ==> (JournalLength(files) == Ok(|es|) <==> es != [] || Earliest !in files)
  {
    if es != [] {
      HoldsReadsBack(files, 0, es);
    }
  }

  /** An append can be made: ordinals are left, and Earliest can be read if it is there. */
  predicate Room<E>(files: Files<E>) {
    NextOrdinal(files, None).Ok? && !ReadOrdinal(files, Earliest).Invalid?
  }

  /** What stopping an append after k of its writes leaves, for any k up to all of them. */
  lemma AppendStops<E>(files: Files<E>, es: seq<E>, e: E, k: nat)
    requires Journal(files, es) && |es| < ORDINALS && k <= |AppendPlan(files, None, e).writes|
    ensures var plan := AppendPlan(files, None, e);
            var files' := Written(files, plan.writes[..k]);
            && Room(files) && plan.ok && |plan.writes| == (if Earliest in files then 2 else 3)
            && (if k == |plan.writes| then Journal(files', es + [e]) && Earliest in files'
                else Journal(files', es) && (Earliest in files' <==> Earliest in files || k == 2))
  {
    if es == [] {
      AppendToBlank(files, e, k);
      assert es + [e] == [e];
    } else {
      AppendToEntries(files, 0, es, e, k);
    }
  }

  // ---------- Runs of appends, each possibly interrupted ----------

  /** An append of e that is stopped after the given number of writes, or not at all if it has no more. */
  datatype Attempt<E> = Attempt(e: E, writes: nat)

  function Stop<E>(files: Files<E>, a: Attempt<E>): Files<E> {
    var ws := AppendPlan(files, None, a.e).writes;
    Written(files, if a.writes < |ws| then ws[..a.writes] else ws)
  }

  predicate Completes<E>(files: Files<E>, a: Attempt<E>) {
    var plan := AppendPlan(files, None, a.e);
    plan.ok && a.writes >= |plan.writes|
  }

  function FilesAfter<E>(attempts: seq<Attempt<E>>): Files<E> {
    if attempts == [] then map[]
    else Stop(FilesAfter(attempts[..|attempts| - 1]), attempts[|attempts| - 1])
  }

  function Completed<E>(attempts: seq<Attempt<E>>): seq<E> {
    if attempts == [] then []
    else
      var p, a := attempts[..|attempts| - 1], attempts[|attempts| - 1];
      Completed(p) + if Completes(FilesAfter(p), a) then [a.e] else []
  }

  /** Some append got as far as its second write. */
  predicate PastSecondWrite<E>(attempts: seq<Attempt<E>>) {
    attempts != [] && (PastSecondWrite(attempts[..|attempts| - 1]) || attempts[|attempts| - 1].writes >= 2)
  }

  lemma StopStep<E>(files: Files<E>, es: seq<E>, a: Attempt<E>)
    requires Journal(files, es) && |es| < ORDINALS
    ensures Journal(Stop(files, a), if Completes(files, a) then es + [a.e] else es)
    ensures es == [] && !Completes(files, a) ==> (Earliest in Stop(files, a) <==> Earliest in files || a.writes >= 2)
  {
    var ws := AppendPlan(files, None, a.e).writes;
    var k := if a.writes < |ws| then a.writes else |ws|;
    assert ws[..|ws|] == ws;
    AppendStops(files, es, a.e, k);
  }

  /** After any run of appends, however each was interrupted, the files are a journal of exactly the completed ones. */
  lemma {:induction false} RunIsJournal<E>(attempts: seq<Attempt<E>>)
    requires |attempts| < ORDINALS
    ensures Journal(FilesAfter(attempts), Completed(attempts)) && |Completed(attempts)| <= |attempts|
    ensures Completed(attempts) == [] ==> (Earliest in FilesAfter(attempts) <==> PastSecondWrite(attempts))
  {
    if attempts != [] {
      var k := |attempts| - 1;
      var p := attempts[..k];
      RunIsJournal(p);
      StopStep(FilesAfter(p), Completed(p), attempts[k]);
    }
  }

  /** Reading back such a run gives the completed appends and the right length, except in one family of runs: nothing
      completed yet, and some append got past its second write. */
  lemma RunReadsBack<E>(attempts: seq<Attempt<E>>)
    requires |attempts| < ORDINALS
    ensures var stuck := Completed(attempts) == [] && PastSecondWrite(attempts);
            && (ReadBack(FilesAfter(attempts)) == Ok(Completed(attempts)) <==> !stuck)
            && (JournalLength(FilesAfter(attempts)) == Ok(|Completed(attempts)|) <==> !stuck)
  {
    RunIsJournal(attempts);
    var files, es := FilesAfter(attempts), Completed(attempts);
    JournalReadsBack(files, es);
  }

  /** One append stopped after its second write. */
  lemma StoppedFirstAppend<E>(e: E)
    ensures ReadBack(FilesAfter([Attempt(e, 2)])) == Err
  {
    var one := [Attempt(e, 2)];
    assert |one[..0]| == 0;
    var none: Files<E> := FilesAfter(one[..0]);
    AppendToBlank(none, e, 2);
    var ws := AppendPlan(none, None, e).writes;
    assert FilesAfter(one) == Written(none, ws[..2]);
  }

  // ---------- The journal ----------

  class DiskJournal<E> {
    var files: Files<E>

    /** The journal in a directory, with the files already there. */
    constructor (files: Files<E>)
      ensures this.files == files
    {
      this.files := files;
    }

    method AppendJournalEntry(o: Option<nat>, entry: E) returns (ok: bool)
      modifies this
      ensures var plan := AppendPlan(old(files), o, entry); files == Written(old(files), plan.writes) && ok == plan.ok
    {
      var next: nat;
      match ReadOrdinal(files, Latest) {
        case NotExist =>
          next := if o.Some? then o.value else 0;
        case Invalid =>
          return false;
        case Valid(lo) =>
          next := (lo + 1) % ORDINALS;
          if next == 0 || (o.Some? && next != o.value) {
            return false;
          }
      }
      ghost var before := files;
      ghost var w: Write<E>, x: Write<E>, y: Write<E> :=
        Write(Entry(next), Encoded(entry)), Write(Earliest, Ordinal(next)), Write(Latest, Ordinal(next));
      WrittenOne(before, w);
      WrittenTwo(before, w, y);
      WrittenThree(before, w, x, y);
      files := files[Entry(next) := Encoded(entry)];
      var first := ReadOrdinal(files, Earliest);
      if first.Invalid? {
        return false;
      }
      if first.NotExist? {
        files := files[Earliest := Ordinal(next)];
      }
      files := files[Latest := Ordinal(next)];
      return true;
    }

    /** Read the entries from Earliest to Latest. */
    method ReadJournal() returns (r: Result<seq<E>>)
      ensures r == ReadBack(files)
    {
      var first := ReadOrdinal(files, Earliest);
      if first.NotExist? {
        return Ok([]);
      } else if first.Invalid? {
        return Err;
      }
      var last := ReadOrdinal(files, Latest);
      if !last.Valid? {
        return Err;
      }
      var read: seq<E> := [];
      var i := first.o;
      PrependNothing(ReadFrom(files, i, last.o));
      while i <= last.o
        invariant ReadFrom(files, first.o, last.o) == Prepend(read, ReadFrom(files, i, last.o))
        decreases last.o + 1 - i
      {
        PrependStep(files, read, i, last.o);
        var e := ReadEntry(files, i);
        if e.None? {
          return Err;
        }
        read := read + [e.value];
        i := i + 1;
      }
      assert read + [] == read;
      return Ok(read);
    }

    method Length() returns (r: Result<nat>)
      ensures r == JournalLength(files)
    {
      var first := ReadOrdinal(files, Earliest);
      if first.NotExist? {
        return Ok(0);
      } else if first.Invalid? {
        return Err;
      }
      var last := ReadOrdinal(files, Latest);
      if !last.Valid? {
        return Err;
      }
      return Ok((last.o - first.o + 1) % ORDINALS);
    }
  }
}
