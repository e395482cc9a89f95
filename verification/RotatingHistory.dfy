/** What the rotating files keep: the records in them are always the newest ones, whole and in
    order, whatever is written and whenever the files rotate. */
module RotatingHistory {
  import opened Text
  import opened RotatingFiles

  // ---------------------------------------------------------------- lists of records

  function Flat(rs: seq<string>): string {
    if rs == [] then "" else rs[0] + Flat(rs[1..])
  }

  lemma {:induction false} FlatConcat(a: seq<string>, b: seq<string>)
    ensures Flat(a + b) == Flat(a) + Flat(b)
  {
    if a == [] {
      assert a + b == b && "" + Flat(b) == Flat(b);
    } else {
      FlatConcat(a[1..], b);
      assert (a + b)[0] == a[0] && (a + b)[1..] == a[1..] + b;
      Assoc(a[0], Flat(a[1..]), Flat(b));
    }
  }

  lemma FlatOne(r: string)
    ensures Flat([r]) == r
  {
    assert [r][1..] == [] && r + "" == r;
  }

  /** The records of a family (files[0] is the newest), oldest first. */
  function Oldest(files: seq<seq<string>>): seq<string> {
    if files == [] then [] else Oldest(files[1..]) + files[0]
  }

  lemma {:induction false} OldestSnoc(front: seq<seq<string>>, last: seq<string>)
    ensures Oldest(front + [last]) == last + Oldest(front)
  {
    var files := front + [last];
    if front == [] {
      assert files[1..] == [] && [] + last == last + [];
    } else {
      OldestSnoc(front[1..], last);
      assert files[0] == front[0] && files[1..] == front[1..] + [last];
      Assoc(last, Oldest(front[1..]), front[0]);
    }
  }

  lemma {:induction false} OldestHolds(files: seq<seq<string>>, i: nat, r: string)
    requires i < |files| && r in files[i]
    ensures r in Oldest(files)
  {
    if i > 0 { OldestHolds(files[1..], i - 1, r); }
  }

  // ---------------------------------------------------------------- the archive

  /** The records as the files hold them, and those discarded so far. */
  datatype Archive = Archive(dropped: seq<string>, files: seq<seq<string>>)

  function All(a: Archive): seq<string> {
    a.dropped + Oldest(a.files)
  }

  /** A rotation, on records: the last file's are dropped and the others move up by one. */
  function Shift(a: Archive): (r: Archive)
    requires |a.files| >= 2
    ensures |r.files| == |a.files|
  {
    var last := |a.files| - 1;
    Archive(a.dropped + a.files[last], [[]] + a.files[..last])
  }

  function Add(a: Archive, r: string): (b: Archive)
    requires |a.files| >= 1
    ensures |b.files| == |a.files|
  {
    a.(files := a.files[0 := a.files[0] + [r]])
  }

  function MaybeShift(a: Archive, rotate: bool): (r: Archive)
    ensures |r.files| == |a.files|
  {
    if rotate && |a.files| >= 2 then Shift(a) else a
  }

  function ArchiveStep(c: Config, s: Sink, a: Archive, e: Event): (r: Archive)
    requires |a.files| >= 1
    ensures |r.files| == |a.files|
  {
    if !Considered(s, e) then a
    else
      var a1 := MaybeShift(a, Rotates(c, s, e.text));
      if Accepts(c, s, e) then Add(a1, Record(e.text)) else a1
  }

  function ArchiveRun(c: Config, s: Sink, a: Archive, es: seq<Event>): (r: Archive)
    requires |a.files| >= 1
    ensures |r.files| == |a.files|
    decreases |es|
  {
    if es == [] then a else ArchiveRun(c, Step(c, s, es[0]), ArchiveStep(c, s, a, es[0]), es[1..])
  }

  // ---------------------------------------------------------------- nothing is lost in between

  lemma ShiftAll(a: Archive)
    requires |a.files| >= 2
    ensures All(Shift(a)) == All(a)
  {
    var last := |a.files| - 1;
    var front := a.files[..last];
    assert a.files == front + [a.files[last]];
    OldestSnoc(front, a.files[last]);
    assert ([[]] + front)[1..] == front && Oldest([[]] + front) == Oldest(front) + [];
  }

  lemma AddAll(a: Archive, r: string)
    requires |a.files| >= 1
    ensures All(Add(a, r)) == All(a) + [r]
  {
    var files := Add(a, r).files;
    assert files[1..] == a.files[1..];
  }

  lemma StepAll(c: Config, s: Sink, a: Archive, e: Event)
    requires |a.files| >= 1
    ensures All(ArchiveStep(c, s, a, e)) == All(a) + (if Accepts(c, s, e) then [Record(e.text)] else [])
  {
    if Considered(s, e) {
      var a1 := MaybeShift(a, Rotates(c, s, e.text));
      if Rotates(c, s, e.text) && |a.files| >= 2 { ShiftAll(a); }
      assert All(a1) == All(a);
      AddAll(a1, Record(e.text));
    }
  }

  lemma {:induction false} RunAll(c: Config, s: Sink, a: Archive, es: seq<Event>)
    requires |a.files| >= 1
    ensures All(ArchiveRun(c, s, a, es)) == All(a) + Records(c, s, es)
    decreases |es|
  {
    if es != [] {
      StepAll(c, s, a, es[0]);
      RunAll(c, Step(c, s, es[0]), ArchiveStep(c, s, a, es[0]), es[1..]);
    }
  }

  // ---------------------------------------------------------------- the archive is what the files hold

  predicate Holds(c: Config, fs: Files, files: seq<seq<string>>) {
    |files| == c.maxFiles + 1
    && forall i :: 0 <= i < |files| ==> Content(fs, Name(c.base, i)) == Flat(files[i])
  }

  predicate SizeOk(c: Config, s: Sink) {
    s.open ==> c.base in s.fs && s.size == |s.fs[c.base]|
  }

  lemma OpenedHolds(c: Config, fs: Files, files: seq<seq<string>>, opens: bool, level: Level)
    requires Holds(c, fs, files)
    ensures Holds(c, Opened(c, fs, opens, level).fs, files) && SizeOk(c, Opened(c, fs, opens, level))
  {
  }

  lemma ShiftFiles(a: Archive, i: nat)
    requires i < |a.files| && |a.files| >= 2
    ensures Shift(a).files[i] == if i == 0 then [] else a.files[i - 1]
  {
  }

  lemma ShiftHoldsAt(c: Config, fs: Files, a: Archive, i: nat)
    requires Holds(c, fs, a.files) && c.maxFiles >= 1 && i <= c.maxFiles
    ensures Content(Shifted(c, fs), Name(c.base, i)) == Flat(Shift(a).files[i])
  {
    ShiftedSlot(c, fs, i);
    ShiftFiles(a, i);
    if i > 0 { assert Content(fs, Name(c.base, i - 1)) == Flat(a.files[i - 1]); }
  }

  lemma ShiftHolds(c: Config, fs: Files, a: Archive)
    requires Holds(c, fs, a.files) && c.maxFiles >= 1
    ensures Holds(c, Shifted(c, fs), Shift(a).files)
  {
    forall i | 0 <= i < |a.files| ensures Content(Shifted(c, fs), Name(c.base, i)) == Flat(Shift(a).files[i]) {
      ShiftHoldsAt(c, fs, a, i);
    }
  }

  lemma ReadyHolds(c: Config, s: Sink, a: Archive, text: string, opens: bool)
    requires Holds(c, s.fs, a.files) && SizeOk(c, s)
    ensures Holds(c, Ready(c, s, text, opens).fs, MaybeShift(a, Rotates(c, s, text)).files)
    ensures SizeOk(c, Ready(c, s, text, opens))
  {
    if Rotates(c, s, text) {
      if c.maxFiles >= 1 { ShiftHolds(c, s.fs, a); }
      OpenedHolds(c, Shifted(c, s.fs), MaybeShift(a, true).files, opens, s.minLevel);
    }
  }

  lemma AppendHolds(c: Config, s: Sink, a: Archive, text: string)
    requires Holds(c, s.fs, a.files) && SizeOk(c, s) && s.open
    ensures Holds(c, Appended(c, s, text).fs, Add(a, Record(text)).files) && SizeOk(c, Appended(c, s, text))
  {
    var fs', files := Appended(c, s, text).fs, Add(a, Record(text)).files;
    forall i | 0 <= i < |files| ensures Content(fs', Name(c.base, i)) == Flat(files[i]) {
      NamesDiffer(c.base, 0, i);
      if i == 0 {
        FlatConcat(a.files[0], [Record(text)]);
        FlatOne(Record(text));
      } else {
        assert Content(s.fs, Name(c.base, i)) == Flat(a.files[i]);
      }
    }
  }

  lemma StepHolds(c: Config, s: Sink, a: Archive, e: Event)
    requires Holds(c, s.fs, a.files) && SizeOk(c, s)
    ensures Holds(c, Step(c, s, e).fs, ArchiveStep(c, s, a, e).files) && SizeOk(c, Step(c, s, e))
  {
    if Considered(s, e) {
      ReadyHolds(c, s, a, e.text, e.opens);
      if Accepts(c, s, e) {
        AppendHolds(c, Ready(c, s, e.text, e.opens), MaybeShift(a, Rotates(c, s, e.text)), e.text);
      }
    }
  }

  lemma {:induction false} RunHolds(c: Config, s: Sink, a: Archive, es: seq<Event>)
    requires Holds(c, s.fs, a.files) && SizeOk(c, s)
    ensures Holds(c, Run(c, s, es).fs, ArchiveRun(c, s, a, es).files) && SizeOk(c, Run(c, s, es))
    decreases |es|
  {
    if es != [] {
      StepHolds(c, s, a, es[0]);
      RunHolds(c, Step(c, s, es[0]), ArchiveStep(c, s, a, es[0]), es[1..]);
    }
  }

  // ---------------------------------------------------------------- sizes

  predicate Sized(c: Config, files: seq<seq<string>>) {
    forall i :: 0 <= i < |files| ==> |files[i]| <= 1 || |Flat(files[i])| <= c.maxSize
  }

  lemma ShiftSized(c: Config, a: Archive)
    requires |a.files| >= 2 && Sized(c, a.files)
    ensures Sized(c, Shift(a).files)
  {
    var files := Shift(a).files;
    forall i | 0 <= i < |files| ensures |files[i]| <= 1 || |Flat(files[i])| <= c.maxSize {
      if i > 0 { assert files[i] == a.files[i - 1]; }
    }
  }

  lemma AddSized(c: Config, a: Archive, r: string)
    requires |a.files| >= 1 && Sized(c, a.files)
    requires a.files[0] == [] || |Flat(a.files[0])| + |r| <= c.maxSize
    ensures Sized(c, Add(a, r).files)
  {
    FlatConcat(a.files[0], [r]);
    FlatOne(r);
  }

  lemma StepSized(c: Config, s: Sink, a: Archive, e: Event)
    requires c.maxFiles >= 1 && Holds(c, s.fs, a.files) && SizeOk(c, s) && Sized(c, a.files)
    ensures Sized(c, ArchiveStep(c, s, a, e).files)
  {
    if Considered(s, e) {
      var rotate := Rotates(c, s, e.text);
      if rotate { ShiftSized(c, a); }
      assert Content(s.fs, Name(c.base, 0)) == Flat(a.files[0]);
      AddSized(c, MaybeShift(a, rotate), Record(e.text));
    }
  }

  lemma {:induction false} RunSized(c: Config, s: Sink, a: Archive, es: seq<Event>)
    requires c.maxFiles >= 1 && Holds(c, s.fs, a.files) && SizeOk(c, s) && Sized(c, a.files)
    ensures Sized(c, ArchiveRun(c, s, a, es).files)
    decreases |es|
  {
    if es != [] {
      StepHolds(c, s, a, es[0]);
      StepSized(c, s, a, es[0]);
      RunSized(c, Step(c, s, es[0]), ArchiveStep(c, s, a, es[0]), es[1..]);
    }
  }

  // ---------------------------------------------------------------- from the start

  /** The text found in a file when the sink starts counts as one record. */
  function Found(text: string): seq<string> {
    if text == "" then [] else [text]
  }

  function Initial(c: Config, fs: Files): Archive {
    Archive([], seq(c.maxFiles + 1, i requires 0 <= i => Found(Content(fs, Name(c.base, i)))))
  }

  lemma InitialHolds(c: Config, fs: Files)
    ensures Holds(c, fs, Initial(c, fs).files) && Sized(c, Initial(c, fs).files)
  {
    var files := Initial(c, fs).files;
    forall i | 0 <= i < |files| ensures Content(fs, Name(c.base, i)) == Flat(files[i]) {
      FlatOne(Content(fs, Name(c.base, i)));
    }
  }

  /** The text of files i, i - 1, ..., 0, one after the other. */
  function FamilyText(c: Config, fs: Files, i: nat): string {
    if i == 0 then Content(fs, c.base) else Content(fs, Name(c.base, i)) + FamilyText(c, fs, i - 1)
  }

  lemma {:induction false} FamilyFlat(c: Config, fs: Files, files: seq<seq<string>>, i: nat)
    requires Holds(c, fs, files) && i < |files|
    ensures FamilyText(c, fs, i) == Flat(Oldest(files[..i + 1]))
  {
    assert Content(fs, Name(c.base, i)) == Flat(files[i]);
    assert files[..i + 1] == files[..i] + [files[i]];
    OldestSnoc(files[..i], files[i]);
    if i == 0 {
      assert Oldest(files[..0]) == [] && files[0] + [] == files[0];
    } else {
      FamilyFlat(c, fs, files, i - 1);
      FlatConcat(files[i], Oldest(files[..i]));
    }
  }

  /** All records there ever were: what was found at the start, oldest file first, and then the
      entries that reached a file. */
  function Ever(c: Config, fs: Files, opens: bool, es: seq<Event>): seq<string> {
    Oldest(Initial(c, fs).files) + Records(c, Opened(c, fs, opens, TRACE), es)
  }

  function Final(c: Config, fs: Files, opens: bool, es: seq<Event>): Sink {
    Run(c, Opened(c, fs, opens, TRACE), es)
  }

  function FinalArchive(c: Config, fs: Files, opens: bool, es: seq<Event>): Archive {
    ArchiveRun(c, Opened(c, fs, opens, TRACE), Initial(c, fs), es)
  }

  lemma FinalHolds(c: Config, fs: Files, opens: bool, es: seq<Event>)
    ensures Holds(c, Final(c, fs, opens, es).fs, FinalArchive(c, fs, opens, es).files)
    ensures SizeOk(c, Final(c, fs, opens, es))
    ensures All(FinalArchive(c, fs, opens, es)) == Ever(c, fs, opens, es)
  {
    var s := Opened(c, fs, opens, TRACE);
    InitialHolds(c, fs);
    OpenedHolds(c, fs, Initial(c, fs).files, opens, TRACE);
    RunHolds(c, s, Initial(c, fs), es);
    RunAll(c, s, Initial(c, fs), es);
    assert [] + Oldest(Initial(c, fs).files) == Oldest(Initial(c, fs).files);
  }

  /** After any run, the files from the oldest to the base file spell the newest records: all
      records there ever were except the first k, none cut, none missing in between. */
  lemma Retention(c: Config, fs: Files, opens: bool, es: seq<Event>)
    ensures var ever, k := Ever(c, fs, opens, es), |FinalArchive(c, fs, opens, es).dropped|;
            && k <= |ever|
            && FamilyText(c, Final(c, fs, opens, es).fs, c.maxFiles) == Flat(ever[k..])
  {
    var a := FinalArchive(c, fs, opens, es);
    FinalHolds(c, fs, opens, es);
    FamilyAll(c, Final(c, fs, opens, es).fs, a.files);
    assert All(a)[|a.dropped|..] == Oldest(a.files);
  }

  /** After any run with at least one backup file, each file is within the limit or is exactly
      one record; and an open sink knows the base file's size. */
  lemma FileSizes(c: Config, fs: Files, opens: bool, es: seq<Event>, i: nat)
    requires c.maxFiles >= 1 && i <= c.maxFiles
    ensures var text := Content(Final(c, fs, opens, es).fs, Name(c.base, i));
            |text| <= c.maxSize || text in Ever(c, fs, opens, es)
    ensures var s := Final(c, fs, opens, es); s.open ==> c.base in s.fs && s.size == |s.fs[c.base]|
  {
    var a := FinalArchive(c, fs, opens, es);
    InitialHolds(c, fs);
    OpenedHolds(c, fs, Initial(c, fs).files, opens, TRACE);
    RunSized(c, Opened(c, fs, opens, TRACE), Initial(c, fs), es);
    FinalHolds(c, fs, opens, es);
    var text := Content(Final(c, fs, opens, es).fs, Name(c.base, i));
    assert text == Flat(a.files[i]);
    if |text| > c.maxSize {
      assert |a.files[i]| == 1;
      FlatOne(a.files[i][0]);
      assert a.files[i] == [text];
      OldestHolds(a.files, i, text);
    }
  }

  lemma FamilyAll(c: Config, fs: Files, files: seq<seq<string>>)
    requires Holds(c, fs, files)
    ensures FamilyText(c, fs, c.maxFiles) == Flat(Oldest(files))
  {
    FamilyFlat(c, fs, files, c.maxFiles);
    assert files[..c.maxFiles + 1] == files;
  }

  lemma FlatAll(a: Archive, b: Archive, added: seq<string>)
    requires a.dropped == [] && All(b) == All(a) + added
    ensures Flat(b.dropped) + Flat(Oldest(b.files)) == Flat(Oldest(a.files)) + Flat(added)
  {
    assert [] + Oldest(a.files) == Oldest(a.files);
    FlatConcat(b.dropped, Oldest(b.files));
    FlatConcat(Oldest(a.files), added);
  }

  function Gone(c: Config, s: Sink, e: Event): string {
    if Considered(s, e) && Rotates(c, s, e.text) then Content(s.fs, Name(c.base, c.maxFiles)) else ""
  }

  function Added(c: Config, s: Sink, e: Event): string {
    if Accepts(c, s, e) then Record(e.text) else ""
  }

  lemma StepFamily(c: Config, s: Sink, a: Archive, e: Event)
    requires Holds(c, s.fs, a.files) && SizeOk(c, s)
    ensures FamilyText(c, Step(c, s, e).fs, c.maxFiles) == Flat(Oldest(ArchiveStep(c, s, a, e).files))
  {
    StepHolds(c, s, a, e);
    FamilyAll(c, Step(c, s, e).fs, ArchiveStep(c, s, a, e).files);
  }

  lemma StepGone(c: Config, s: Sink, a: Archive, e: Event)
    requires c.maxFiles >= 1 && Holds(c, s.fs, a.files) && a.dropped == []
    ensures Flat(ArchiveStep(c, s, a, e).dropped) == Gone(c, s, e)
  {
    assert Content(s.fs, Name(c.base, c.maxFiles)) == Flat(a.files[c.maxFiles]);
    if Considered(s, e) && Rotates(c, s, e.text) {
      assert ArchiveStep(c, s, a, e).dropped == a.files[c.maxFiles];
    }
  }

  /** One call, byte for byte: it adds its record at the end, and a rotation discards the old last
      file and nothing else. */
  lemma RotationDiscards(c: Config, s: Sink, e: Event)
    requires c.maxFiles >= 1 && SizeOk(c, s)
    ensures Gone(c, s, e) + FamilyText(c, Step(c, s, e).fs, c.maxFiles)
         == FamilyText(c, s.fs, c.maxFiles) + Added(c, s, e)
  {
    var a := Initial(c, s.fs);
    var added := if Accepts(c, s, e) then [Record(e.text)] else [];
    InitialHolds(c, s.fs);
    FamilyAll(c, s.fs, a.files);
    StepFamily(c, s, a, e);
    StepGone(c, s, a, e);
    StepAll(c, s, a, e);
    FlatAll(a, ArchiveStep(c, s, a, e), added);
    assert Flat(added) == Added(c, s, e) by { if Accepts(c, s, e) { FlatOne(Record(e.text)); } }
  }

  // ---------------------------------------------------------------- other files

  /** No run touches a file outside the family. */
  lemma {:induction false} OthersUntouched(c: Config, s: Sink, es: seq<Event>, name: string)
    requires !InFamily(c, name)
    ensures Lookup(Run(c, s, es).fs, name) == Lookup(s.fs, name)
    decreases |es|
  {
    if es != [] {
      StepOthers(c, s, es[0], name);
      OthersUntouched(c, Step(c, s, es[0]), es[1..], name);
    }
  }

  lemma StepOthers(c: Config, s: Sink, e: Event, name: string)
    requires !InFamily(c, name)
    ensures Lookup(Step(c, s, e).fs, name) == Lookup(s.fs, name)
  {
    assert name != Name(c.base, 0);
    ShiftedOther(c, s.fs, name);
  }

  // ---------------------------------------------------------------- no backup files

  /** With max_files 0 a rotation keeps the base file: it grows by every record, for ever. */
  lemma {:induction false} GrowsForever(c: Config, s: Sink, es: seq<Event>)
    requires c.maxFiles == 0
    ensures Content(Run(c, s, es).fs, c.base) == Content(s.fs, c.base) + Flat(Records(c, s, es))
    decreases |es|
  {
    if es == [] {
      assert Content(s.fs, c.base) + "" == Content(s.fs, c.base);
    } else {
      var s1 := Step(c, s, es[0]);
      GrowsForever(c, s1, es[1..]);
      var first := if Accepts(c, s, es[0]) then [Record(es[0].text)] else [];
      FlatConcat(first, Records(c, s1, es[1..]));
      if Accepts(c, s, es[0]) { FlatOne(Record(es[0].text)); }
      assert Content(s1.fs, c.base) == Content(s.fs, c.base) + Flat(first);
      Assoc(Content(s.fs, c.base), Flat(first), Flat(Records(c, s1, es[1..])));
    }
  }

  /** Exactly when a write leaves the base file within the limit or with just its own record. */
  lemma SizeKeptExactly(c: Config, s: Sink, e: Event)
    requires SizeOk(c, s) && Accepts(c, s, e)
    ensures var text := Content(Step(c, s, e).fs, c.base);
            |text| <= c.maxSize || text == Record(e.text)
            <==> c.maxFiles >= 1 || s.size + |e.text| + 1 <= c.maxSize || s.size == 0
  {
    if c.maxFiles >= 1 { ShiftedSlot(c, s.fs, 0); }
    var before := Content(Ready(c, s, e.text, e.opens).fs, c.base);
    assert Content(Step(c, s, e).fs, c.base) == before + Record(e.text);
    if before == "" { assert before + Record(e.text) == Record(e.text); }
  }
}
