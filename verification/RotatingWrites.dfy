/** What one write does to the files, said on file contents alone, and what follows for runs whose
    records fit. */
module RotatingWrites {
  import opened Text
  import opened RotatingFiles
  import opened RotatingHistory

  /** The files' names, for instance. */
  lemma FamilyNames()
    ensures Name("app.log", 0) == "app.log" && Name("app.log", 1) == "app.log.1.log"
    ensures Name("app.log", 12) == "app.log.12.log"
  {
    assert Decimal(1) == "1" && Decimal(12) == Decimal(1) + "2";
  }

  // ---------------------------------------------------------------- one write

  /** The sink is open, the level lets the entry through, and there is text to write. */
  predicate Writes(s: Sink, level: Level, text: string) {
    s.open && AtOrAbove(level, s.minLevel) && text != ""
  }

  /** Together with the base file's content the record stays within the limit. */
  predicate Fits(c: Config, s: Sink, text: string) {
    |Content(s.fs, c.base)| + |text| + 1 <= c.maxSize
  }

  lemma Considers(s: Sink, level: Level, text: string, opens: bool)
    ensures Considered(s, Event.Write(level, text, opens)) <==> Writes(s, level, text)
  {
    ShouldLogExactly(level, s.minLevel);
  }

  /** A filtered or empty entry, or one for a closed sink, changes nothing. */
  lemma WriteIgnored(c: Config, s: Sink, level: Level, text: string, opens: bool)
    requires !Writes(s, level, text)
    ensures Step(c, s, Event.Write(level, text, opens)) == s
  {
    Considers(s, level, text, opens);
  }

  /** A record that fits is appended to the base file; no other file changes. */
  lemma WriteFits(c: Config, s: Sink, level: Level, text: string, opens: bool)
    requires SizeOk(c, s) && Writes(s, level, text) && Fits(c, s, text)
    ensures var s' := Step(c, s, Event.Write(level, text, opens));
            && s'.open && SizeOk(c, s') && s'.minLevel == s.minLevel
            && Content(s'.fs, c.base) == Content(s.fs, c.base) + (text + "\n")
            && forall name :: name != c.base ==> Lookup(s'.fs, name) == Lookup(s.fs, name)
  {
    Considers(s, level, text, opens);
  }

  lemma RotatedBase(c: Config, s: Sink, level: Level, text: string)
    requires SizeOk(c, s) && Writes(s, level, text) && !Fits(c, s, text) && c.maxFiles >= 1
    ensures var s' := Step(c, s, Event.Write(level, text, true));
            s'.open && SizeOk(c, s') && s'.minLevel == s.minLevel && Content(s'.fs, c.base) == text + "\n"
  {
    Considers(s, level, text, true);
    ShiftedSlot(c, s.fs, 0);
    assert "" + (text + "\n") == text + "\n";
  }

  lemma RotatedOther(c: Config, s: Sink, level: Level, text: string, name: string)
    requires SizeOk(c, s) && Writes(s, level, text) && !Fits(c, s, text) && name != c.base
    ensures Lookup(Step(c, s, Event.Write(level, text, true)).fs, name) == Lookup(Shifted(c, s.fs), name)
  {
    Considers(s, level, text, true);
  }

  lemma RotatedSlot(c: Config, s: Sink, level: Level, text: string, k: nat)
    requires SizeOk(c, s) && Writes(s, level, text) && !Fits(c, s, text) && k < c.maxFiles
    ensures Lookup(Step(c, s, Event.Write(level, text, true)).fs, Name(c.base, k + 1)) == Lookup(s.fs, Name(c.base, k))
  {
    NamesDiffer(c.base, 0, k + 1);
    RotatedOther(c, s, level, text, Name(c.base, k + 1));
    ShiftedSlot(c, s.fs, k + 1);
  }

  /** A record that does not fit starts a new base file; file k becomes file k + 1, the last one goes,
      and files outside the family stay. */
  lemma WriteRotates(c: Config, s: Sink, level: Level, text: string)
    requires SizeOk(c, s) && Writes(s, level, text) && !Fits(c, s, text) && c.maxFiles >= 1
    ensures var s' := Step(c, s, Event.Write(level, text, true));
            && s'.open && SizeOk(c, s') && s'.minLevel == s.minLevel
            && Content(s'.fs, c.base) == text + "\n"
            && (forall k :: 0 <= k < c.maxFiles ==>
                  Lookup(s'.fs, Name(c.base, k + 1)) == Lookup(s.fs, Name(c.base, k)))
            && (forall name :: !InFamily(c, name) ==> Lookup(s'.fs, name) == Lookup(s.fs, name))
  {
    var s' := Step(c, s, Event.Write(level, text, true));
    RotatedBase(c, s, level, text);
    forall k | 0 <= k < c.maxFiles
      ensures Lookup(s'.fs, Name(c.base, k + 1)) == Lookup(s.fs, Name(c.base, k))
    {
      RotatedSlot(c, s, level, text, k);
    }
    forall name | !InFamily(c, name) ensures Lookup(s'.fs, name) == Lookup(s.fs, name) {
      StepOthers(c, s, Event.Write(level, text, true), name);
    }
  }

  /** If the new base file cannot be opened the files have moved, the record is lost, and the sink is
      closed. */
  lemma WriteCannotOpen(c: Config, s: Sink, level: Level, text: string)
    requires SizeOk(c, s) && Writes(s, level, text) && !Fits(c, s, text) && c.maxFiles >= 1
    ensures var s' := Step(c, s, Event.Write(level, text, false));
            && !s'.open && Lookup(s'.fs, c.base) == None
            && (forall k :: 0 <= k < c.maxFiles ==>
                  Lookup(s'.fs, Name(c.base, k + 1)) == Lookup(s.fs, Name(c.base, k)))
  {
    Considers(s, level, text, false);
    ShiftedSlot(c, s.fs, 0);
    forall k | 0 <= k < c.maxFiles
      ensures Lookup(Shifted(c, s.fs), Name(c.base, k + 1)) == Lookup(s.fs, Name(c.base, k))
    {
      ShiftedSlot(c, s.fs, k + 1);
    }
  }

  /** Without backup files a record that does not fit is appended all the same. */
  lemma WriteWithoutBackups(c: Config, s: Sink, level: Level, text: string)
    requires SizeOk(c, s) && Writes(s, level, text) && !Fits(c, s, text) && c.maxFiles == 0
    ensures var s' := Step(c, s, Event.Write(level, text, true));
            && s'.open && Content(s'.fs, c.base) == Content(s.fs, c.base) + (text + "\n")
            && forall name :: name != c.base ==> Lookup(s'.fs, name) == Lookup(s.fs, name)
  {
    Considers(s, level, text, true);
  }

  /** Records are discarded only by a write that does not fit. */
  lemma DropsOnlyWhenFull(c: Config, s: Sink, a: Archive, e: Event)
    requires SizeOk(c, s) && |a.files| >= 1 && ArchiveStep(c, s, a, e).dropped != a.dropped
    ensures e.Write? && Writes(s, e.level, e.text) && !Fits(c, s, e.text)
  {
    if e.Write? { Considers(s, e.level, e.text, e.opens); }
  }

  // ---------------------------------------------------------------- runs that fit

  /** The records the levels let through, whatever the files are. */
  function Wanted(min: Level, es: seq<Event>): seq<string>
    decreases |es|
  {
    if es == [] then []
    else
      match es[0]
      case SetLevel(level) => Wanted(level, es[1..])
      case Write(level, text, _) =>
        (if AtOrAbove(level, min) && text != "" then [text + "\n"] else []) + Wanted(min, es[1..])
  }

  /** After the events the base file has grown by `text`, and nothing else has changed. */
  ghost predicate Grew(c: Config, s: Sink, s': Sink, text: string) {
    && s'.open && SizeOk(c, s') && Content(s'.fs, c.base) == Content(s.fs, c.base) + text
    && forall name :: name != c.base ==> Lookup(s'.fs, name) == Lookup(s.fs, name)
  }

  lemma GrewTwice(c: Config, s: Sink, s1: Sink, s2: Sink, a: string, b: string)
    requires Grew(c, s, s1, a) && Grew(c, s1, s2, b)
    ensures Grew(c, s, s2, a + b)
  {
    Assoc(Content(s.fs, c.base), a, b);
  }

  lemma StepGrows(c: Config, s: Sink, e: Event)
    requires SizeOk(c, s) && s.open
    requires |Content(s.fs, c.base)| + |Flat(Wanted(s.minLevel, [e]))| <= c.maxSize
    ensures Grew(c, s, Step(c, s, e), Flat(Wanted(s.minLevel, [e])))
    ensures Step(c, s, e).minLevel == if e.SetLevel? then e.level else s.minLevel
  {
    assert [e][1..] == [];
    assert Content(s.fs, c.base) + "" == Content(s.fs, c.base);
    match e
    case SetLevel(level) =>
    case Write(level, text, opens) =>
      ShouldLogExactly(level, s.minLevel);
      if Writes(s, level, text) {
        assert Wanted(s.minLevel, [e]) == [text + "\n"];
        FlatOne(text + "\n");
        WriteFits(c, s, level, text, opens);
      } else {
        WriteIgnored(c, s, level, text, opens);
      }
  }

  lemma WantedFirst(min: Level, es: seq<Event>)
    requires es != []
    ensures Wanted(min, es) == Wanted(min, [es[0]]) + Wanted(if es[0].SetLevel? then es[0].level else min, es[1..])
  {
    assert [es[0]][1..] == [];
  }

  /** A run whose records fit the limit drops nothing and touches no other file: the base file ends
      with all of them. */
  lemma {:induction false} FittingRunKeepsAll(c: Config, s: Sink, es: seq<Event>)
    requires SizeOk(c, s) && s.open
    requires |Content(s.fs, c.base)| + |Flat(Wanted(s.minLevel, es))| <= c.maxSize
    ensures Grew(c, s, Run(c, s, es), Flat(Wanted(s.minLevel, es)))
    decreases |es|
  {
    if es == [] {
      assert Content(s.fs, c.base) + "" == Content(s.fs, c.base);
    } else {
      var s1 := Step(c, s, es[0]);
      var first := Wanted(s.minLevel, [es[0]]);
      var rest := Wanted(if es[0].SetLevel? then es[0].level else s.minLevel, es[1..]);
      WantedFirst(s.minLevel, es);
      FlatConcat(first, rest);
      StepGrows(c, s, es[0]);
      FittingRunKeepsAll(c, s1, es[1..]);
      GrewTwice(c, s, s1, Run(c, s1, es[1..]), Flat(first), Flat(rest));
    }
  }
}
