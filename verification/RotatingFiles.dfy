/** RotatingFileSink over a file system that maps names to contents. Every operation succeeds,
    except that opening a file may fail. */
module RotatingFiles {
  import opened Text

  type Files = map<string, string>

  datatype Config = Config(base: string, maxSize: nat, maxFiles: nat)

  // ---------------------------------------------------------------- names

  /** The i-th file of the family; the 0-th is the one being written. */
  function Name(base: string, i: nat): string {
    if i == 0 then base else base + "." + Decimal(i) + ".log"
  }

  lemma NameMiddle(base: string, i: nat)
    requires i > 0
    ensures |Name(base, i)| == |base| + 5 + |Decimal(i)|
    ensures Name(base, i)[|base| + 1..|base| + 1 + |Decimal(i)|] == Decimal(i)
  {
  }

  /** Different files of the family have different names. */
  lemma NamesDiffer(base: string, i: nat, j: nat)
    ensures Name(base, i) == Name(base, j) <==> i == j
  {
    if i != j && Name(base, i) == Name(base, j) {
      if i > 0 { NameMiddle(base, i); }
      if j > 0 { NameMiddle(base, j); }
      DecimalReads(i);
      DecimalReads(j);
    }
  }

  // ---------------------------------------------------------------- file operations

  function Lookup(fs: Files, name: string): Option<string> {
    if name in fs then Some(fs[name]) else None
  }

  function Content(fs: Files, name: string): string {
    if name in fs then fs[name] else ""
  }

  /** rename(2): replaces the target; without a source nothing happens. */
  function Rename(fs: Files, src: string, dst: string): Files {
    if src in fs then (fs - {src})[dst := fs[src]] else fs
  }

  /** The renames for i, i - 1, ..., 1. */
  function Moved(base: string, fs: Files, i: nat): Files
    decreases i
  {
    if i == 0 then fs else Moved(base, Rename(fs, Name(base, i - 1), Name(base, i)), i - 1)
  }

  function Shifted(c: Config, fs: Files): Files {
    if c.maxFiles == 0 then fs else Moved(c.base, fs - {Name(c.base, c.maxFiles)}, c.maxFiles)
  }

  lemma {:induction false} MovedOther(base: string, fs: Files, i: nat, name: string)
    requires forall k :: 0 <= k <= i ==> name != Name(base, k)
    ensures Lookup(Moved(base, fs, i), name) == Lookup(fs, name)
    decreases i
  {
    if i > 0 {
      MovedOther(base, Rename(fs, Name(base, i - 1), Name(base, i)), i - 1, name);
    }
  }

  lemma RenamedLookup(fs: Files, src: string, dst: string, name: string)
    requires src != dst && dst !in fs
    ensures Lookup(Rename(fs, src, dst), name)
         == if name == src then None else if name == dst then Lookup(fs, src) else Lookup(fs, name)
  {
  }

  /** The renames for smaller numbers leave file i where it is. */
  lemma MovedBelow(base: string, fs: Files, i: nat)
    requires i > 0
    ensures Lookup(Moved(base, fs, i - 1), Name(base, i)) == Lookup(fs, Name(base, i))
  {
    forall j | 0 <= j <= i - 1 ensures Name(base, i) != Name(base, j) { NamesDiffer(base, i, j); }
    MovedOther(base, fs, i - 1, Name(base, i));
  }

  lemma {:induction false} MovedSlot(base: string, fs: Files, i: nat, k: nat)
    requires k <= i && Name(base, i) !in fs
    ensures Lookup(Moved(base, fs, i), Name(base, k)) == if k == 0 then None else Lookup(fs, Name(base, k - 1))
    decreases i
  {
    if i > 0 {
      var src, dst := Name(base, i - 1), Name(base, i);
      NamesDiffer(base, i - 1, i);
      if k == i {
        RenamedLookup(fs, src, dst, dst);
        MovedBelow(base, Rename(fs, src, dst), i);
      } else {
        RenamedLookup(fs, src, dst, src);
        MovedSlot(base, Rename(fs, src, dst), i - 1, k);
        if k > 0 {
          NamesDiffer(base, k - 1, i - 1);
          NamesDiffer(base, k - 1, i);
          RenamedLookup(fs, src, dst, Name(base, k - 1));
        }
      }
    }
  }

  /** A rotation moves every file of the family up by one, drops the last one, frees the base name,
      and leaves all other files alone; for any set of files present. */
  lemma ShiftedSlot(c: Config, fs: Files, k: nat)
    requires c.maxFiles >= 1 && k <= c.maxFiles
    ensures Lookup(Shifted(c, fs), Name(c.base, k)) == if k == 0 then None else Lookup(fs, Name(c.base, k - 1))
  {
    MovedSlot(c.base, fs - {Name(c.base, c.maxFiles)}, c.maxFiles, k);
    if k > 0 { NamesDiffer(c.base, k - 1, c.maxFiles); }
  }

  predicate InFamily(c: Config, name: string) {
    exists k :: 0 <= k <= c.maxFiles && name == Name(c.base, k)
  }

  lemma ShiftedOther(c: Config, fs: Files, name: string)
    requires !InFamily(c, name)
    ensures Lookup(Shifted(c, fs), name) == Lookup(fs, name)
  {
    if c.maxFiles > 0 {
      assert name != Name(c.base, c.maxFiles);
      MovedOther(c.base, fs - {Name(c.base, c.maxFiles)}, c.maxFiles, name);
    }
  }

  // ---------------------------------------------------------------- the sink

  datatype Sink = Sink(fs: Files, size: nat, open: bool, minLevel: Level)

  /** One call: a formatted entry with its level and whether an open() it makes would succeed, or
      a change of the sink's level. */
  datatype Event = Write(level: Level, text: string, opens: bool) | SetLevel(level: Level)

  function Opened(c: Config, fs: Files, opens: bool, minLevel: Level): Sink {
    if !opens then Sink(fs, 0, false, minLevel)
    else
      var fs' := if c.base in fs then fs else fs[c.base := ""];
      Sink(fs', |fs'[c.base]|, true, minLevel)
  }

  function Record(text: string): string {
    text + "\n"
  }

  predicate Rotates(c: Config, s: Sink, text: string) {
    s.size + |text| + 1 > c.maxSize
  }

  /** The sink once there is room for the text: rotated if needed. */
  function Ready(c: Config, s: Sink, text: string, opens: bool): Sink {
    if Rotates(c, s, text) then Opened(c, Shifted(c, s.fs), opens, s.minLevel) else s
  }

  function Appended(c: Config, s: Sink, text: string): Sink {
    s.(fs := s.fs[c.base := Content(s.fs, c.base) + Record(text)], size := s.size + |text| + 1)
  }

  predicate Considered(s: Sink, e: Event) {
    e.Write? && ShouldLog(e.level, s.minLevel) && e.text != [] && s.open
  }

  /** The entry reaches a file. */
  predicate Accepts(c: Config, s: Sink, e: Event) {
    Considered(s, e) && Ready(c, s, e.text, e.opens).open
  }

  function Step(c: Config, s: Sink, e: Event): Sink {
    if e.SetLevel? then s.(minLevel := e.level)
    else if !Considered(s, e) then s
    else
      var s1 := Ready(c, s, e.text, e.opens);
      if s1.open then Appended(c, s1, e.text) else s1
  }

  function Run(c: Config, s: Sink, es: seq<Event>): Sink
    decreases |es|
  {
    if es == [] then s else Run(c, Step(c, s, es[0]), es[1..])
  }

  /** The records of the entries that reached a file, in order. */
  function Records(c: Config, s: Sink, es: seq<Event>): seq<string>
    decreases |es|
  {
    if es == [] then []
    else (if Accepts(c, s, es[0]) then [Record(es[0].text)] else []) + Records(c, Step(c, s, es[0]), es[1..])
  }

  // ---------------------------------------------------------------- the class

  class RotatingFileSink {
    const c: Config
    var fs: Files
    var currentSize: nat
    var open: bool
    var minLevel: Level

    ghost function State(): Sink
      reads this
    {
      Sink(fs, currentSize, open, minLevel)
    }

    constructor (c: Config, fs: Files, opens: bool)
      ensures this.c == c && State() == Opened(c, fs, opens, TRACE)
    {
      this.c := c;
      this.fs := fs;
      currentSize := 0;
      open := false;
      minLevel := TRACE;
      new;
      OpenFile(opens);
    }

    method OpenFile(opens: bool)
      requires !open && currentSize == 0
      modifies this
      ensures State() == Opened(c, old(fs), opens, old(minLevel))
    {
      open := opens;
      if !open { return; }
      if c.base !in fs { fs := fs[c.base := ""]; }
      currentSize := |fs[c.base]|;
    }

    method MoveOne(i: nat)
      requires 1 <= i <= c.maxFiles
      modifies this`fs
      ensures fs == Rename(if i == c.maxFiles then old(fs) - {Name(c.base, i)} else old(fs),
                           Name(c.base, i - 1), Name(c.base, i))
    {
      var src := if i == 1 then c.base else c.base + "." + Decimal(i - 1) + ".log";
      var dst := c.base + "." + Decimal(i) + ".log";
      if i == c.maxFiles { fs := fs - {dst}; }
      fs := Rename(fs, src, dst);
    }

    method MoveAll()
      modifies this`fs
      ensures fs == Shifted(c, old(fs))
    {
      var i: nat := c.maxFiles;
      while i > 0
        invariant i <= c.maxFiles
        invariant if i == c.maxFiles then fs == old(fs) else Moved(c.base, fs, i) == Shifted(c, old(fs))
      {
        MoveOne(i);
        i := i - 1;
      }
    }

    method Rotate(opens: bool)
      modifies this
      ensures State() == Opened(c, Shifted(c, old(fs)), opens, old(minLevel))
    {
      open := false;
      MoveAll();
      currentSize := 0;
      OpenFile(opens);
    }

    method SetLevel(level: Level)
      modifies this`minLevel
      ensures State() == Step(c, old(State()), Event.SetLevel(level))
    {
      minLevel := level;
    }

    method Write(level: Level, text: string, opens: bool)
      requires open ==> c.base in fs
      modifies this
      ensures State() == Step(c, old(State()), Event.Write(level, text, opens))
      ensures open ==> c.base in fs
    {
      if !ShouldLog(level, minLevel) { return; }
      if |text| == 0 || !open { return; }
      if currentSize + |text| + 1 > c.maxSize {
        Rotate(opens);
        if !open { return; }
      }
      ghost var text0 := fs[c.base];
      fs := fs[c.base := fs[c.base] + text];
      currentSize := currentSize + |text|;
      fs := fs[c.base := fs[c.base] + "\n"];
      currentSize := currentSize + 1;
      Assoc(text0, text, "\n");
    }
  }
}
