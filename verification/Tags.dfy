/** The tag operations of the log context, on tag lists, and what any sequence of them keeps. */
module Tags {
  import opened Text

  const KEY_LEN: nat := 32
  const VAL_LEN: nat := 64
  const MAX_TAGS: nat := 8
  const MAX_GLOBALS: nat := 16

  type Tags = seq<Tag>

  // ---------------------------------------------------------------- C strings

  function Trunc(s: string, n: nat): (r: string)
    ensures |r| == (if |s| <= n then |s| else n) && r <= s
  {
    if |s| <= n then s else s[..n]
  }

  /** strncmp(a, b, n) == 0, for strings given without their terminators. */
  predicate SameUpTo(a: string, b: string, n: nat) {
    Trunc(a, n) == Trunc(b, n)
  }

  /** A stored tag: both parts leave room for the terminator. */
  predicate Stored(t: Tag) {
    |t.key| <= KEY_LEN - 1 && |t.value| <= VAL_LEN - 1
  }

  predicate AllStored(ts: Tags) {
    forall i :: 0 <= i < |ts| ==> Stored(ts[i])
  }

  function Make(key: string, value: string): (t: Tag)
    ensures Stored(t)
  {
    Tag(Trunc(key, KEY_LEN - 1), Trunc(value, VAL_LEN - 1))
  }

  predicate Matches(t: Tag, key: string) {
    SameUpTo(t.key, key, KEY_LEN)
  }

  /** A stored key matches the very same key only; a key that was cut never matches again. */
  lemma MatchesExactly(t: Tag, key: string)
    requires Stored(t)
    ensures Matches(t, key) <==> t.key == key
    ensures Matches(Make(key, t.value), key) <==> |key| < KEY_LEN
  {
    if |key| >= KEY_LEN {
      assert |Trunc(t.key, KEY_LEN)| < KEY_LEN;
    }
  }

  /** Keys of up to 31 characters and values of up to 63 are stored whole. */
  lemma StoredWhole(key: string, value: string)
    ensures Matches(Make(key, value), key) <==> |key| <= 31
    ensures Make(key, value).key == key <==> |key| <= 31
    ensures Make(key, value).value == value <==> |value| <= 63
  {
    MatchesExactly(Make(key, value), key);
  }

  // ---------------------------------------------------------------- operations

  predicate Has(ts: Tags, key: string) {
    exists i :: 0 <= i < |ts| && ts[i].key == key
  }

  /** The first tag the key matches, or |ts|. */
  function First(ts: Tags, key: string): (i: nat)
    ensures i <= |ts| && (i < |ts| ==> Matches(ts[i], key))
    ensures forall j :: 0 <= j < i ==> !Matches(ts[j], key)
  {
    if ts == [] || Matches(ts[0], key) then 0
    else
      assert forall j :: 1 <= j < |ts| ==> ts[j] == ts[1..][j - 1];
      1 + First(ts[1..], key)
  }

  /** The last tag the key matches, or |ts|. */
  function Last(ts: Tags, key: string): (i: nat)
    ensures i <= |ts| && (i < |ts| ==> Matches(ts[i], key))
    ensures forall j :: 0 <= j < |ts| && (i == |ts| || i < j) ==> !Matches(ts[j], key)
  {
    if ts == [] then 0
    else
      var n := |ts| - 1;
      if Matches(ts[n], key) then n
      else
        var i := Last(ts[..n], key);
        if i == n then |ts| else i
  }

  /** Overwritten by the last tag, which is then popped. */
  function RemoveAt(ts: Tags, i: nat): Tags
    requires i < |ts|
  {
    ts[i := ts[|ts| - 1]][..|ts| - 1]
  }

  function PushBack(ts: Tags, t: Tag, capacity: nat): Tags {
    if |ts| < capacity then ts + [t] else ts
  }

  function SetGlobal(ts: Tags, key: Option<string>, value: Option<string>): Tags {
    if key.None? || value.None? then ts
    else
      var i := First(ts, key.value);
      if i < |ts| then ts[i := ts[i].(value := Trunc(value.value, VAL_LEN - 1))]
      else PushBack(ts, Make(key.value, value.value), MAX_GLOBALS)
  }

  function RemoveGlobal(ts: Tags, key: Option<string>): Tags {
    if key.None? then ts
    else
      var i := First(ts, key.value);
      if i < |ts| then RemoveAt(ts, i) else ts
  }

  function PushScoped(ts: Tags, key: Option<string>, value: Option<string>): Tags {
    if key.None? || value.None? then ts else PushBack(ts, Make(key.value, value.value), MAX_TAGS)
  }

  function PopScoped(ts: Tags, key: Option<string>): Tags {
    if key.None? then ts
    else
      var i := Last(ts, key.value);
      if i < |ts| then RemoveAt(ts, i) else ts
  }

  /** There is room for 8 scoped tags and for 16 global ones of new keys. */
  lemma RoomForTags(ts: Tags, key: string, value: string)
    requires AllStored(ts)
    ensures |PushScoped(ts, Some(key), Some(value))| == if |ts| < 8 then |ts| + 1 else |ts|
    ensures !Has(ts, key) ==> |SetGlobal(ts, Some(key), Some(value))| == if |ts| < 16 then |ts| + 1 else |ts|
  {
    forall i | 0 <= i < |ts| ensures Matches(ts[i], key) <==> ts[i].key == key { MatchesExactly(ts[i], key); }
  }

  // ---------------------------------------------------------------- scoped programs

  /** A block: nothing more, or a ScopedTag over a block, and then the rest of the block. */
  datatype Block = End | Scope(key: Option<string>, value: Option<string>, body: Block, rest: Block)

  /** The thread's tags after the block has run. */
  function Leave(b: Block, ts: Tags): Tags {
    match b
    case End => ts
    case Scope(k, v, body, rest) => Leave(rest, PopScoped(Leave(body, PushScoped(ts, k, v)), k))
  }

  /** The tags the thread has at the start of each scope's body, in order of execution. */
  function Seen(b: Block, ts: Tags): seq<Tags> {
    match b
    case End => []
    case Scope(k, v, body, rest) =>
      var inner := PushScoped(ts, k, v);
      [inner] + Seen(body, inner) + Seen(rest, PopScoped(Leave(body, inner), k))
  }

  /** The same by lexical scope: the tags of the enclosing scopes, outermost first. */
  function Lexical(b: Block, ts: Tags): seq<Tags> {
    match b
    case End => []
    case Scope(k, v, body, rest) =>
      var inner := ts + [Make(OrEmpty(k), OrEmpty(v))];
      [inner] + Lexical(body, inner) + Lexical(rest, ts)
  }

  function Depth(b: Block): nat {
    match b
    case End => 0
    case Scope(_, _, body, rest) => if 1 + Depth(body) >= Depth(rest) then 1 + Depth(body) else Depth(rest)
  }

  /** Every key and value is given, and every key fits. */
  predicate Plain(b: Block) {
    match b
    case End => true
    case Scope(k, v, body, rest) => k.Some? && v.Some? && |k.value| < KEY_LEN && Plain(body) && Plain(rest)
  }

  lemma PopPushed(ts: Tags, t: Tag, key: string)
    requires Matches(t, key)
    ensures PopScoped(ts + [t], Some(key)) == ts
  {
    assert (ts + [t])[|ts|] == t;
    assert Last(ts + [t], key) == |ts|;
  }

  /** Leaving a block restores the tags exactly, for every block of plain scopes nested no deeper
      than there is room, repeated keys included. */
  lemma {:induction false} ScopesRestore(b: Block, ts: Tags)
    requires Plain(b) && |ts| + Depth(b) <= MAX_TAGS
    ensures Leave(b, ts) == ts
    decreases b
  {
    match b
    case End =>
    case Scope(k, v, body, rest) =>
      var t := Make(k.value, v.value);
      MatchesExactly(t, k.value);
      ScopesRestore(body, ts + [t]);
      PopPushed(ts, t, k.value);
      ScopesRestore(rest, ts);
  }

  /** Inside every scope the thread has exactly the tags of the enclosing scopes. */
  lemma {:induction false} ScopesAreLexical(b: Block, ts: Tags)
    requires Plain(b) && |ts| + Depth(b) <= MAX_TAGS
    ensures Seen(b, ts) == Lexical(b, ts)
    decreases b
  {
    match b
    case End =>
    case Scope(k, v, body, rest) =>
      var t := Make(k.value, v.value);
      MatchesExactly(t, k.value);
      ScopesRestore(body, ts + [t]);
      PopPushed(ts, t, k.value);
      ScopesAreLexical(body, ts + [t]);
      ScopesAreLexical(rest, ts);
  }

  /** Whether the constructor of a ScopedTag adds a tag. */
  predicate Pushes(ts: Tags, key: Option<string>, value: Option<string>) {
    key.Some? && value.Some? && |ts| < MAX_TAGS
  }

  /** A scope gives back what it took: there is no key; or its tag is pushed and the key fits; or
      its tag is not pushed and no tag has that key. */
  predicate Fine1(ts: Tags, key: Option<string>, value: Option<string>) {
    key.None? || if Pushes(ts, key, value) then |key.value| < KEY_LEN else !Has(ts, key.value)
  }

  lemma ScopeRestoresExactly(ts: Tags, key: Option<string>, value: Option<string>)
    requires AllStored(ts)
    ensures PopScoped(PushScoped(ts, key, value), key) == ts <==> Fine1(ts, key, value)
  {
    if key.Some? {
      if Pushes(ts, key, value) {
        PushedExactly(ts, Make(key.value, value.value), key.value, value.value);
      } else {
        PopExactly(ts, key.value);
      }
    }
  }

  /** Every scope of the block, when it is left, restores the tags it was entered with. */
  predicate AllRestore(b: Block, ts: Tags) {
    match b
    case End => true
    case Scope(k, v, body, rest) =>
      var inner := PushScoped(ts, k, v);
      AllRestore(body, inner) && PopScoped(Leave(body, inner), k) == ts && AllRestore(rest, ts)
  }

  /** Every scope of the block is fine among the tags of its enclosing scopes. */
  predicate Fine(b: Block, ts: Tags) {
    match b
    case End => true
    case Scope(k, v, body, rest) => Fine1(ts, k, v) && Fine(body, PushScoped(ts, k, v)) && Fine(rest, ts)
  }

  lemma {:induction false} AllRestoreLeave(b: Block, ts: Tags)
    requires AllRestore(b, ts)
    ensures Leave(b, ts) == ts
    decreases b
  {
    match b
    case End =>
    case Scope(_, _, _, rest) => AllRestoreLeave(rest, ts);
  }

  /** For every block, with any keys and values and any depth: all scopes restore the tags exactly
      if each is fine. */
  lemma {:induction false} AllRestoreExactly(b: Block, ts: Tags)
    requires AllStored(ts)
    ensures AllRestore(b, ts) <==> Fine(b, ts)
    decreases b
  {
    match b
    case End =>
    case Scope(k, v, body, rest) =>
      var inner := PushScoped(ts, k, v);
      AllRestoreExactly(body, inner);
      AllRestoreExactly(rest, ts);
      ScopeRestoresExactly(ts, k, v);
      if AllRestore(body, inner) { AllRestoreLeave(body, inner); }
  }

  lemma PopExactly(ts: Tags, key: string)
    requires AllStored(ts)
    ensures PopScoped(ts, Some(key)) == ts <==> !Has(ts, key)
  {
    forall i | 0 <= i < |ts| ensures Matches(ts[i], key) <==> ts[i].key == key { MatchesExactly(ts[i], key); }
  }

  lemma PushedExactly(ts: Tags, t: Tag, key: string, value: string)
    requires AllStored(ts) && t == Make(key, value)
    ensures PopScoped(ts + [t], Some(key)) == ts <==> |key| < KEY_LEN
  {
    if |key| < KEY_LEN {
      MatchesExactly(t, key);
      PopPushed(ts, t, key);
    } else {
      forall i | 0 <= i < |ts + [t]| ensures !Matches((ts + [t])[i], key) { MatchesExactly((ts + [t])[i], key); }
    }
  }

  // ---------------------------------------------------------------- which tag goes

  /** Without tag i, whose place the last tag takes. */
  ghost predicate Without(ts: Tags, i: nat, r: Tags)
    requires i < |ts|
  {
    && |r| == |ts| - 1
    && (forall j :: 0 <= j < |r| && j != i ==> r[j] == ts[j])
    && (i < |r| ==> r[i] == ts[|ts| - 1])
    && multiset(r) == multiset(ts) - multiset{ts[i]}
  }

  lemma RemoveAtWithout(ts: Tags, i: nat)
    requires i < |ts|
    ensures Without(ts, i, RemoveAt(ts, i))
  {
    var n := |ts| - 1;
    RemoveAtSlots(ts, i);
    assert ts == ts[..n] + [ts[n]];
    if i < n {
      assert RemoveAt(ts, i) == ts[..n][i := ts[n]];
    } else {
      assert RemoveAt(ts, i) == ts[..n];
    }
  }

  /** Leaving a scope removes the last tag that has the key, whichever it is. */
  lemma PopScopedExactly(ts: Tags, key: string, i: nat)
    requires AllStored(ts) && i < |ts| && ts[i].key == key
    requires forall j :: i < j < |ts| ==> ts[j].key != key
    ensures Without(ts, i, PopScoped(ts, Some(key)))
  {
    forall j | 0 <= j < |ts| ensures Matches(ts[j], key) <==> ts[j].key == key { MatchesExactly(ts[j], key); }
    assert Last(ts, key) == i;
    RemoveAtWithout(ts, i);
  }

  /** Removing a global tag removes the first one that has the key. */
  lemma RemoveGlobalExactly(ts: Tags, key: string, i: nat)
    requires AllStored(ts) && i < |ts| && ts[i].key == key
    requires forall j :: 0 <= j < i ==> ts[j].key != key
    ensures Without(ts, i, RemoveGlobal(ts, Some(key)))
  {
    forall j | 0 <= j < |ts| ensures Matches(ts[j], key) <==> ts[j].key == key { MatchesExactly(ts[j], key); }
    assert First(ts, key) == i;
    RemoveAtWithout(ts, i);
  }

  /** A key no tag has removes nothing. */
  lemma MissingKeyStays(ts: Tags, key: string)
    requires AllStored(ts) && !Has(ts, key)
    ensures PopScoped(ts, Some(key)) == ts && RemoveGlobal(ts, Some(key)) == ts
  {
    forall j | 0 <= j < |ts| ensures !Matches(ts[j], key) { MatchesExactly(ts[j], key); }
  }

  /** For instance: on a full list, a scope that repeats the key of an enclosing scope pushes
      nothing and, when it is left, removes the enclosing scope's tag, the last one with that key. */
  lemma NinthScopePops(ts: Tags, i: nat, value: string)
    requires AllStored(ts) && |ts| == MAX_TAGS && i < MAX_TAGS
    requires forall j :: i < j < |ts| ==> ts[j].key != ts[i].key
    ensures var key := Some(ts[i].key);
            && PushScoped(ts, key, Some(value)) == ts
            && Without(ts, i, Leave(Scope(key, Some(value), End, End), ts))
            && !Fine1(ts, key, Some(value))
  {
    PopScopedExactly(ts, ts[i].key, i);
    assert Has(ts, ts[i].key);
  }

  // ---------------------------------------------------------------- global tags

  predicate Unique(ts: Tags) {
    forall i, j :: 0 <= i < j < |ts| ==> ts[i].key != ts[j].key
  }

  /** The map a list of global tags stands for. */
  function MapOf(ts: Tags): (m: map<string, string>)
    ensures forall k :: k in m ==> Has(ts, k)
  {
    if ts == [] then map[]
    else
      assert forall i :: 0 <= i < |ts| - 1 ==> ts[1..][i] == ts[i + 1];
      MapOf(ts[1..])[ts[0].key := ts[0].value]
  }

  /** With unique keys, the map has exactly the listed pairs. */
  lemma {:induction false} MapAt(ts: Tags, i: nat)
    requires Unique(ts) && i < |ts|
    ensures ts[i].key in MapOf(ts) && MapOf(ts)[ts[i].key] == ts[i].value
  {
    if i > 0 {
      assert forall j :: 0 <= j < |ts| - 1 ==> ts[1..][j] == ts[j + 1];
      MapAt(ts[1..], i - 1);
    }
  }

  lemma {:induction false} MapSize(ts: Tags)
    requires Unique(ts)
    ensures |MapOf(ts)| == |ts|
  {
    if ts != [] {
      assert forall j :: 0 <= j < |ts| - 1 ==> ts[1..][j] == ts[j + 1];
      MapSize(ts[1..]);
      assert ts[0].key !in MapOf(ts[1..]);
    }
  }

  predicate GlobalsOk(ts: Tags) {
    AllStored(ts) && Unique(ts) && |ts| <= MAX_GLOBALS
  }

  lemma MapHas(ts: Tags, key: string)
    requires Unique(ts)
    ensures key in MapOf(ts) <==> Has(ts, key)
  {
    if Has(ts, key) {
      var i :| 0 <= i < |ts| && ts[i].key == key;
      MapAt(ts, i);
    }
  }

  /** A list with unique keys stands for the map with just its pairs. */
  lemma SameMap(ts: Tags, m: map<string, string>)
    requires Unique(ts)
    requires forall i :: 0 <= i < |ts| ==> ts[i].key in m && m[ts[i].key] == ts[i].value
    requires forall k :: k in m ==> Has(ts, k)
    ensures MapOf(ts) == m
  {
    assert forall k :: k in MapOf(ts) ==> k in m;
    forall k | k in m ensures k in MapOf(ts) && MapOf(ts)[k] == m[k] {
      SameAt(ts, m, k);
    }
  }

  lemma SameAt(ts: Tags, m: map<string, string>, k: string)
    requires Unique(ts) && Has(ts, k) && k in m
    requires forall i :: 0 <= i < |ts| ==> ts[i].key in m && m[ts[i].key] == ts[i].value
    ensures k in MapOf(ts) && MapOf(ts)[k] == m[k]
  {
    var i :| 0 <= i < |ts| && ts[i].key == k;
    MapAt(ts, i);
  }

  lemma MapAll(ts: Tags)
    requires Unique(ts)
    ensures forall i :: 0 <= i < |ts| ==> ts[i].key in MapOf(ts) && MapOf(ts)[ts[i].key] == ts[i].value
  {
    forall i | 0 <= i < |ts| ensures ts[i].key in MapOf(ts) && MapOf(ts)[ts[i].key] == ts[i].value { MapAt(ts, i); }
  }

  lemma FirstFinds(ts: Tags, key: string)
    requires AllStored(ts)
    ensures First(ts, key) < |ts| <==> Has(ts, key)
    ensures First(ts, key) < |ts| ==> ts[First(ts, key)].key == key
  {
    forall i | 0 <= i < |ts| ensures Matches(ts[i], key) <==> ts[i].key == key { MatchesExactly(ts[i], key); }
  }

  // The three list edits, on maps.

  lemma UpdateMap(ts: Tags, i: nat, value: string)
    requires Unique(ts) && i < |ts|
    ensures var n := ts[i := ts[i].(value := value)];
            Unique(n) && MapOf(n) == MapOf(ts)[ts[i].key := value]
  {
    var n := ts[i := ts[i].(value := value)];
    var m := MapOf(ts)[ts[i].key := value];
    MapAll(ts);
    assert forall j :: 0 <= j < |ts| ==> n[j].key == ts[j].key;
    forall k | k in m ensures Has(n, k) {
      var j :| 0 <= j < |ts| && ts[j].key == k;
      assert n[j].key == k;
    }
    SameMap(n, m);
  }

  lemma AppendMap(ts: Tags, t: Tag)
    requires Unique(ts) && !Has(ts, t.key)
    ensures Unique(ts + [t]) && MapOf(ts + [t]) == MapOf(ts)[t.key := t.value]
  {
    var n := ts + [t];
    var m := MapOf(ts)[t.key := t.value];
    MapAll(ts);
    assert n[|ts|] == t;
    forall k | k in m ensures Has(n, k) {
      if k != t.key {
        var j :| 0 <= j < |ts| && ts[j].key == k;
        assert n[j].key == k;
      }
    }
    SameMap(n, m);
  }

  lemma RemoveAtSlots(ts: Tags, i: nat)
    requires i < |ts|
    ensures var n := RemoveAt(ts, i);
            |n| == |ts| - 1 && forall j :: 0 <= j < |n| ==> n[j] == if j == i then ts[|ts| - 1] else ts[j]
  {
  }

  /** Setting a global tag of a key that is there changes the value of the first tag with the key, and
      nothing else; a new key is appended if there is room. */
  lemma SetGlobalExactly(ts: Tags, key: string, value: string)
    requires AllStored(ts)
    ensures forall i :: 0 <= i < |ts| && ts[i].key == key && (forall j :: 0 <= j < i ==> ts[j].key != key) ==>
              SetGlobal(ts, Some(key), Some(value)) == ts[i := Tag(key, Trunc(value, VAL_LEN - 1))]
    ensures !Has(ts, key) ==>
              SetGlobal(ts, Some(key), Some(value)) ==
                if |ts| < MAX_GLOBALS then ts + [Tag(Trunc(key, KEY_LEN - 1), Trunc(value, VAL_LEN - 1))] else ts
  {
    forall j | 0 <= j < |ts| ensures Matches(ts[j], key) <==> ts[j].key == key { MatchesExactly(ts[j], key); }
    forall i | 0 <= i < |ts| && ts[i].key == key && (forall j :: 0 <= j < i ==> ts[j].key != key)
      ensures SetGlobal(ts, Some(key), Some(value)) == ts[i := Tag(key, Trunc(value, VAL_LEN - 1))]
    {
      assert First(ts, key) == i;
    }
  }

  lemma RemoveAtUnique(ts: Tags, i: nat)
    requires Unique(ts) && i < |ts|
    ensures Unique(RemoveAt(ts, i))
  {
    RemoveAtSlots(ts, i);
  }

  lemma RemoveAtHas(ts: Tags, i: nat, key: string)
    requires i < |ts| && Has(ts, key) && ts[i].key != key
    ensures Has(RemoveAt(ts, i), key)
  {
    var j :| 0 <= j < |ts| && ts[j].key == key;
    RemoveAtSlots(ts, i);
    assert RemoveAt(ts, i)[if j == |ts| - 1 then i else j].key == key;
  }

  /** The pairs that stay are the map's, without the removed key. */
  lemma RemoveAtPairs(ts: Tags, i: nat)
    requires Unique(ts) && i < |ts|
    ensures var n, m := RemoveAt(ts, i), MapOf(ts) - {ts[i].key};
            forall j :: 0 <= j < |n| ==> n[j].key in m && m[n[j].key] == n[j].value
  {
    MapAll(ts);
    RemoveAtSlots(ts, i);
  }

  lemma RemoveMap(ts: Tags, i: nat)
    requires Unique(ts) && i < |ts|
    ensures MapOf(RemoveAt(ts, i)) == MapOf(ts) - {ts[i].key}
  {
    var n := RemoveAt(ts, i);
    var m := MapOf(ts) - {ts[i].key};
    RemoveAtUnique(ts, i);
    RemoveAtPairs(ts, i);
    forall k | k in m ensures Has(n, k) { RemoveAtHas(ts, i, k); }
    SameMap(n, m);
  }

  // ---------------------------------------------------------------- a bounded map

  /** Setting a key of a map with at most MAX_GLOBALS keys: new keys are ignored when it is full. */
  function MapSet(m: map<string, string>, key: string, value: string): map<string, string> {
    if key in m || |m| < MAX_GLOBALS then m[key := value] else m
  }

  /** For a key that fits, setting a global tag sets the key of the map to the cut value. */
  lemma SetGlobalIsMapSet(ts: Tags, key: string, value: string)
    requires GlobalsOk(ts) && |key| < KEY_LEN
    ensures var n := SetGlobal(ts, Some(key), Some(value));
            Unique(n) && MapOf(n) == MapSet(MapOf(ts), key, Trunc(value, VAL_LEN - 1))
  {
    FirstFinds(ts, key);
    MapHas(ts, key);
    MapSize(ts);
    if Has(ts, key) {
      UpdateMap(ts, First(ts, key), Trunc(value, VAL_LEN - 1));
    } else if |ts| < MAX_GLOBALS {
      AppendMap(ts, Make(key, value));
    }
  }

  /** For every key, removing a global tag removes the key of the map. */
  lemma RemoveGlobalIsMapRemove(ts: Tags, key: string)
    requires GlobalsOk(ts)
    ensures var n := RemoveGlobal(ts, Some(key)); Unique(n) && MapOf(n) == MapOf(ts) - {key}
  {
    FirstFinds(ts, key);
    MapHas(ts, key);
    if Has(ts, key) {
      RemoveMap(ts, First(ts, key));
      RemoveAtUnique(ts, First(ts, key));
    } else {
      assert MapOf(ts) - {key} == MapOf(ts);
    }
  }

  /** Exactly when setting a global tag leaves two tags with one key: the key is too long, there
      is room, and what the key is cut to is in use. */
  lemma UniqueExactly(ts: Tags, key: string, value: string)
    requires GlobalsOk(ts)
    ensures Unique(SetGlobal(ts, Some(key), Some(value)))
            <==> !(|key| >= KEY_LEN && |ts| < MAX_GLOBALS && Has(ts, Trunc(key, KEY_LEN - 1)))
  {
    if |key| < KEY_LEN {
      SetGlobalIsMapSet(ts, key, value);
    } else {
      FirstFinds(ts, key);
      if |ts| < MAX_GLOBALS {
        var t := Make(key, value);
        if Has(ts, t.key) {
          var i :| 0 <= i < |ts| && ts[i].key == t.key;
          assert (ts + [t])[i].key == (ts + [t])[|ts|].key;
        } else {
          AppendMap(ts, t);
        }
      }
    }
  }

  /** For instance: setting a key of KEY_LEN characters or more twice on an empty context leaves two
      tags with one key. */
  lemma LongKeyTwice(key: string, value: string)
    requires |key| >= KEY_LEN
    ensures SetGlobal(SetGlobal([], Some(key), Some(value)), Some(key), Some(value))
         == [Make(key, value), Make(key, value)]
    ensures !Unique([Make(key, value), Make(key, value)])
  {
    var t := Make(key, value);
    MatchesExactly(t, key);
    assert SetGlobal([], Some(key), Some(value)) == [t];
    assert First([t], key) == 1;
    assert [t, t][0].key == [t, t][1].key;
  }

  // ---------------------------------------------------------------- runs

  datatype GlobalCall = Set(key: Option<string>, value: Option<string>) | Remove(key: Option<string>)

  function RunGlobals(ts: Tags, calls: seq<GlobalCall>): Tags
    decreases |calls|
  {
    if calls == [] then ts
    else
      match calls[0]
      case Set(k, v) => RunGlobals(SetGlobal(ts, k, v), calls[1..])
      case Remove(k) => RunGlobals(RemoveGlobal(ts, k), calls[1..])
  }

  /** The same calls on the bounded map; calls with a null pointer do nothing. */
  function RunMap(m: map<string, string>, calls: seq<GlobalCall>): map<string, string>
    decreases |calls|
  {
    if calls == [] then m
    else
      match calls[0]
      case Set(k, v) =>
        RunMap(if k.None? || v.None? then m else MapSet(m, k.value, Trunc(v.value, VAL_LEN - 1)), calls[1..])
      case Remove(k) => RunMap(if k.None? then m else m - {k.value}, calls[1..])
  }

  predicate ShortKeys(calls: seq<GlobalCall>) {
    forall i :: 0 <= i < |calls| && calls[i].Set? && calls[i].key.Some? ==> |calls[i].key.value| < KEY_LEN
  }

  lemma SetGlobalOk(ts: Tags, key: Option<string>, value: Option<string>)
    requires GlobalsOk(ts) && (key.Some? ==> |key.value| < KEY_LEN)
    ensures GlobalsOk(SetGlobal(ts, key, value))
  {
    if key.Some? && value.Some? { SetGlobalIsMapSet(ts, key.value, value.value); }
  }

  lemma RemoveGlobalOk(ts: Tags, key: Option<string>)
    requires GlobalsOk(ts)
    ensures GlobalsOk(RemoveGlobal(ts, key))
  {
    if key.Some? {
      RemoveGlobalIsMapRemove(ts, key.value);
      var i := First(ts, key.value);
      if i < |ts| { RemoveAtSlots(ts, i); }
    }
  }

  /** Any run of global tag calls whose set keys fit keeps keys unique and is a run of the bounded
      map. */
  lemma {:induction false} GlobalsRefineMap(ts: Tags, calls: seq<GlobalCall>)
    requires GlobalsOk(ts) && ShortKeys(calls)
    ensures GlobalsOk(RunGlobals(ts, calls)) && MapOf(RunGlobals(ts, calls)) == RunMap(MapOf(ts), calls)
    decreases |calls|
  {
    if calls != [] {
      match calls[0]
      case Set(k, v) =>
        SetGlobalOk(ts, k, v);
        if k.Some? && v.Some? { SetGlobalIsMapSet(ts, k.value, v.value); }
        GlobalsRefineMap(SetGlobal(ts, k, v), calls[1..]);
      case Remove(k) =>
        RemoveGlobalOk(ts, k);
        if k.Some? { RemoveGlobalIsMapRemove(ts, k.value); }
        GlobalsRefineMap(RemoveGlobal(ts, k), calls[1..]);
    }
  }
}
