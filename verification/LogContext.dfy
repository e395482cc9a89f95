/** FixedVector and LogContext as code: arrays edited in place by search loops, each operation
    equal to the one on tag lists. */
module LogContext {
  import opened Text
  import T = Tags

  // ---------------------------------------------------------------- FixedVector

  class FixedVector<E> {
    const data: array<E>
    var size: nat

    ghost predicate Valid()
      reads this
    {
      size <= data.Length
    }

    ghost function Contents(): seq<E>
      requires Valid()
      reads this, data
    {
      data[..size]
    }

    constructor (capacity: nat, blank: E)
      ensures Valid() && Contents() == [] && data.Length == capacity && fresh(data)
    {
      data := new E[capacity](_ => blank);
      size := 0;
    }

    method PushBack(item: E) returns (ok: bool)
      requires Valid()
      modifies this, data
      ensures Valid() && ok == (|old(Contents())| < data.Length)
      ensures Contents() == if ok then old(Contents()) + [item] else old(Contents())
    {
      if size >= data.Length { return false; }
      data[size] := item;
      size := size + 1;
      return true;
    }

    method PopBack() returns (ok: bool)
      requires Valid()
      modifies this
      ensures Valid() && ok == (old(Contents()) != [])
      ensures Contents() == if ok then old(Contents()[..size - 1]) else old(Contents())
    {
      if size == 0 { return false; }
      size := size - 1;
      return true;
    }

    method Clear()
      requires Valid()
      modifies this
      ensures Valid() && Contents() == []
    {
      size := 0;
    }

    /** operator[] used to assign. */
    method Put(i: nat, item: E)
      requires Valid() && i < size
      modifies data
      ensures Valid() && Contents() == old(Contents())[i := item]
    {
      data[i] := item;
    }
  }

  type TagVector = FixedVector<Tag>

  /** Overwrites tag i with the last one and pops that. */
  method DropTag(v: TagVector, i: nat)
    requires v.Valid() && i < v.size
    modifies v, v.data
    ensures v.Valid() && v.Contents() == T.RemoveAt(old(v.Contents()), i)
  {
    var last := v.size - 1;
    if i != last { v.Put(i, v.data[last]); }
    var ok := v.PopBack();
  }

  lemma FirstIs(ts: T.Tags, key: string, i: nat)
    requires i <= |ts| && (i < |ts| ==> T.Matches(ts[i], key))
    requires forall j :: 0 <= j < i ==> !T.Matches(ts[j], key)
    ensures T.First(ts, key) == i
  {
  }

  lemma LastIs(ts: T.Tags, key: string, i: nat)
    requires i <= |ts| && (i < |ts| ==> T.Matches(ts[i], key))
    requires forall j :: 0 <= j < |ts| && (i == |ts| || i < j) ==> !T.Matches(ts[j], key)
    ensures T.Last(ts, key) == i
  {
  }

  /** The search loops' shared part: forward to the first match, or to the end. */
  method FindFirst(v: TagVector, key: string) returns (i: nat)
    requires v.Valid()
    ensures i == T.First(v.Contents(), key)
  {
    i := 0;
    ghost var ts := v.Contents();
    while i < v.size && !T.SameUpTo(v.data[i].key, key, T.KEY_LEN)
      invariant i <= v.size && ts == v.Contents()
      invariant forall j :: 0 <= j < i ==> !T.Matches(ts[j], key)
    {
      assert ts[i] == v.data[i];
      i := i + 1;
    }
    FirstIs(ts, key, i);
  }

  method FindLast(v: TagVector, key: string) returns (i: nat)
    requires v.Valid()
    ensures i == T.Last(v.Contents(), key)
  {
    i := v.size;
    ghost var ts := v.Contents();
    while i > 0
      invariant i <= v.size && ts == v.Contents()
      invariant forall j :: i <= j < v.size ==> !T.Matches(ts[j], key)
    {
      i := i - 1;
      assert ts[i] == v.data[i];
      if T.SameUpTo(v.data[i].key, key, T.KEY_LEN) {
        LastIs(ts, key, i);
        return;
      }
    }
    i := v.size;
    LastIs(ts, key, i);
  }

  // ---------------------------------------------------------------- LogContext

  /** The context as one thread sees it: the shared global tags (each call under the lock) and the
      thread's own. */
  class LogContext {
    const globals: TagVector
    const scoped: TagVector

    ghost predicate Valid()
      reads this, globals, scoped
    {
      && globals.Valid() && scoped.Valid()
      && globals != scoped && globals.data != scoped.data
      && globals.data.Length == T.MAX_GLOBALS && scoped.data.Length == T.MAX_TAGS
    }

    constructor ()
      ensures Valid() && globals.Contents() == [] && scoped.Contents() == []
    {
      globals := new FixedVector(T.MAX_GLOBALS, Tag("", ""));
      scoped := new FixedVector(T.MAX_TAGS, Tag("", ""));
    }

    method SetGlobalTag(key: Option<string>, value: Option<string>)
      requires Valid()
      modifies globals, globals.data
      ensures Valid() && globals.Contents() == T.SetGlobal(old(globals.Contents()), key, value)
    {
      if key.None? || value.None? { return; }
      var i := FindFirst(globals, key.value);
      if i < globals.size {
        globals.Put(i, globals.data[i].(value := T.Trunc(value.value, T.VAL_LEN - 1)));
        return;
      }
      var tag := Tag(T.Trunc(key.value, T.KEY_LEN - 1), T.Trunc(value.value, T.VAL_LEN - 1));
      var ok := globals.PushBack(tag);
    }

    method RemoveGlobalTag(key: Option<string>)
      requires Valid()
      modifies globals, globals.data
      ensures Valid() && globals.Contents() == T.RemoveGlobal(old(globals.Contents()), key)
    {
      if key.None? { return; }
      var i := FindFirst(globals, key.value);
      if i < globals.size { DropTag(globals, i); }
    }

    method PushScopedTag(key: Option<string>, value: Option<string>)
      requires Valid()
      modifies scoped, scoped.data
      ensures Valid() && scoped.Contents() == T.PushScoped(old(scoped.Contents()), key, value)
    {
      if key.None? || value.None? { return; }
      var tag := Tag(T.Trunc(key.value, T.KEY_LEN - 1), T.Trunc(value.value, T.VAL_LEN - 1));
      var ok := scoped.PushBack(tag);
    }

    method PopScopedTag(key: Option<string>)
      requires Valid()
      modifies scoped, scoped.data
      ensures Valid() && scoped.Contents() == T.PopScoped(old(scoped.Contents()), key)
    {
      if key.None? || scoped.size == 0 { return; }
      var i := FindLast(scoped, key.value);
      if i < scoped.size { DropTag(scoped, i); }
    }

    /** FillTags into the entry's tag array: the first MAX_TAGS of the global tags followed by the
        thread's. */
    method FillTags(tags: array<Tag>) returns (count: nat)
      requires Valid() && tags.Length == T.MAX_TAGS && tags != globals.data && tags != scoped.data
      modifies tags
      ensures var all := globals.Contents() + scoped.Contents();
              && count == (if |all| <= T.MAX_TAGS then |all| else T.MAX_TAGS)
              && tags[..count] == all[..count]
    {
      count := 0;
      var i := 0;
      while i < globals.size && count < T.MAX_TAGS
        invariant i <= globals.size && count == i <= T.MAX_TAGS && tags[..count] == globals.Contents()[..i]
      {
        tags[count] := globals.data[i];
        count := count + 1;
        i := i + 1;
      }
      ghost var first := tags[..count];
      var j := 0;
      while j < scoped.size && count < T.MAX_TAGS
        invariant j <= scoped.size && count == i + j <= T.MAX_TAGS && tags[..count] == first + scoped.Contents()[..j]
      {
        tags[count] := scoped.data[j];
        count := count + 1;
        j := j + 1;
      }
    }
  }
}
