/** The database wrapper of app/emptyvaluedb.go, over a store that reads an empty value as if the key were
    missing. Keys and values are byte strings; None is Go's nil. */
module EmptyValueDb {
  import opened Wrappers
  import opened Hashing

  // ----- the order of keys

  predicate Less(a: Bytes, b: Bytes) {
    if b == [] then false
    else if a == [] then true
    else if a[0] != b[0] then a[0] < b[0]
    else Less(a[1..], b[1..])
  }

  /** Between a key and the key with a zero byte after it lies the key alone. */
  lemma {:induction false} OnlyKeyInRange(key: Bytes, x: Bytes)
    ensures !Less(x, key) && Less(x, key + [0]) <==> x == key
    decreases |key|
  {
    if key == [] {
      if x != [] {
        assert !Less(x[1..], []);
        assert (key + [0])[1..] == [];
      }
    } else if x != [] {
      assert (key + [0])[1..] == key[1..] + [0];
      OnlyKeyInRange(key[1..], x[1..]);
      assert x == [x[0]] + x[1..] && key == [key[0]] + key[1..];
    }
  }

  // ----- the store

  class Store {
    var contents: map<Bytes, Bytes>

    constructor ()
      ensures contents == map[]
    {
      contents := map[];
    }

    method Set(key: Bytes, value: Bytes)
      modifies this
      ensures contents == old(contents)[key := value]
    {
      contents := contents[key := value];
    }

    method Delete(key: Bytes)
      modifies this
      ensures contents == old(contents) - {key}
    {
      contents := contents - {key};
    }

    /** An empty value comes back as nil. */
    function Get(key: Bytes): Option<Bytes>
      reads this
    {
      if key in contents && contents[key] != [] then Some(contents[key]) else None
    }

    /** Whether an iterator over [start, end) has anything to give; empty values do count. */
    ghost predicate InRange(start: Bytes, end: Bytes)
      reads this
    {
      exists k :: k in contents && !Less(k, start) && Less(k, end)
    }

    method IteratorValid(start: Bytes, end: Bytes) returns (valid: bool)
      ensures valid == InRange(start, end)
    {
      var keys := contents.Keys;
      while keys != {}
        invariant forall k :: k in contents && k !in keys ==> Less(k, start) || !Less(k, end)
        invariant keys <= contents.Keys
        decreases |keys|
      {
        var k :| k in keys;
        if !Less(k, start) && Less(k, end) {
          return true;
        }
        keys := keys - {k};
      }
      return false;
    }
  }

  /** nil for an error or a missing key. */
  datatype Reply<T> = Reply(value: T, error: bool)

  class Wrapper {
    const db: Store

    constructor (db: Store)
      ensures this.db == db
    {
      this.db := db;
    }

    /** nil exactly for a missing key, and the stored value otherwise, the empty one included. `getError` and
        `iteratorError` say whether the store's own calls fail; an error is passed on, and the second can
        happen only where the first read gave nil. */
    method Get(key: Bytes, getError: bool, iteratorError: bool) returns (r: Reply<Option<Bytes>>)
      ensures r.error <==> getError || (iteratorError && (key !in db.contents || db.contents[key] == []))
      ensures r.error ==> r.value == None
      ensures !r.error ==> r.value == if key in db.contents then Some(db.contents[key]) else None
    {
      if getError {
        return Reply(None, true);
      }
      var v := db.Get(key);
      if v.Some? {
        return Reply(v, false);
      }
      var end := new Byte[|key| + 1](_ => 0);
      for i := 0 to |key|
        invariant end[..i] == key[..i] && end[|key|] == 0
      {
        end[i] := key[i];
      }
      assert end[..] == key + [0];
      if iteratorError {
        return Reply(None, true);
      }
      var valid := db.IteratorValid(key, end[..]);
      assert valid <==> key in db.contents by {
        forall k ensures !Less(k, key) && Less(k, key + [0]) <==> k == key {
          OnlyKeyInRange(key, k);
        }
      }
      if valid {
        return Reply(Some([]), false);
      }
      return Reply(None, false);
    }

    method Has(key: Bytes, getError: bool, iteratorError: bool) returns (r: Reply<bool>)
      ensures r.error <==> getError || (iteratorError && (key !in db.contents || db.contents[key] == []))
      ensures !r.error ==> (r.value <==> key in db.contents)
    {
      var v := Get(key, getError, iteratorError);
      if v.error {
        return Reply(false, true);
      }
      return Reply(v.value.Some?, false);
    }
  }

  // ----- every history of writes and deletes

  datatype Write = Set(key: Bytes, value: Bytes) | Delete(key: Bytes)

  /** What the last write to the key left, by the history alone. */
  function Latest(history: seq<Write>, key: Bytes): Option<Bytes> {
    if history == [] then None
    else
      var last := history[|history| - 1];
      if last.key != key then Latest(history[..|history| - 1], key)
      else if last.Set? then Some(last.value)
      else None
  }

  /** After any history, the wrapper reads each key as a plain map would: also where the bare store reads
      nil for a value that is there. */
  method ReadBack(history: seq<Write>, key: Bytes) returns (bare: Option<Bytes>, got: Option<Bytes>, has: bool)
    ensures got == Latest(history, key)
    ensures has <==> got.Some?
    ensures bare != got <==> got == Some([])
  {
    var db := new Store();
    for i := 0 to |history|
      invariant fresh(db)
      invariant forall k :: Latest(history[..i], k) == if k in db.contents then Some(db.contents[k]) else None
    {
      assert history[..i + 1][..i] == history[..i];
      match history[i]
      case Set(k, v) => db.Set(k, v);
      case Delete(k) => db.Delete(k);
    }
    assert history[..|history|] == history;
    var wrapper := new Wrapper(db);
    bare := db.Get(key);
    var g := wrapper.Get(key, false, false);
    var h := wrapper.Has(key, false, false);
    got, has := g.value, h.value;
  }
}
