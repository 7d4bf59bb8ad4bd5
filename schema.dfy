/** What the Registration and Attendance schemas share: the errors a save
    can end in and the unique compound index on (user, event). */
module RecordSchema {
  import opened Common

  /** A Mongoose validation error names every path that failed; a
      duplicate key error comes from the unique index. */
  datatype SchemaError = ValidationError(paths: set<string>) | DuplicateKey

  /** The key of the unique compound index `{ user: 1, event: 1 }`. */
  datatype PairKey = PairKey(user: Id, event: Id)

  /** The index keys of a collection, one per record, in collection order. */
  function KeysOf<R>(t: seq<R>, key: R -> PairKey): (ks: seq<PairKey>)
    ensures |ks| == |t|
    ensures forall i :: 0 <= i < |t| ==> ks[i] == key(t[i])
    ensures forall k :: k in ks <==> exists x :: x in t && key(x) == k
  {
    var ks := seq(|t|, i requires 0 <= i < |t| => key(t[i]));
    assert forall k :: k in ks ==> exists x :: x in t && key(x) == k by {
      forall k | k in ks ensures exists x :: x in t && key(x) == k {
        var i :| 0 <= i < |ks| && ks[i] == k;
        assert t[i] in t;
      }
    }
    assert forall x :: x in t ==> key(x) in ks by {
      forall x | x in t ensures key(x) in ks {
        var i :| 0 <= i < |t| && t[i] == x;
        assert ks[i] == key(x);
      }
    }
    ks
  }

  /** No key occurs twice. */
  predicate UniqueKeys(ks: seq<PairKey>)
  {
    forall i, j :: 0 <= i < j < |ks| ==> ks[i] != ks[j]
  }

  /** Appending a key that is not present keeps the keys unique. */
  lemma AppendFreshKey(ks: seq<PairKey>, k: PairKey)
    requires UniqueKeys(ks) && k !in ks
    ensures UniqueKeys(ks + [k])
  {
  }

  /** An insert into a collection with a unique index: a record whose key
      is already present is refused and the collection is left as it was;
      otherwise the record is appended and the keys stay unique. */
  function InsertUnique<R>(t: seq<R>, r: R, key: R -> PairKey): (res: Result<seq<R>, SchemaError>)
    ensures res.Err? <==> exists x :: x in t && key(x) == key(r)
    ensures res.Err? ==> res.error == DuplicateKey
    ensures res.Ok? ==> res.value == t + [r]
    ensures res.Ok? && UniqueKeys(KeysOf(t, key)) ==> UniqueKeys(KeysOf(res.value, key))
  {
    if key(r) in KeysOf(t, key) then
      Err(DuplicateKey)
    else
      assert KeysOf(t + [r], key) == KeysOf(t, key) + [key(r)];
      if UniqueKeys(KeysOf(t, key)) then
        AppendFreshKey(KeysOf(t, key), key(r));
        Ok(t + [r])
      else
        Ok(t + [r])
  }

  /** Once a record is in, any later record with the same key is refused. */
  lemma SameKeyRefusedAfterInsert<R>(t: seq<R>, r1: R, r2: R, key: R -> PairKey)
    requires InsertUnique(t, r1, key).Ok? && key(r2) == key(r1)
    ensures InsertUnique(InsertUnique(t, r1, key).value, r2, key) == Err(DuplicateKey)
  {
    assert r1 in InsertUnique(t, r1, key).value;
  }
}
