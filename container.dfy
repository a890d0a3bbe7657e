/** The dependency-injection container: a PSR-11 container (section 1.1
    "Basics": `get` and `has`) over one in-place table, with array-style
    access and `count` layered on the same operations. */
module Di {
  import opened Errors
  import opened ArrayKeys
  import opened Entities

  class Container<V> {
    /** The entities held, by id. */
    var entities: Table<V>

    /** Seeds the table by calling `Set` for each pair of the initial array,
        in order, with each key cast to a string. A missing (`null`) initial
        array is the empty sequence. */
    constructor (init: seq<(Key, Entry<V>)>)
      ensures entities == Seeded(init)
      ensures entities.Keys == Ids(init)
      ensures forall i :: 0 <= i < |init| && (forall j :: i < j < |init| ==> ToId(init[j].0) != ToId(init[i].0))
                ==> ToId(init[i].0) in entities && entities[ToId(init[i].0)] == init[i].1
      ensures IsPhpArray(init) ==> |entities| == |init|
    {
      entities := map[];
      new;
      if |init| > 0 {
        var i := 0;
        while i < |init|
          invariant 0 <= i <= |init|
          invariant entities == Seeded(init[..i])
        {
          assert init[..i + 1][..i] == init[..i];
          Set(ToId(init[i].0), init[i].1);
          i := i + 1;
        }
        assert init[..|init|] == init;
      }
      SeededKeys(init);
      if IsPhpArray(init) {
        SeededCount(init);
      }
      forall i | 0 <= i < |init| && (forall j :: i < j < |init| ==> ToId(init[j].0) != ToId(init[i].0))
        ensures ToId(init[i].0) in entities && entities[ToId(init[i].0)] == init[i].1
      {
        SeededAt(init, i);
      }
    }

    /** Stores `entry` under `id`, replacing whatever was there. */
    method Set(id: string, entry: Entry<V>)
      modifies this
      ensures entities == old(entities)[id := entry]
      ensures Isset(entities, id) <==> !entry.Null?
      ensures forall k :: k != id ==> (k in entities <==> k in old(entities))
      ensures forall k :: k != id && k in old(entities) ==> entities[k] == old(entities)[k]
      ensures |entities| == if id in old(entities) then old(|entities|) else old(|entities|) + 1
    {
      SetFrame(entities, id, entry);
      entities := entities[id := entry];
    }

    /** Removes `id`, but only when `Has` reports it; otherwise does nothing
        and does not fail. */
    method Delete(id: string)
      modifies this
      ensures entities == Deleted(old(entities), id)
      ensures !Isset(entities, id)
      ensures old(Isset(entities, id)) ==> entities.Keys == old(entities.Keys) - {id} && |entities| == old(|entities|) - 1
      ensures !old(Isset(entities, id)) ==> entities == old(entities)
    {
      DeleteEffect(entities, id);
      var present := Has(id);
      if present {
        entities := entities - {id};
      }
    }

    /** Fails with the not-found error for every id `Has` rejects; otherwise
        calls a callable entry with the container, afresh on every call, and
        passes on its result or its failure (a nested not-found included), or
        returns any other entry as it is. Changes no state. */
    method Get(id: string, invoke: Resolver<V>) returns (r: Result<Entry<V>>)
      ensures r == Resolve(entities, id, invoke)
      ensures !Isset(entities, id) ==> r == Err(EntityNotFound(id))
      ensures Isset(entities, id) && entities[id].Plain? ==> r == Ok(entities[id])
      ensures Isset(entities, id) && entities[id].Callable? ==> r == invoke(entities[id].fn, entities)
    {
      ResolveCases(entities, id, invoke);
      var present := Has(id);
      if !present {
        return Err(EntityNotFound(id));
      }
      var entity := entities[id];
      match entity
      case Callable(f) => r := invoke(f, entities);
      case _ => r := Ok(entity);
    }

    /** `has`: PHP `isset`, so false for a key whose entry is `null`. */
    method Has(id: string) returns (b: bool)
      ensures b == Isset(entities, id)
    {
      b := id in entities && !entities[id].Null?;
    }

    /** The raw number of keys, `null` entries included. */
    method Count() returns (n: nat)
      ensures n == |entities|
      ensures n == |PresentIds(entities)| + |NullIds(entities)|
    {
      CountSplit(entities);
      n := |entities|;
    }

    // ---- ArrayAccess: each one forwards to its named counterpart ----

    /** `$c[$id] = $entry`, as `Set`. */
    method OffsetSet(offset: string, value: Entry<V>)
      modifies this
      ensures entities == old(entities)[offset := value]
    {
      Set(offset, value);
    }

    /** `isset($c[$id])`, as `Has`. */
    method OffsetExists(offset: string) returns (b: bool)
      ensures b == Isset(entities, offset)
    {
      b := Has(offset);
    }

    /** `unset($c[$id])`, as `Delete`. */
    method OffsetUnset(offset: string)
      modifies this
      ensures entities == Deleted(old(entities), offset)
    {
      Delete(offset);
    }

    /** `$c[$id]`, as `Get`, including the not-found error. */
    method OffsetGet(offset: string, invoke: Resolver<V>) returns (r: Result<Entry<V>>)
      ensures r == Resolve(entities, offset, invoke)
    {
      r := Get(offset, invoke);
    }
  }

  // ---- Clients: what a caller can conclude from the contracts alone ----

  /** Seeding from an array with one string key. */
  method SeedScenario<V>(v: V, invoke: Resolver<V>)
  {
    var c := new Container([(StrKey("x"), Plain(v))]);
    var n := c.Count();
    assert n == 1;
    var r := c.Get("x", invoke);
    assert r == Ok(Plain(v));
  }

  /** has / delete, and deleting an absent id is harmless. */
  method HasDeleteScenario<V>(v: V)
  {
    var c := new Container([]);
    var h := c.Has("name");
    assert !h;
    c.Set("name", Plain(v));
    h := c.Has("name");
    assert h;
    c.Delete("name");
    h := c.Has("name");
    assert !h;
    c.Delete("name");
  }

  /** Array access: isset, set, get, unset, and a missing id. */
  method ArrayAccessScenario<V>(v: V, invoke: Resolver<V>)
  {
    var c := new Container([]);
    var h := c.OffsetExists("name");
    assert !h;
    c.OffsetSet("name", Plain(v));
    h := c.OffsetExists("name");
    assert h;
    var r := c.OffsetGet("name", invoke);
    assert r == Ok(Plain(v));
    c.OffsetUnset("name");
    h := c.OffsetExists("name");
    assert !h;
    r := c.OffsetGet("good", invoke);
    assert r == Err(EntityNotFound("good"));
  }

  /** Three entities set one after another are counted as three. */
  method CountScenario<V>(a: V, b: V, c: V)
  {
    var d := new Container([]);
    d.Set("C", Plain(c));
    d.Set("B", Plain(b));
    d.Set("A", Plain(a));
    var n := d.Count();
    assert n == 3;
  }

  /** A callable is called on every get, on the table of that moment. */
  method CallableScenario<V>(f: V, invoke: Resolver<V>)
  {
    var c := new Container([]);
    c.Set("myClass", Callable(f));
    var r := c.Get("myClass", invoke);
    assert r == invoke(f, c.entities);
  }

  /** A null entry is counted, not reported, and cannot be deleted. */
  method NullScenario<V>()
  {
    var c := new Container<V>([]);
    c.Set("nothing", Null);
    var h := c.Has("nothing");
    assert !h;
    c.Delete("nothing");
    var n := c.Count();
    assert n == 1;
  }
}
