/** The container's table `$entities` as a value, and the functions that say
    what each container operation does to it or reads from it. */
module Entities {
  import opened Errors
  import opened ArrayKeys

  /** A stored PHP value as the container sees it: `null`, a value that
      `is_callable` rejects, or one it accepts (a closure, an object with
      `__invoke`, ...). `V` stands for the PHP values themselves. */
  datatype Entry<V> = Null | Plain(value: V) | Callable(fn: V)

  /** The `$entities` array: entity id to stored entry. */
  type Table<V> = map<string, Entry<V>>

  /** Calling a callable entry with the container as its argument. The
      container is seen through its current table; whatever the callable
      throws comes back as `Err`. */
  type Resolver<!V> = (V, Table<V>) -> Result<Entry<V>>

  /** PHP `isset($entities[$id])`: the key is present and its entry is not `null`. */
  predicate Isset<V>(m: Table<V>, id: string) {
    id in m && !m[id].Null?
  }

  /** What `get($id)` yields on table `m`. */
  function Resolve<V>(m: Table<V>, id: string, invoke: Resolver<V>): Result<Entry<V>> {
    if !Isset(m, id) then Err(EntityNotFound(id))
    else match m[id]
      case Callable(f) => invoke(f, m)
      case _ => Ok(m[id])
  }

  /** The table after `delete($id)`: the key goes only when `has($id)` holds. */
  function Deleted<V>(m: Table<V>, id: string): Table<V> {
    if Isset(m, id) then m - {id} else m
  }

  /** The ids `has` reports, and the keys that hold `null`. */
  function PresentIds<V>(m: Table<V>): set<string> {
    set id | id in m.Keys && Isset(m, id)
  }

  function NullIds<V>(m: Table<V>): set<string> {
    set id | id in m.Keys && m[id].Null?
  }

  /** The table the constructor builds: `set((string)$id, $entry)` for each
      pair of the initial array, in order. */
  function Seeded<V>(init: seq<(Key, Entry<V>)>): Table<V>
    decreases |init|
  {
    if |init| == 0 then map[]
    else
      var last := init[|init| - 1];
      Seeded(init[..|init| - 1])[ToId(last.0) := last.1]
  }

  /** The ids of the initial array's keys after the string cast. */
  function Ids<V>(init: seq<(Key, Entry<V>)>): set<string> {
    set i | 0 <= i < |init| :: ToId(init[i].0)
  }

  /** The pairs of an actual PHP array: keys normalised and pairwise distinct. */
  ghost predicate IsPhpArray<V>(init: seq<(Key, Entry<V>)>) {
    && (forall i :: 0 <= i < |init| ==> Normalized(init[i].0))
    && (forall i, j :: 0 <= i < j < |init| ==> init[i].0 != init[j].0)
  }

  // ---- get ----

  /** `get` fails with the not-found error for every id `has` rejects,
      returns a non-callable entry unchanged, and calls a callable entry with
      the current table, passing on whatever it returns or throws (which may
      itself be a not-found error from a nested `get`). */
  lemma ResolveCases<V>(m: Table<V>, id: string, invoke: Resolver<V>)
    ensures !Isset(m, id) ==> Resolve(m, id, invoke) == Err(EntityNotFound(id))
    ensures Isset(m, id) && m[id].Plain? ==> Resolve(m, id, invoke) == Ok(m[id])
    ensures Isset(m, id) && m[id].Callable? ==> Resolve(m, id, invoke) == invoke(m[id].fn, m)
  {
  }

  /** No memoisation: after any other key is overwritten, `get` of a callable
      entry calls it again, on the new table. */
  lemma ResolveNotCached<V>(m: Table<V>, id: string, other: string, e: Entry<V>, invoke: Resolver<V>)
    requires Isset(m, id) && m[id].Callable?
    requires other != id
    ensures Resolve(m, id, invoke) == invoke(m[id].fn, m)
    ensures Resolve(m[other := e], id, invoke) == invoke(m[id].fn, m[other := e])
  {
  }

  // ---- set ----

  /** After `set($id, $e)`: `has($id)` holds iff `$e` is not null, and `get($id)`
      returns a plain `$e` itself, calls a callable one, and fails for `null`. */
  lemma SetThenGet<V>(m: Table<V>, id: string, e: Entry<V>, invoke: Resolver<V>)
    ensures Isset(m[id := e], id) <==> !e.Null?
    ensures e.Plain? ==> Resolve(m[id := e], id, invoke) == Ok(e)
    ensures e.Callable? ==> Resolve(m[id := e], id, invoke) == invoke(e.fn, m[id := e])
    ensures e.Null? ==> Resolve(m[id := e], id, invoke) == Err(EntityNotFound(id))
  {
  }

  /** `set` touches only its own key; the count grows by one only for a new key. */
  lemma SetFrame<V>(m: Table<V>, id: string, e: Entry<V>)
    ensures m[id := e].Keys == m.Keys + {id}
    ensures forall k :: k != id ==> (k in m[id := e] <==> k in m)
    ensures forall k :: k != id && k in m ==> m[id := e][k] == m[k]
    ensures |m[id := e]| == if id in m then |m| else |m| + 1
  {
  }

  // ---- delete ----

  /** `delete($id)` removes exactly that key when `has($id)` holds, and
      otherwise changes nothing. */
  lemma DeleteEffect<V>(m: Table<V>, id: string)
    ensures !Isset(Deleted(m, id), id)
    ensures Isset(m, id) ==> Deleted(m, id).Keys == m.Keys - {id} && |Deleted(m, id)| == |m| - 1
    ensures !Isset(m, id) ==> Deleted(m, id) == m
    ensures forall k :: k != id && k in m ==> k in Deleted(m, id) && Deleted(m, id)[k] == m[k]
  {
  }

  /** `delete` undoes `set` of a fresh id with a non-null entry. */
  lemma DeleteUndoesSet<V>(m: Table<V>, id: string, e: Entry<V>)
    requires id !in m && !e.Null?
    ensures Deleted(m[id := e], id) == m
  {
  }

  // ---- count and has ----

  /** `count` counts every key: those `has` reports and those holding `null`. */
  lemma {:induction false} CountSplit<V>(m: Table<V>)
    ensures |m| == |PresentIds(m)| + |NullIds(m)|
  {
    assert m.Keys == PresentIds(m) + NullIds(m);
    assert PresentIds(m) * NullIds(m) == {};
  }

  /** A key holding `null` is counted but not reported by `has`, makes `get`
      fail, and survives `delete`. */
  lemma NullKeyQuirk<V>(m: Table<V>, id: string, invoke: Resolver<V>)
    requires id in m && m[id].Null?
    ensures !Isset(m, id)
    ensures Resolve(m, id, invoke) == Err(EntityNotFound(id))
    ensures Deleted(m, id) == m
    ensures |PresentIds(m)| < |m|
  {
    CountSplit(m);
    assert id in NullIds(m);
  }

  // ---- construction ----

  /** The constructor's table has exactly the cast ids of the initial array
      as keys, so `count` is the number of distinct ids. */
  lemma {:induction false} SeededKeys<V>(init: seq<(Key, Entry<V>)>)
    ensures Seeded(init).Keys == Ids(init)
    ensures |Seeded(init)| == |Ids(init)|
    decreases |init|
  {
    if |init| > 0 {
      var prefix := init[..|init| - 1];
      SeededKeys(prefix);
      assert Ids(init) == Ids(prefix) + {ToId(init[|init| - 1].0)} by {
        forall i | 0 <= i < |prefix| ensures prefix[i] == init[i] { }
      }
    }
  }

  /** Each seeded id holds the entry of its last occurrence in the initial array. */
  lemma {:induction false} SeededAt<V>(init: seq<(Key, Entry<V>)>, i: nat)
    requires i < |init|
    requires forall j :: i < j < |init| ==> ToId(init[j].0) != ToId(init[i].0)
    ensures ToId(init[i].0) in Seeded(init)
    ensures Seeded(init)[ToId(init[i].0)] == init[i].1
    decreases |init|
  {
    if i < |init| - 1 {
      var prefix := init[..|init| - 1];
      SeededAt(prefix, i);
    }
  }

  /** A container built from a PHP array (distinct, normalised keys) counts
      one entity per array element. */
  lemma {:induction false} SeededCount<V>(init: seq<(Key, Entry<V>)>)
    requires IsPhpArray(init)
    ensures |Seeded(init)| == |init|
    decreases |init|
  {
    if |init| > 0 {
      var prefix := init[..|init| - 1];
      var last := init[|init| - 1];
      SeededCount(prefix);
      SeededKeys(prefix);
      if ToId(last.0) in Ids(prefix) {
        var i :| 0 <= i < |prefix| && ToId(prefix[i].0) == ToId(last.0);
        ToIdInjective(prefix[i].0, last.0);
        assert false;
      }
    }
  }
}
