# luoluolzb/DI container, modelled in Dafny

The repository is a small PHP dependency-injection container. Its one class,
`Container`, holds an associative array `$entities` from string id to any
PHP value. It implements the PSR-11 container interface (section 1.1
"Basics": `get` and `has`; section 1.2 "Exceptions": a not-found exception
that is a kind of container exception), plus `ArrayAccess` and `Countable`.

- `set` overwrites one key in place.
- `delete` unsets a key, but only when `has` reports it.
- `get` throws `EntityNotFoundException` for an id `has` rejects. Otherwise
  it calls a callable entry with the container as its argument and returns
  the result, or returns any other entry unchanged.
- `has` is PHP `isset`, which is false for a key whose value is `null`.
- `count` is the raw number of keys.
- The constructor fills the table by calling `set((string)$id, $entry)`
  over an initial array.

There is no factory mode, memoisation or cache: `get` calls a callable
entry on every call.

Files:

- `errors.dfy`, module `Errors`: the container's not-found error and a
  resolver's own failure as variants of `ContainerError`, and a `Result`
  for calls that may throw.
- `array_keys.dfy`, module `ArrayKeys`: PHP array keys (`IntKey`/`StrKey`)
  and the `(string)` cast. The cast is decimal conversion for integers. A
  string key is normalised when it is not a canonical integer string, which
  is PHP's own rule for keys. The model proves the cast injective on
  normalised keys.
- `entities.dfy`, module `Entities`: the stored entry, `Entry<V> = Null |
  Plain(value) | Callable(fn)`, and the table `map<string, Entry<V>>`. It
  also holds the specification functions (`Isset`, `Resolve`, `Deleted`,
  `Seeded`) and the lemmas that relate operations.
- `container.dfy`, module `Di`: the class `Container<V>` with the field
  `entities`. Its methods update the field in place. The constructor seeds
  it with a loop of `Set` calls. The `Offset*` methods forward to their
  named counterparts. The `*Scenario` methods are clients that exercise,
  from the contracts alone, the repository's tests of has/delete, array access,
  counting, a missing id and a callable entry, plus seeding and the
  null-key quirk.

Calling a callable entry is a foreign, higher-order call. It is the
parameter `invoke: (V, Table<V>) -> Result<Entry<V>>`, which gets the
callable and the container's current table. So the result is deterministic
for a given callable and table, and it is never cached. A resolver that
throws returns `Err` from `invoke`, and `get` passes that on unchanged. That
includes a not-found error from a nested `get`, so `get` can fail with
not-found for an id that `has` reports.

## Model

| member | source | states |
|---|---|---|
| `Di.Container.constructor` | src/Container.php:33-41 | the table is the one built by `set((string)$id, $entry)` over the initial array in order; its keys are exactly the cast ids; each id holds the entry of its last occurrence; a real PHP array of n elements gives n entities |
| `Di.Container.Set` | src/Container.php:49-52 | the new table is the old one with `id` overwritten; `has(id)` holds iff the entry is not null; every other key keeps its entry; the count grows by one only for a new key |
| `Di.Container.Delete` | src/Container.php:61-66 | when `has(id)` held, exactly that key is removed and the count drops by one; otherwise the table is unchanged and no error occurs; afterwards `has(id)` is false |
| `Di.Container.Get` | src/Container.php:78-94 | not-found error for every id `has` rejects; a callable's own failure, a nested not-found included, is passed on unchanged; a plain entry comes back unchanged; a callable entry is called with the current table; the table is not changed |
| `Di.Container.Has` | src/Container.php:103-106 | true iff `id` is a key whose entry is not null (PHP `isset`) |
| `Di.Container.Count` | src/Container.php:148-151 | the number of keys, which is the number of ids `has` reports plus the number of keys holding null |
| `Di.Container.OffsetSet` | src/Container.php:111-114 | the same new table as `Set` |
| `Di.Container.OffsetExists` | src/Container.php:119-122 | the same answer as `Has` |
| `Di.Container.OffsetUnset` | src/Container.php:127-130 | the same new table as `Delete` |
| `Di.Container.OffsetGet` | src/Container.php:135-138 | the same result as `Get`, including the not-found error |
| `Entities.ResolveCases` | src/Container.php:80-93 | `get` fails with not-found for every id `has` rejects, returns a plain entry itself, and calls a callable entry with the table, passing on its result or failure (a nested not-found included) |
| `Entities.ResolveNotCached` | src/Container.php:88-90 | after another key is overwritten, `get` of a callable calls it again on the new table; no earlier result is reused |
| `Entities.SetThenGet` | src/Container.php:49-52 | after `set(id, e)`: `has(id)` iff `e` is not null; `get(id)` returns a plain `e` itself, calls a callable `e`, and fails for null |
| `Entities.SetFrame` | src/Container.php:51 | `set` adds `id` to the keys and leaves every other key and its entry as it was; the count grows by one iff `id` was new |
| `Entities.DeleteEffect` | src/Container.php:61-66 | after `delete(id)`, `has(id)` is false; when it was true, exactly `id` left the keys and the count dropped by one; otherwise nothing changed |
| `Entities.DeleteUndoesSet` | src/Container.php:61-66 | `delete` undoes `set` of a new id with a non-null entry |
| `Entities.CountSplit` | src/Container.php:148-151 | the count equals the ids `has` reports plus the keys holding null |
| `Entities.NullKeyQuirk` | src/Container.php:103-106 | a key holding null is not reported by `has`, makes `get` fail with not-found, survives `delete`, and is still counted, so the count exceeds the ids `has` reports |
| `Entities.SeededKeys` | src/Container.php:36-40 | the seeded table's keys are exactly the cast ids of the initial array, so the count is the number of distinct ids |
| `Entities.SeededAt` | src/Container.php:36-40 | each seeded id holds the entry of its last occurrence in the initial array |
| `Entities.SeededCount` | src/Container.php:33-41 | a container built from a PHP array with n elements (distinct, normalised keys) counts n entities |
| `ArrayKeys.NatToDecimal` | src/Container.php:38 | the string cast of a natural number is a non-empty run of decimal digits, one digit long exactly below ten, with no leading zero except for zero itself |
| `ArrayKeys.IntToDecimal` | src/Container.php:38 | the string cast of an integer starts with a minus sign iff the integer is negative and is a canonical integer string (the kind PHP stores as an integer key) |
| `ArrayKeys.ToId` | src/Container.php:38 | `(string)$id`: an integer key becomes a canonical integer string, and a string key is left as it is |
| `ArrayKeys.NatToDecimalInjective` | src/Container.php:38 | distinct natural numbers cast to distinct strings |
| `ArrayKeys.IntToDecimalInjective` | src/Container.php:38 | distinct integers cast to distinct strings |
| `ArrayKeys.ToIdInjective` | src/Container.php:38 | distinct normalised array keys become distinct container ids |

## Left out

- Re-entrant resolvers: a callable may call `get` or `set` on the same container while it is resolved (tests/ContainerTest.php:130-140). `invoke` sees a snapshot of the table and cannot change it. Cyclic resolution, which does not terminate in PHP, is not modelled.
- Di.Container.Get: states that `get` leaves the table unchanged. This holds only for resolvers that do not write to the container, because of the point above.
- PHP's `is_callable` check happens in `get` on every call (src/Container.php:88); the model stores its verdict as the `Callable` tag fixed at `set`. So a value whose verdict changes between `set` and `get` (a string naming a function or class defined or autoloaded later) is not modelled.
- The exception message text (`Entity '...' Not Found`) is not modelled; the error carries the id.
- Every failure a resolver throws is an `Err` result that `get` passes on: a not-found error from a nested `get` keeps its kind, and anything else is `ResolverFailure` with its message. The exception classes themselves are not modelled.
- Entities.ResolveNotCached: because `invoke` is a function, two `get` calls on an unchanged table give equal results. In PHP a callable such as `function ($c) { return new \stdClass(); }` (tests/ContainerTest.php:22-24) makes a new object on each call. Object identity is not modelled, so the lack of memoisation shows only when the table changes between calls.
- Ids are strings. `has` and `get` have no type hint in PHP and could receive other key types; `$c[] = $v` passes a `null` offset to `set`. Neither is modelled.
- PHP's integer width: array keys are unbounded integers, so numeric strings beyond `PHP_INT_MAX`, which PHP keeps as strings, are not distinguished.
- A `null` initial array and an empty one both seed nothing; both are the empty sequence.
- The `ContainerException` and `EntityNotFoundException` classes have no logic. The container itself throws only the not-found error, the `EntityNotFound` variant of `Errors.ContainerError`.
- Test scaffolding: the demo classes of tests/testClass, the PDO test (I/O) and the `absService` test (floating point) are not modelled.
