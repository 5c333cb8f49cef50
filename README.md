# Interner — a Dafny model of a Swift object interner

This project models the single-threaded object interner `Interner<Extern, Intern>`.
The interner gives each distinct hashable object a compact symbol: a wrapper
around an unsigned raw id. The first new object gets raw id 0, the next gets 1,
and so on. Interning an object a second time returns its existing symbol.

The interner keeps a dictionary from objects to symbols. In `.time` mode it also
keeps a reverse array of objects, indexed by raw id, so `lookup` is a direct
index. In `.space` mode there is no array, and `lookup` scans the dictionary.

The model has four files:

- `wrappers.dfy` defines `Option`, which stands for Swift's optional.
- `symbol.dfy` (module `Symbols`) models `GenericSymbol` as a datatype over a
  `nat` raw value. It covers `unchecked(rawValue:)`, the synthesized equality
  and hashing, and `description`, modelled as the decimal numeral of the raw
  value.
- `interner.dfy` (module `Interners`) models the interner as a class with two
  fields. `dictionary` is a `map<Object, Symbol>`. `reverseArray` is the
  source's `array` (renamed because `array` is a Dafny keyword), an
  `Option<seq<Object>>`.
  - The ghost field `objects` lists the objects in the order they were first
    interned.
  - `Valid()` is the bijection invariant. Object `i` of `objects` has
    `Symbol(i)`. Every dictionary entry is one of those objects. Raw ids fit the
    symbol width. In `.time` mode the reverse array equals `objects`.
  - The width of `Intern` is represented by its maximum, `maxIntern` (255 for
    `UInt8`). The `fatalError` in `interned` becomes a precondition.
  - The protocol defaults `intern` and `lookupUnchecked` from
    `InternerProtocol` are methods of the class, because `Interner` is the only
    conformer in the model.
- `scenarios.dfy` holds client methods that rely only on the contracts.
  `InternDistinctThenLookUp` has the unit test's shape: distinct objects are
  interned into a fresh interner and each symbol is then looked up.
  `InternAndLookUp` is an illustrative example with a repeated value and an
  unissued symbol; its values are not the test's. The other two show the
  `removeAll` behaviour described under "## Findings".

`removeAll` is modelled as written: it clears the dictionary and leaves the
reverse array as it was. In `.time` mode the interner is therefore no longer
`Valid()` unless its array was already empty. The evident intent is to clear
both structures, but the code does not, and the model follows the code.
`ClearAll` shows the intended behaviour.

The space-mode lookup uses `dictionary.first`, which depends on the
dictionary's iteration order. That order is unspecified. The model scans the
key set in whatever order `:|` picks, and `makeIterator` works the same way. So
`Lookup`, `ExpensiveLinearLookup` and `MakeIterator` are methods, and their
contracts hold for every iteration order.

## Model

| member | source | states |
|---|---|---|
| `Symbols.Unchecked` | Sources/Interner/Symbol.swift:15-17 | the symbol built from `r` has raw value `r` |
| `Symbols.UncheckedRoundTrip` | Sources/Interner/Symbol.swift:11-17 | building a symbol from a raw value and reading the raw value back are inverse to each other in both directions |
| `Symbols.EqualityIsRawEquality` | Sources/Interner/Symbol.swift:22 | two symbols are equal iff their raw values are equal |
| `Symbols.HashDeterminedByRawValue` | Sources/Interner/Symbol.swift:20 | two symbols feed the hasher the same input iff their raw values are equal, so equal symbols hash alike |
| `Symbols.Decimal` | Sources/Interner/Symbol.swift:28-30 | the description of `n` is a canonical decimal numeral (digits only, no leading zero) that denotes `n` |
| `Symbols.Description` | Sources/Interner/Symbol.swift:28-30 | a symbol's description is the canonical decimal numeral of its raw value |
| `Symbols.DescriptionInjective` | Sources/Interner/Symbol.swift:28-30 | two symbols have the same description iff they are equal |
| `Interners.Interner.constructor` | Sources/Interner/Interner.swift:44-54 | a new interner is valid and empty (`count == 0`, `isEmpty`); its array is `[]` in `.time` mode and absent in `.space` mode |
| `Interners.Interner.Equals` | Sources/Interner/Interner.swift:62-70 | equal iff the dictionaries and the optional arrays are equal; equal interners have the same count and mode, and a `.time` interner never equals a `.space` one |
| `Interners.Interner.Count` | Sources/Interner/Interner.swift:108-110 | on a valid interner `count` is the number of distinct objects interned since the last reset |
| `Interners.Interner.IsEmpty` | Sources/Interner/Interner.swift:112-114 | `isEmpty` holds iff `count` is 0 |
| `Interners.Interner.ResolvableIffIssued` | Sources/Interner/Interner.swift:140-156 | on a valid interner, `lookup` finds an object for a symbol in either mode iff its raw id is below `count` |
| `Interners.Interner.IssuedSymbolsAreDense` | Sources/Interner/Interner.swift:121-127 | on a valid interner the symbols issued are exactly raw ids `0 ..< count`, with no gaps |
| `Interners.Interner.SymbolsAreUnique` | Sources/Interner/Interner.swift:116-131 | on a valid interner two interned objects have the same symbol iff they are the same object |
| `Interners.Interner.ExpensiveLinearLookup` | Sources/Interner/Interner.swift:98-104 | returns a key whose symbol matches, and returns nothing iff no entry has that symbol |
| `Interners.Interner.Lookup` | Sources/Interner/Interner.swift:140-156 | `.time`: the array element at the raw id if it is in range, else nothing. `.space`: a key mapped to the symbol, else nothing. The result is present iff `Resolvable`. On a valid interner both modes return object number `rawValue` in interning order, or nothing for a symbol not yet issued |
| `Interners.Interner.LookupUnchecked` | Sources/Interner/InternerProtocol.swift:51-57 | requires that `lookup` would find the symbol (the fatal guard); returns the object `lookup` returns |
| `Interners.Interner.Interned` | Sources/Interner/Interner.swift:116-134 | a known object: returns its symbol and changes nothing. A new object (requires old count <= `Intern.max`): returns `Symbol(old count)`, adds it to the dictionary and, in `.time` mode, appends it to the array. Count grows by one exactly for a new object. Validity is kept, and afterwards `interned` and `lookup` round-trip (lines 130-131) |
| `Interners.Interner.Intern` | Sources/Interner/InternerProtocol.swift:44-46 | the same state change as `interned`, with the symbol discarded (also `Interner.swift:136-138`) |
| `Interners.Interner.ReserveCapacity` | Sources/Interner/Interner.swift:158-161 | dictionary, array and interning order are unchanged, so validity is kept |
| `Interners.Interner.RemoveAll` | Sources/Interner/Interner.swift:163-165 | the dictionary is emptied (count 0, `isEmpty`) and the array is left unchanged; the interner stays valid iff it has no array or an empty one |
| `Interners.Interner.ClearAll` | Sources/Interner/Interner.swift:163-165 | the corrected reset: dictionary and array are both emptied, the mode is kept, and the interner is valid |
| `Interners.Interner.MakeIterator` | Sources/Interner/Interner.swift:168-175 | yields every dictionary pair exactly once (as many pairs as `count`, no key twice) in unspecified order; on a valid interner it yields `(object i, Symbol(i))` for each `i` |
| `Scenarios.InternDistinctThenLookUp` | Tests/InternerTests/InternerTests.swift:11-48 | in either mode, a fresh interner given n <= `Intern.max` + 1 distinct objects returns `Symbol(i)` for the i-th, has count n, and looks `Symbol(i)` up as the i-th object |
| `Scenarios.InternAndLookUp` | Sources/Interner/Interner.swift:116-156 | illustrative values, not the test's: in either mode, interning 10, 20, 10, 30 gives symbols 0, 1, 0, 2 and count 3; symbol 1 looks up as 20, and unissued symbol 5 finds nothing |
| `Scenarios.StaleLookupAfterRemoveAll` | Sources/Interner/Interner.swift:163-165 | in `.time` mode, after `removeAll` the next new object again gets `Symbol(0)`, and looking it up returns the object interned before the reset |
| `Scenarios.FreshLookupAfterClearAll` | Sources/Interner/Interner.swift:128-131 | with both structures cleared, the same calls look `Symbol(0)` up as the new object |

## Left out

- `ThreadsafeInterner.swift`, `ConcurrentInterner.swift`: their purpose is readers–writer exclusion over dispatch queues. Every operation passes straight through to the wrapped interner. Concurrency is not modelled.
- `Protocols.swift` is a stale duplicate of the protocol, used only by the concurrent variant. Its `lookupUnchecked` has the same meaning as the one modelled.
- `InternerError.swift` is an error protocol with one requirement (`invalidType`) and no logic.
- `hash(into:)` of the interner, `customMirror` and the symbol's `debugDescription` are left out. They are reflection and hasher plumbing. For symbols, only what the hasher is fed is modelled.
- Memory allocation is not modelled. `ReserveCapacity` and the `keepCapacity` argument of `RemoveAll` leave the modelled contents unchanged.
- The `Int(exactly:)` conversion fatal in the `.time`-mode lookup is left out. It depends on platform integer width, so raw ids are taken to fit in `Int`.
- Integer types: a symbol's raw value is an unbounded `nat`. Only the raw ids the interner issues are bounded by `maxIntern`, through `Valid()` and the precondition of `Interned`. So `Unchecked(1000)` exists in the model even with `maxIntern == 255`, although no `GenericSymbol<UInt8>` can hold it. `count` is a `nat`, and overflow of Swift's `Int` count is not modelled.
- Default arguments are not modelled: `.time` for `init(efficientFor:)` and `false` for `removeAll(keepingCapacity:)`. The constructor takes the mode, and also the `Intern` width's maximum; `RemoveAll` takes `keepCapacity` explicitly.
- Interned: the debug-only `assert`s at Interner.swift:130-131 are not modelled; the contract is the release-build behaviour. In a debug build, interning a new object into a `.time` interner whose array is stale after `removeAll` stops at line 131 instead of returning.
- Equals: it requires both interners to have the same `maxIntern`. In Swift both operands of `==` have the same `Intern` type.
- Symbols from different interner instances are not distinguished at the type level. The model only reasons about symbols within one instance.
- Benchmarks, the random-data and concurrent tests, and `Package.swift` are left out.

## Findings

| source | as written | input that shows it | evidently intended | confidence | as-written member | corrected member |
|---|---|---|---|---|---|---|
| Sources/Interner/Interner.swift:163-165 | `removeAll` clears only the dictionary; a `.time` interner keeps its reverse array | `.time` interner: `interned(a)`, `removeAll()`, then `interned(b)` with `b != a`: in a release build it returns `Symbol(0)`, and `lookup(Symbol(0))` then returns `a`; in a debug build the `assert` at line 131 stops the program | clear the reverse array too, so the bijection between symbols and objects holds again | not executed; follows from the code as written | `Scenarios.StaleLookupAfterRemoveAll` | `Interners.Interner.ClearAll` |
