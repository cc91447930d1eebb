# Pokédex REPL: cache, registry and cursors in Dafny

A Dafny model of the sequential core of a Go command-line Pokédex that pages
through location areas of a remote Pokémon API:

- `pokecache.dfy` (module `PokeCache`): the expiring response cache. A `Cache`
  class holds `cacheMap: map<string, CacheEntry>`. `Add` is an upsert stamped
  with a caller-supplied clock reading `now`. `Get` is a read-only lookup
  returning `(val, true)` or `([], false)`. `Reap(t)` is one wake-up of the
  reaper goroutine at tick time `t`: a loop over the keys deleting every
  entry created strictly before `t`. A run of the cache is also described as a
  sequence of `Put`/`Tick` events, and the lifetime of an entry is proved
  over such runs.
- `common.dfy` (module `Common`): the caught-Pokémon registry. `CaughtPokemons`
  holds the shared `map<string, Pokemon>`, and `Config.SavePokemon` upserts a
  record under its name.
- `input.dfy` (module `Input`): `CleanInput`, i.e. `strings.Fields(strings.TrimSpace(strings.ToLower(text)))`.
  `ToLower`, `TrimLeft`/`TrimRight`/`TrimSpace` and `Word` are the helpers it
  is built from; their facts are the lemmas `ToLowerHasNoUpper`,
  `NonSpaceTrimSpace` and `SqueezeTrimSpace`. `Fields` is specified against
  the independent `Squeeze`, which writes the white-space-separated words of
  a string with one space between them: the fields are white-space-free,
  non-empty, and joined by single spaces they give `Squeeze(s)`, which by
  `FieldsUnique` leaves no other choice of fields.
- `repl.dfy` (module `Repl`): main.go's `Config{Previous, Next}` as a class, its
  initialisation `Init`, the cursor updates of `commandMap`/`commandMapb`, the
  `availableCommands` table, and the read-dispatch loop of `main` as `Run`.
  `Run` is proved against the pure `Session` function.

The reaper is easily read as "evict the entries older than the retention
interval", which would let an entry live between one and two intervals. The
code (internal/pokecache/pokecache.go:53) instead evicts every entry created
before the tick time itself, and the model follows the code: an entry lives
at most one interval, and possibly much less. `GoneByFirstTickAfter` and
`EarlyEvictionScenario` state this.

## Model

| member | source | states |
|---|---|---|
| PokeCache.Cache.constructor | internal/pokecache/pokecache.go:18-25 | `NewCache` starts with an empty map, so every key misses; it needs a positive interval, as the ticker it starts does |
| PokeCache.Cache.Add | internal/pokecache/pokecache.go:27-35 | the map afterwards is the old map with `key` bound to `{now, val}`: the entry is readable, its `createdAt` is the clock reading, every other key keeps its entry and presence |
| PokeCache.Cache.Get | internal/pokecache/pokecache.go:37-45 | `ok` exactly when the key is present, and then `val` is the stored payload; otherwise `val` is empty (nil); it modifies nothing |
| PokeCache.Cache.Reap | internal/pokecache/pokecache.go:51-56 | one sweep at tick time `t` leaves exactly `Swept(old map, t)` |
| PokeCache.SweepExact | internal/pokecache/pokecache.go:52-55 | a sweep keeps a key iff it was present with `createdAt >= t`, keeps survivors' entries unchanged and never adds a key |
| PokeCache.SweepIdempotent | internal/pokecache/pokecache.go:51-56 | a second sweep at the same tick time changes nothing |
| PokeCache.Replay | internal/pokecache/pokecache.go:27-56 | any sequence of `Add` and `Reap` calls on a cache leaves exactly `Run` of the old map over the matching events, so the lemmas about runs hold of the class |
| PokeCache.RunWithoutPut | internal/pokecache/pokecache.go:27-56 | over any run of upserts and ticks that never writes `key`, the key survives iff every tick is at or before its `createdAt`, and then its entry is unchanged |
| PokeCache.LifetimeAfterLastPut | internal/pokecache/pokecache.go:27-56 | after the last write of `key` at time `a`, the key is present iff no later tick exceeds `a`, and while present it holds the value written at `a` |
| PokeCache.FirstTickAfter | internal/pokecache/pokecache.go:48-51 | for a ticker started at `start` with period `interval`, the number `k >= 1` of the first tick strictly after `a`: tick `k - 1` is at or before `a` |
| PokeCache.GoneByFirstTickAfter | internal/pokecache/pokecache.go:47-56 | an entry last written at `a` is gone once the first tick after `a` has run, and that tick comes at most one interval after `a` |
| PokeCache.ExpiryScenario | internal/pokecache/pokecache.go:18-56 | with a 50-unit interval, a payload stored at 0 is found at 10 and gone after the ticks at 50 and 100 |
| PokeCache.OverwriteScenario | internal/pokecache/pokecache.go:27-45 | a fresh cache misses every key; after two writes of one key, the later value is read back and the map holds one entry |
| PokeCache.EarlyEvictionScenario | internal/pokecache/pokecache.go:53 | a payload stored one unit before a tick is evicted by that tick, much less than an interval after it was stored |
| Common.CaughtPokemons.constructor | internal/common/common.go:15-18 | a new registry holds no records |
| Common.Config.constructor | internal/common/common.go:8-13 | a `Config` holds the given cache, cursors and shared registry |
| Common.Config.SavePokemon | internal/common/common.go:28-32 | upsert by name into the shared registry: the record is filed under its name, every other name keeps its record, the key set grows by exactly that name (size by at most one), and neither the cursors nor the cache change |
| Common.SaveTwiceScenario | internal/common/common.go:31 | saving two records with one name leaves a single entry holding the later one; an unsaved name is not found |
| Input.Word | main.go:174 | the longest white-space-free prefix of a string: a prefix with no white space, followed by white space or the end |
| Input.Fields | main.go:174 | `strings.Fields`: every field is non-empty and free of white space, the fields laid end to end are exactly the non-space characters of the input, and joined by single spaces they are the input with leading and trailing white space dropped and every inner white-space run made one space |
| Input.FieldsUnique | main.go:174 | any white-space-free, non-empty fields that join to that squeezed form are exactly `Fields(s)`: the split points are the white-space runs |
| Input.SqueezeTrimSpace | main.go:172-174 | trimming before splitting does not change the squeezed form of the line |
| Input.NonSpaceTrimSpace | main.go:172 | `TrimSpace` removes only white space: the non-space characters are unchanged |
| Input.ToLowerHasNoUpper | main.go:172 | a lower-cased string holds no upper-case ASCII letter |
| Input.NonSpaceEmpty | main.go:174 | a string has no non-space character iff every character is white space |
| Input.CleanInput | main.go:171-175 | every token is non-empty and free of white space and of upper-case letters, and the tokens joined by single spaces are the lower-cased line with its white space squeezed |
| Input.CleanInputEmpty | main.go:171-175 | `CleanInput` returns no token iff the line is all white space, the case in which `main` skips the line |
| Input.FieldsOfJoin | main.go:174 | splitting the single-space join of white-space-free, non-empty tokens gives back those tokens |
| Input.CleanInputRejoin | main.go:171-175 | cleaning the single-space join of `CleanInput`'s output gives the same tokens |
| Input.CleanPadded | main.go:171-175 | a line made of lower-case tokens (possibly none) joined by single spaces and padded with any white space cleans to those tokens |
| Input.CleanInputHelloWorld | repl_test.go:12-15 | `CleanInput("  hello world   ") == ["hello", "world"]` |
| Input.CleanInputHelloMyWorld | repl_test.go:16-19 | `CleanInput("  hello my world   ") == ["hello", "my", "world"]` |
| Repl.Config.Init | main.go:78-81 | the first config has no previous page and points `Next` at the first page, `offset=0&limit=20` |
| Repl.Fetched | main.go:113-130 | a decoded 200 page replaces both cursors with no error; any other status is an error carrying that status; a 200 whose body does not decode is the decoder's error; there is no error exactly for a transport failure or a decoded page; a transport error is swallowed; on every error the cursors are unchanged; new cursors come only from a decoded page |
| Repl.CommandMap | main.go:111-137 | requests the old `Next` URL and leaves the cursors and error that `Fetched` gives for the answer |
| Repl.CommandMapb | main.go:139-169 | on the first page (`Previous == ""`) changes nothing and returns no error; otherwise requests the old `Previous` URL and behaves as `Fetched` on the answer |
| Repl.Execute | main.go:31-46 | one turn of the loop: a blank line is skipped, an unknown first word is reported, `exit` ends, `help` changes nothing, `map`/`mapb` move the cursors; exactly as `Dispatch` |
| Repl.SessionOutcomes | main.go:26-53 | the loop yields at most one outcome per line; only the last outcome can be `Exited`; fewer outcomes than lines only when the last is `Exited` |
| Repl.Run | main.go:26-53 | the loop leaves exactly the cursors and outcomes of `Session` |
| Repl.CommandTableNames | main.go:56-77 | the dispatch table holds `exit`, `help`, `map`, `mapb`, each filed under its own name |
| Repl.CursorsStayWithoutPaging | main.go:30-46 | a session in which no line runs `map` or `mapb` leaves both cursors as they were |
| Repl.ExitEndsSession | main.go:84-88 | nothing after an `exit` line is processed |
| Repl.BlankLineSkipped | main.go:31-34 | a line of white space only runs no command and leaves the cursors as they were |
| Repl.MapbOnFirstPage | main.go:140-143 | `mapb` with `Previous == ""` leaves the cursors and reports success |
| Repl.MapFromStart | main.go:78-81 | right after `Init`, a `map` answered with a decoded page requests the first page and moves to that page's cursors |

## Left out

- Wall clock, ticker, goroutine and mutexes (internal/pokecache/pokecache.go:23, 28-29, 48-51; internal/common/common.go:29-30): time is an integer the caller passes, each method is one atomic step, and the reaper's endless loop is the event runs of `PokeCache.Run` with one `Reap` per tick. Locking is not verified. The reaper's unlocked iterate-and-delete (a data race in the source) is modelled as an atomic sweep.
- HTTP and JSON (main.go:113-127): the answer to a request is an abstract `Response`. Each command makes at most one request, so a `remote` function per input line loses nothing. `Count` is decoded but never used, and only the names in `Results` are printed (main.go:132-134, 164-166), so neither is modelled.
- Printing, `os.Exit` and `commandHelp`'s listing (main.go:29, 39, 44, 48, 85-86, 91-96, 132-134, 141, 164-166): output is not modelled. `exit` becomes the `Exited` outcome that ends `Run`. `help` changes nothing.
- The `bufio.Scanner` (main.go:28-30, 50-52): input lines are a sequence, and scanner errors are not modelled.
- Unicode case mapping: `ToLower` maps only `A`-`Z`. White space is the full set that `unicode.IsSpace` accepts.
- The response cache and the registry are not wired to main.go's commands, because main.go does not use them. common.go's `Config` and main.go's `Config` are distinct types in the source, and they are distinct classes here.
- Zero values: common.go declares no constructor, and a zero `CaughtPokemons` has a nil mutex and a nil map, so `SavePokemon` on it panics (internal/common/common.go:29, 31). `Common.CaughtPokemons.constructor` stands for a registry built as an initialised struct literal, and the zero-value panic is not modelled.
- Aliasing of stored values: Go stores the caller's `[]byte` slice in the cache (internal/pokecache/pokecache.go:31-34), and a `Pokemon`'s `Stats` map and `Types` slice are references too, so a later change by the caller also changes the stored entry. Here payloads and records are immutable `seq`/`map` values, so the model does not capture that sharing.
- Requests to an empty URL: `remote` may answer any URL, including `""`, although `http.Get("")` always fails. On the last page, where `Next` decodes from a JSON null to `""`, `map` therefore always does nothing and reports no error (main.go:112-116). The model leaves the answer for `""` to `remote` and does not impose that failure.
- `Input.CleanInput`: a line is a sequence of Unicode code points. A Go string is bytes, and invalid UTF-8 is not modelled: `strings.ToLower` replaces an invalid byte with U+FFFD, and a lone byte 0x85 is not white space in Go although the code point U+0085 is.
