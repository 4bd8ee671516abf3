# Customer store model

This project models the customer store behind a small React CRUD screen: `clienteService.js`,
a mock back end that keeps every customer record (`cliente`) in one browser local-storage slot
named `'clientes'`. It offers list (`obtenerClientes`), lookup by id (`obtenerClientePorId`),
create (`crearCliente`), update (`actualizarCliente`), delete (`eliminarCliente`) and a
case-insensitive search (`buscarClientes`).

In the model every operation is a pure function, and each is named after the JavaScript operation:

- It takes the contents of the slot (`Slot = Option<Store>`, where `None` means the slot was never
  written).
- It also takes the clock readings it needs: `Date.now().toString()` and the ISO timestamp.
- The read-only operations (list, lookup, search) return only what the promise resolves with or
  rejects with.
- Create, update and delete also return the new slot contents.

A record is a `map<string, Value>`, where `Value` is a string or `null`. JavaScript object spread is
right-biased map union (`Records.Spread`).

The files:

- `wrappers.dfy`: the `Option` and `Result` types.
- `seqs.dfy`: order-preserving subsequences and `Filter` (`Array.prototype.filter`).
- `text.dfy`: ASCII `toLowerCase` and `includes`, proved against a substring definition.
- `records.dfy`: records, field names, spread, the id test and `findIndex`.
- `cliente_service.dfy`: the storage slot and the six operations.
- `cliente_properties.dfy`: lemmas that relate several operations, plus two worked scenarios.

Ids are not assumed unique. The code builds ids from millisecond timestamps, and the caller's data
may supply its own `id`. So the model keeps three behaviours apart:

- lookup acts on the first record with the id;
- update acts on the first record with the id;
- delete removes every record with the id.

Where the code differs from what one might assume of a CRUD store, the model follows the code:

- Ids are not unique. Nothing enforces it, and a `clienteData.id` overrides the generated id
  because the spread comes after it.
- Delete removes every record with the id, not just one.
- The search can throw. It calls `.toLowerCase()` on the name, surname and e-mail, so it throws a
  `TypeError` when the test reaches a field that is missing or `null`. The `||` short-circuits,
  so a record whose name matches is kept even if it has no surname or e-mail.
- Delete always writes the slot, so deleting from an absent slot leaves an empty collection stored.
  The collection as read is unchanged either way.

## Model

| member | source | states |
|---|---|---|
| ClienteService.Load | src/services/clienteService.js:15-18 | an absent slot reads as the empty collection; a present slot reads as the stored collection |
| ClienteService.Save | src/services/clienteService.js:20-22 | writing a collection and reading it back gives the same collection |
| ClienteService.ObtenerClientes | src/services/clienteService.js:31-36 | listing returns the empty sequence for an absent slot and the stored sequence, in order, otherwise |
| Records.Spread | src/services/clienteService.js:121-125 | object spread: the keys of both records; the right-hand value wherever both have the key; the left-hand value elsewhere |
| Records.FirstIndex | src/services/clienteService.js:118-119 | `findIndex`: `None` (-1) exactly when no record has the id; otherwise a position holding the id with no earlier position holding it |
| ClienteService.ObtenerClientePorId | src/services/clienteService.js:58-59 | `None` (undefined) exactly when no record has the id; otherwise the record at the first position holding the id |
| ClienteService.NewCliente | src/services/clienteService.js:82-86 | the new record has every key of the data plus `id` and `fechaCreacion`; `fechaCreacion` is the timestamp; `id` is the data's own `id` if it has one, else the generated id; every other data field is kept as given |
| ClienteService.CrearCliente | src/services/clienteService.js:81-89 | the stored sequence becomes the old one plus the new record at the end; the length grows by one; every earlier record keeps its position; the returned record is the appended one |
| ClienteService.Patched | src/services/clienteService.js:121-125 | the merged record keeps every old key; fields named in the data take the data's value; unmentioned fields keep their old value; `fechaActualizacion` is the timestamp |
| ClienteService.ActualizarCliente | src/services/clienteService.js:117-127 | rejects with "Cliente no encontrado" exactly when no record has the id, and then the slot is unchanged; otherwise only the first matching position is replaced, by the merged record, the length is kept, and that record is returned |
| Seqs.Filter | src/services/clienteService.js:156 | `filter` returns no more elements than its input, and every element it returns is an accepted element of the input |
| Seqs.FilterIsSubseq | src/services/clienteService.js:156 | the elements `filter` returns appear in the order they have in the input |
| Seqs.FilterCounts | src/services/clienteService.js:156 | every accepted element of the input is returned as often as it occurs there, and no rejected element is returned |
| Seqs.FilterKeepsAll | src/services/clienteService.js:156 | filtering with a predicate that accepts every element returns the input unchanged |
| ClienteService.EliminarCliente | src/services/clienteService.js:155-158 | always resolves `{success: true, id}`; the stored sequence, computed by `ClienteService.WithoutId`, is an order-preserving subsequence of the old one; no record with the id remains; every other record keeps its multiplicity |
| Text.LowerChar | src/services/clienteService.js:184 | each ASCII capital maps to its own lower-case letter; a lower-cased character is never an ASCII capital; nothing else changes |
| Text.LowerIdempotent | src/services/clienteService.js:184 | lower-casing a string twice is the same as lower-casing it once |
| Text.Lower | src/services/clienteService.js:184 | `toLowerCase` keeps the length and lower-cases each character on its own, as `LowerChar` does |
| Text.IncludesSpec | src/services/clienteService.js:186-188 | `Text.Includes`, the model of `includes`, holds exactly when the needle occurs at some position of the string, so the empty needle is in every string |
| Text.IncludesEmpty | src/services/clienteService.js:186 | the empty term is included in every string |
| ClienteService.JudgeSpec | src/services/clienteService.js:185-189 | `ClienteService.Judge`, the search callback, throws exactly when the left-to-right short-circuit or reaches a missing or null field; otherwise it says whether the lower-cased term occurs in the lower-cased name, surname or e-mail |
| ClienteService.JudgeAll | src/services/clienteService.js:185-189 | the callback's behaviour from `JudgeSpec`, stated for every record of a collection |
| ClienteService.FilterMatchingIsFilter | src/services/clienteService.js:185-189 | `ClienteService.FilterMatching`, the throwing filter, rejects with a TypeError exactly when the callback throws on some record, and otherwise equals the plain filter by the callback |
| ClienteService.SearchSpec | src/services/clienteService.js:183-189 | over any collection, the search fails exactly when some record throws; on success its result is an order-preserving subsequence that is sound and complete for the term, with multiplicities kept |
| ClienteService.BuscarClientes | src/services/clienteService.js:181-189 | rejects with a TypeError exactly when some record's test reaches a missing or null field; otherwise returns an order-preserving subsequence of the list; a record is in it if and only if the lower-cased term occurs in its lower-cased name, surname or e-mail; each such record appears as often as in the list |
| ClienteProperties.CreateThenGet | src/services/clienteService.js:82-89 | if no stored record has the generated id and the data brings no `id`, looking up the generated id after a create returns the created record |
| ClienteProperties.CreateKeepsEarlierMatch | src/services/clienteService.js:59 | if a stored record already has the id, a create does not change what a lookup of that id returns: the earlier record shadows the new one |
| ClienteProperties.UpdateThenGet | src/services/clienteService.js:118-127 | an update of an existing id whose data leaves `id` alone succeeds, and a later lookup returns the updated record |
| ClienteProperties.UpdateSkipsLaterDuplicates | src/services/clienteService.js:118-121 | when two records share the id, an update succeeds and leaves the later one as it was |
| ClienteProperties.DeleteThenGet | src/services/clienteService.js:156 | after a delete, a lookup of the id finds nothing, however many records had it |
| ClienteProperties.DeleteAbsent | src/services/clienteService.js:156 | deleting an id that no record has leaves the collection unchanged |
| ClienteProperties.DeleteIdempotent | src/services/clienteService.js:155-158 | deleting the same id twice gives the same slot and acknowledgement as deleting it once |
| ClienteProperties.DeleteKeepsOtherLookups | src/services/clienteService.js:156 | deleting one id does not change what a lookup of any other id returns |
| ClienteProperties.SearchIgnoresCase | src/services/clienteService.js:184 | searching for a term and for its lower-cased form gives the same answer |
| ClienteProperties.SearchEmptyTerm | src/services/clienteService.js:184-186 | when every record has a name, the empty term returns the whole list |
| ClienteProperties.SearchTotal | src/services/clienteService.js:185-189 | when every record has a name, a surname and an e-mail, the search does not fail |
| ClienteProperties.SearchFindsSurname | src/services/clienteService.js:185-189 | a record with name "Juan" and surname "García" and no e-mail is found by "gar" and by "GAR" |
| ClienteProperties.Lifecycle | src/services/clienteService.js:81-158 | starting from an absent slot: the list is empty; after a create it is exactly the new record, whose `id` and `fechaCreacion` are the supplied values; after an update it is exactly the updated record; after a delete it is empty again |

## Left out

- `src/components/FormularioCliente.jsx` is not part of this model. It is React rendering, form state, loading and error flags, `window.confirm` and `FileReader` photo reading.
- `simulateDelay`, `setTimeout` and the `async`/`await` wrappers are left out. They only add latency, so each operation is modelled as synchronous. A rejected promise is a `Failure` result.
- `localStorage` and `JSON.parse`/`JSON.stringify` are left out. The slot is a value passed in and returned, and the JSON round trip is the identity.
- A malformed stored payload is not modelled, because JSON parsing is left out.
- An empty-string payload is not modelled. That string is falsy, so the source reads it as `[]`, but `JSON.stringify` of an array never yields it, and with JSON as the identity it cannot be written.
- `Date.now()` and `new Date().toISOString()` are clock reads, so they become parameters. No claim is made that generated ids are unique.
- `console.error` logging is left out, and so are the re-throws that only log, and the commented-out REST `fetch` variants with `API_URL`.
- Text.LowerChar: lower-cases ASCII letters only. JavaScript's `toLowerCase` also folds non-ASCII letters such as `Á`; full Unicode case mapping is out of scope.
- Ids and the search term are strings. The source does not check argument types, and a non-string argument would never match a stored string id.
- ClienteService.BuscarClientes: the TypeError carries no message and no field name. The engine's message text is not part of the program.
