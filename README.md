# Key scrubber and CRDT document registry

This project models two pieces of a small Express server that hosts CRDT
documents and a document store.

- **Key scrubber** (`src/scrubber.js`). `scrub(x, ks, substitute)` walks a
  nested JSON-like object in place. It writes `substitute` over every
  property whose key is listed in `ks`. It recurses into every other
  property that holds an object or array.
- **Password middleware.** The server applies `scrub` with the key list
  `["password"]` and the substitute `'test'` to the request query, and to
  the body when one is present, before any request is logged.
- **CRDT document registry.** The server keeps the process-wide map
  `crdt[ns][id] = { doc, peerDocs }`. Each WebSocket connection to
  `/crdt/:ns/:id` gets or creates the namespace map and the entry, creates
  one fresh per-connection replica, and adds that replica to the entry's
  `peerDocs`.
- **Bulk guard.** Bulk `PATCH` and bulk `DELETE` on `/:ns/:collection`
  refuse a query object with no keys.

The project has three modules:

- `Json` (json.dfy) holds the values the middleware sees. A value is a
  primitive or a container. A container is an object or an array with an
  ordered list of properties, the way `Object.entries` enumerates it: array
  elements sit under the keys "0", "1", and so on. The module also has
  JavaScript truthiness, `typeof`, property access, and lookup along a path
  of keys.
- `Scrubber` (scrubber.dfy) has two parts:
  - `Scrubbed`, a reference definition on values, with its properties proved
    as lemmas;
  - the `Node` class, a mutable object tree in the heap, and the method
    `Scrub`, which walks it and overwrites properties in place. `Scrub` is
    proved to leave exactly `Scrubbed` of the old tree.
- `Server` (server.dfy) has three parts:
  - the middleware: `ScrubPasswords` and `ScrubRequest`;
  - the registry: the `Hub` class, whose field `crdt` the method `Connect`
    updates, and the function `Join`, which is what one connection does to
    the registry as a value;
  - the bulk guard: `BulkRequest`.

## Model

| member | source | states |
|---|---|---|
| Json.IsTraversable | src/scrubber.js:4 | The guard `v && typeof v === 'object'` holds exactly for objects and arrays. `null` fails it although its `typeof` is "object". |
| Json.Keys | src/server.js:160 | `Object.keys` of a container lists one key per property, in enumeration order. A key is listed exactly when property access on the container finds it, so an empty list means the value has no property at all. The model gives a primitive no keys. This differs from JavaScript, where a string lists its index keys and `null` throws, but every use here passes a query object, a body or a container reached by the recursion. |
| Scrubber.ScrubbedLevel | src/scrubber.js:2-4 | At one level, the result is the same kind of container with the same keys in the same order. A listed key holds the substitute whatever it held before, so it is never recursed into. Any other key holds its old value, scrubbed. |
| Scrubber.GetScrubbedProps | src/scrubber.js:2-4 | Over a property list after the loop, looking up key k yields the substitute when k is listed and the old value scrubbed otherwise. It yields nothing exactly when the old list had no k. |
| Scrubber.GetScrubbed | src/scrubber.js:3-4 | The same statement for property access `x[k]` on a scrubbed container. |
| Scrubber.LookupScrubbed | src/scrubber.js:2-4 | Along any path that uses no listed key, the path exists in the result exactly when it exists in the input. What it reaches is the input's value there, scrubbed. |
| Scrubber.MaskedAtDepth | src/scrubber.js:3-4 | A listed key found at the end of any such path holds the substitute after scrubbing, at every depth. |
| Scrubber.PrimitivesKept | src/scrubber.js:4 | A primitive reached by the recursion is left unchanged. This includes `null`, `false`, `0` and `""`. |
| Scrubber.KeysKept | src/scrubber.js:2-3 | Every container the recursion reaches keeps its keys in order. No key is added, removed or reordered. |
| Scrubber.ScrubIdempotent | src/scrubber.js:2-4 | Scrubbing twice with the same keys and substitute equals scrubbing once. |
| Scrubber.ScrubNothingListed | src/scrubber.js:2-4 | With an empty key list the value is returned unchanged. |
| Scrubber.ScrubWellFormed | src/scrubber.js:2-5 | Scrubbing keeps keys distinct and array indices in order at every depth, provided the input and the substitute have these properties. |
| Scrubber.Mask | src/scrubber.js:3 | `x[k] = substitute` changes only the i-th property, and the tree stays valid. |
| Scrubber.ScrubChild | src/scrubber.js:4 | The recursive call on the object held by the i-th property replaces that property's value by its scrubbed value. It leaves the sibling subtrees untouched. |
| Scrubber.Visit | src/scrubber.js:3-4 | One loop iteration leaves the i-th property as the reference definition says and every other entry as it was. |
| Scrubber.Scrub | src/scrubber.js:1-8 | Returns the object it was given, not a copy. Its keys, its kind and its set of heap objects are unchanged. Its contents afterwards are `Scrubbed` of its contents before. |
| Server.ScrubPasswords | src/server.js:19 | `scrub(x, ['password'], 'test')` in place: the new contents are `Scrubbed` of the old contents with that key list and substitute. |
| Server.ScrubRequest | src/server.js:36-41 | The query is always scrubbed. The body is scrubbed only when present. |
| Server.PasswordsMasked | src/server.js:38-39 | After the middleware, every `password` property that the recursion reaches reads 'test'. |
| Server.Join | src/server.js:65-76 | Afterwards `crdt[ns]` and `crdt[ns][id]` exist. An existing entry keeps its canonical doc and gains the replica. A first connection creates an entry holding exactly the new doc and one peer. The peer set grows by exactly one when the replica is new. The other ids of the namespace and all other namespaces are unchanged. The registry grows. |
| Server.JoinNoEmptyNamespace | src/server.js:66-70 | A namespace map is never left without an entry. |
| Server.JoinDocsApart | src/server.js:70-76 | `Join` keeps every entry's canonical document out of that entry's own peer set, provided the added replica is neither the new document nor the joined entry's existing document. It says nothing about one replica appearing in two entries. |
| Server.JoinAllGrows | src/server.js:65-76 | Over any run of connections, no entry, canonical document or peer replica is lost. |
| Server.JoinAllDefines | src/server.js:66-70 | Every (ns, id) connected to at least once is present after the run. |
| Server.ConnectAsWritten | src/server.js:66-76 | One connection as executed when the document id may name a property inherited from `Object.prototype`. The handler throws exactly when `docs[id]` finds an inherited value, either copied in earlier or read now. When it throws, no entry gains a peer, and namespaces other than `ns` are unchanged. |
| Server.AsWrittenAgrees | src/server.js:66-76 | On names that are not inherited, the code as written ends exactly in `Join`'s registry. |
| Server.RawThrowsOnlyOnInherited | src/server.js:66-76 | On a registry whose every own property is an entry, the code as written throws exactly when the id names an inherited property and the namespace holds no entry under it. |
| Server.ConstructorAddsNoPeer | src/server.js:67-76 | On `/crdt/a/constructor` with an empty registry, `Join` creates an entry with one peer, while the code throws and leaves a copied function under `constructor`. |
| Server.ProtoLeavesEmptyNamespace | src/server.js:66-76 | On `/crdt/a/__proto__` with an empty registry, the code throws and leaves namespace `a` empty, which `Join` never does. |
| Server.Hub.constructor | src/server.js:18 | `let crdt = {}`: the registry starts empty. |
| Server.Hub.Connect | src/server.js:65-76 | The new registry is `Join` of the old one, with a fresh replica. The canonical document is fresh when the entry is new. An existing entry's peer set grows by exactly one. The registry invariant is kept. |
| Server.BulkRequest | src/server.js:160-164 | A query with no keys is answered with a 500 after the error `missing query`, and the store is not called. Any other request calls the store method (`patch`, or `remove` for the `DELETE` route) with the arguments `null`, the request body and `{ query }`. The bulk `DELETE` guard and call at src/server.js:190-194 are the same. |

## Left out

- **Stream wiring and merging** (src/server.js:71, 78-82): `createStream`, `pipe`, `websocket-stream` and the `row_update` logging. They are calls into the `crdt` and `websocket-stream` libraries. A replica is modelled by its identity only.
- **Teardown on disconnect.** The code never removes a replica from `peerDocs` and never removes an entry. The model follows the code, so the registry only grows. Tearing down a per-connection replica when its connection closes would need code in src/server.js, and there is none.
- **Server.Hub.Connect and the namespaces.** The namespace maps and the `{ doc, peerDocs }` records are modelled as values inside the `crdt` field. In the source they are objects updated in place. Nothing outside the handler keeps a reference to them, so the end state is the same. Identity shows up only through contents: "the same namespace map is reused" is stated as "its entries are kept". The model also writes the entry in one step. The source first stores an empty namespace map and then writes `docs[id]`, and the end state is the same.
- Server.Join and Server.Hub.Connect: every namespace name and document id is treated as an own key of a dictionary. In the source, `crdt` and each namespace are plain `{}` objects, so names inherited from `Object.prototype` (`constructor`, `toString`, `hasOwnProperty`, `__proto__`, …) behave differently. An inherited document id makes src/server.js:76 throw without adding a peer; this is modelled as written by `ConnectAsWritten` (see "## Findings"). An inherited namespace name is not modelled even as written. For `__proto__`, src/server.js:66 yields `Object.prototype`, src/server.js:70 writes the entry onto it, and every namespace then shares that entry through inheritance. For the other names, src/server.js:66 yields a function, and entries are stored on those shared built-in functions.
- Server.ScrubRequest assumes `req.query` is one object that the logger at src/server.js:54 reads afterwards. Express 4 assigns it once per request. If `req.query` were a getter that parses the query string again on each read, the scrubbed copy would not be the one logged. The framework version is not part of this model.
- Server.BulkRequest records the arguments of the store call, not what the store does with them. Whether the store's `remove(id, params)` uses a third argument carrying the query, as the `DELETE` route at src/server.js:194 passes it, depends on feathersService.js and the Feathers library, which are not part of this model.
- **Rooms, the `/yjs` endpoints and read-only aliases.** No code in src/ implements them.
- **The rest of the middleware stack** (src/server.js:21-60): rate limiting, helmet, cors, `express.json`, `crypto.randomUUID` request ids, `reqPath` (URL decoding) and console logging. These are library plumbing, randomness and I/O.
- **The CRUD route handlers** other than the empty-query guard (src/server.js:85-200): asynchronous store calls inside try/catch. A failure to load the store, which the bulk routes await before the guard, also ends in a 500 and is not modelled.
- **src/feathersService.js and src/errorMiddleware.js** are not part of this model. They hold file loading, memoization and a logging error handler.
- **Scrubber.Scrub substitutes.** The substitute is a primitive. The reference definition `Scrubbed` allows any value, but an object substitute would be shared by every masked property, and the heap model does not represent that aliasing.
- **Scrubber.Scrub input shape.** The tree is finite, acyclic and unshared: child subtrees occupy disjoint heap footprints. A cyclic object makes the source recurse forever.
- **Scrubber.Scrub on primitives.** Applying `scrub` to `null` or `undefined` throws in `Object.entries`, and on a string it would enumerate the characters under index keys. The model takes only an object or array, which is all the middleware and the recursion pass to it.
- **Numbers** are integers, with no floating point, NaN or infinities. Strings are sequences of characters. Inherited properties and getters of request values are not represented.

## Findings

| source | as written | input that shows it | evidently intended | confidence | as-written member | corrected member |
|---|---|---|---|---|---|---|
| src/server.js:67-76 | `docs[id]` on a plain `{}` also finds properties inherited from `Object.prototype`. Such a value is truthy, so no entry is created and `doc.peerDocs.add` throws. | `/crdt/a/constructor` on an empty registry: it throws, adds no peer, and leaves the `Object` function copied into `crdt.a.constructor`. `/crdt/a/__proto__` leaves `crdt.a` empty. | Every document id is a key of its own: a first connection creates the entry with one peer replica. | not executed | Server.ConnectAsWritten, Server.RawThrowsOnlyOnInherited, Server.ConstructorAddsNoPeer, Server.ProtoLeavesEmptyNamespace | Server.Join (used by Server.Hub.Connect), Server.AsWrittenAgrees |
