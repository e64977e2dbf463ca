# In-memory item service, modelled in Dafny

`server.js` is a small Express application. It keeps a list of items
`{id, name, description}` and an id counter `currentId` in memory. It
serves five CRUD routes on `/items`, plus `/health`. An API-key
middleware runs in front of every route. A request whose body the JSON
parser accepted, and whose `x-api-key` header is not exactly `'123456'`,
gets 403 Forbidden, and no handler runs. The JSON parser runs before the
key check; see "Left out".

The model has three modules:

- `ItemModel` (`items.dfy`) holds the values: `Item`, `State`, `Request`
  and `Response`. It defines the gate `Authorized` and the search
  `IndexOf`, which has the same meaning as `findIndex` with
  `i.id === id`. It also defines one pure function, `Serve`, which says
  what the application does with one request: the gate first, then the
  route. Next to these are the invariant `WellFormed` and the lemmas
  for each handler. The invariant says the counter is at least 1, every
  id lies in `[1, currentId)`, and ids strictly increase along the list,
  so they are pairwise distinct.
- `ItemTrace` (`trace.dfy`) covers a run of requests served one after
  another. It proves three things across any such run: the invariant
  holds, an id is never handed out twice (not even after a delete), and
  requests rejected by the gate change nothing.
- `ItemServer` (`server.dfy`) is the store as the server runs it. The
  class `Store` has the fields `items: seq<Item>` and `currentId: int`,
  and one method per handler. The methods update those fields in place:
  `currentId++` and `push` for create, a field overwrite for update, and
  `splice(index, 1)` for delete. `find` and `findIndex` use the same
  predicate and scan in the same order. Both are modelled by one
  linear-search loop, `FindIndex`, and the item `find` returns is the one
  at that index. Each method is proved to leave the state and return
  the response that `Serve` gives. So every lemma about `Serve` holds
  of the class too.

Inputs that come from the HTTP layer are parameters:

- The `x-api-key` header is an `Option<string>`. `None` means the header
  is absent.
- The `:id` path parameter is an `Option<int>`, the result of `parseInt`.
  `None` stands for `NaN`, which equals no id.
- `name` and `description` from the body are strings.

Responses are variants: `Created` (201), `NotFound` (404), `Forbidden`
(403), and 200 for the others. The JSON body text is not modelled.

## Model

| member | source | states |
|---|---|---|
| `ItemModel.IndexOf` | server.js:58 | The result is -1 exactly when no item has the requested id. Otherwise it is the first position holding that id, and no earlier position matches. `NaN` matches nothing. |
| `ItemModel.InitialWellFormed` | server.js:19-20 | The starting state (no items, counter at 1) satisfies the invariant. |
| `ItemModel.UniqueMatch` | server.js:38 | In a strictly increasing list, an item holding the id is the only item with that id, and `find` returns it. |
| `ItemModel.ServeKeepsWellFormed` | server.js:19-63 | Every handler and the gate keep the invariant: ids are distinct, every id is below `currentId`, and the list is in increasing id order. |
| `ItemModel.ServeCounter` | server.js:25 | Only an admitted create moves `currentId`, and by exactly one. Delete, update and the reads leave it alone. |
| `ItemModel.RejectedRequest` | server.js:10-16 | For a request whose body parsed, without the exact key every route (`/health` included) answers Forbidden with status 403 and leaves items and counter unchanged. |
| `ItemModel.CreateAppendsFreshItem` | server.js:23-28 | Create answers 201 with an item whose id is the old counter. The counter goes up by one. The item is appended at the end, all earlier items are unchanged, and the new id is larger than every stored id. |
| `ItemModel.ReadAllReturnsList` | server.js:31-33 | Read-all answers with the current list exactly, in insertion order, and changes nothing. |
| `ItemModel.ReadOneFindsUniqueItem` | server.js:36-41 | Read-one changes nothing. It answers NotFound exactly when no item has the id, and `NaN` always gives NotFound. Otherwise it answers with the unique item holding that id. |
| `ItemModel.UpdateRewritesOneItem` | server.js:44-53 | On an existing id, update sets that item's name and description and keeps its id. Length, order, every other item and the counter are unchanged. On a missing id it answers NotFound and the state is untouched. |
| `ItemModel.DeleteRemovesOneItem` | server.js:56-63 | On an existing id, delete removes exactly that item. The length drops by one, the others keep their order, the counter stays, and no remaining item has the id. On a missing id it answers NotFound and the state is untouched. |
| `ItemModel.DeleteThenReadNotFound` | server.js:36-63 | After deleting an id, reading that id answers NotFound. |
| `ItemTrace.RunKeepsWellFormed` | server.js:19-63 | Every state reached by any sequence of requests from a well-formed state is well-formed. |
| `ItemTrace.CounterNeverDecreases` | server.js:25 | Over any run, `currentId` never goes back. |
| `ItemTrace.CreatedTakesCounter` | server.js:25 | A create in a run takes the counter value of the state it runs in, and leaves the counter one higher. |
| `ItemTrace.IdsNeverReused` | server.js:25-61 | An item created at step j has an id larger than any item stored at any earlier step, including items deleted since. |
| `ItemTrace.CreatedIdsIncrease` | server.js:25 | Two creates in one run get different ids, and the later one gets the larger id. |
| `ItemTrace.RejectedCallsChangeNothing` | server.js:10-16 | A run of requests whose bodies parsed and that all lack the right key is answered Forbidden at every step and never changes the state. |
| `ItemServer.Store.constructor` | server.js:19-20 | A new store is empty, has its counter at 1, and satisfies the invariant. |
| `ItemServer.Store.FindIndex` | server.js:58 | The linear-search loop returns the same index as `IndexOf`: the first item with the id, or -1. |
| `ItemServer.Store.Create` | server.js:23-28 | Increments the counter and appends in place. It keeps the invariant, and the new state and the response are the ones `Serve` gives for a create. |
| `ItemServer.Store.ReadAll` | server.js:31-33 | Returns what `Serve` gives for read-all, without changing the store. |
| `ItemServer.Store.ReadOne` | server.js:36-41 | Searches with the loop and returns what `Serve` gives for read-one, without changing the store. |
| `ItemServer.Store.Update` | server.js:44-53 | Overwrites the found item's fields in place. It keeps the invariant and reaches the state and response `Serve` gives for an update. |
| `ItemServer.Store.Delete` | server.js:56-63 | Splices out the found index. It keeps the invariant and reaches the state and response `Serve` gives for a delete. |
| `ItemServer.Store.Health` | server.js:71-73 | Returns what `Serve` gives for `/health` (OK, or Forbidden without the key), without changing the store. |

## Left out

- `sqlitedb.js` is not part of this model. It is a session store built
  from thin wrappers over SQLite statements, `uuid`, a fingerprinting
  client, SHA-256 and an HTTP geolocation call. None of those libraries
  is available to model.
- `routes.js` is not part of this model. It forwards SQL strings to a
  database module that is not shown, and `server.js` never mounts it.
- Express plumbing is not modelled: `app.listen`, console logging, JSON
  body parsing, the JSON response bodies, and Express's default 404 for
  unknown routes.
- `parseInt` is taken as already applied. Radix handling, leading
  whitespace and partial parses such as `"12abc"` are not modelled.
- The JSON body parser runs before the key check (server.js:7). A
  request with a JSON content type whose body fails to parse (400) or is
  too large (413) gets the parser's error, whatever key it sends, and
  never reaches the key check. The model starts after the parser has
  accepted the body. So `Serve`, `RejectedRequest` and
  `RejectedCallsChangeNothing` speak only of requests whose body parsed.
- `req.body` is taken to be an object. Express 4's parser sets it to
  `{}` when no JSON body is sent. Under Express 5 it stays `undefined`,
  so the destructuring on line 24 or 46 throws and the answer is 500.
  For PUT this happens even before the 404 check. The Express version is
  not given, and the model follows Express 4.
- Body fields are strings. A missing (`undefined`) or non-string `name`
  or `description` is not told apart.
- A repeated `x-api-key` header, which Node joins into one string, is
  not modelled.
- Ids are unbounded integers. JavaScript numbers stop counting up
  exactly at 2^53, and `currentId++` would then repeat ids. This needs
  about 9·10^15 creates, so the model leaves it out.
- Items are values. In the source, update assigns to the fields of the
  object that `find` returned, which is the object held in the list.
  The model replaces the list element with an updated value. Nothing
  else keeps a reference to an item beyond one request, because
  responses are serialised at once. So the stored state is the same,
  but object identity is not modelled.
- Concurrency is not modelled. Node runs the handlers one at a time, and
  each handler is synchronous, so a run is a sequence of requests.
