# Task manager routes, modelled in Dafny

This project models the request handling of a small REST service for tasks.
A task has a title, an optional description and a completion flag. The
service exposes five routes under `/api`: `POST /tasks`, `GET /tasks`,
`GET /tasks/:id`, `PUT /tasks/:id` and `DELETE /tasks/:id`. POST and PUT
validate the body first. Each route makes at most one call to the document
store and answers with a status code and a JSON body.

The document store is modelled as an in-memory table, a map from identifier
to task. The handlers are specified as operations on that table:

- `validation.dfy` (module `Validation`) holds the request body and the
  validator chains for create and update. Each chain returns its
  `{field, message}` errors in order.
- `task_store.dfy` (module `TaskStore`) holds the stored document, the table
  and the query filter. It gives map meanings to the store calls `find` and
  `findByIdAndUpdate`. The handlers in `TaskRoutes` write `findById` and
  `findByIdAndDelete` inline, as a map lookup and a key removal.
- `task_routes.dfy` (module `TaskRoutes`) holds the status codes and the
  response bodies. It defines the five handlers as functions from the table
  before a request to the response and the table after it. It also defines
  the router (`Handle`) and a run of requests (`Replay`).
- `task_handlers.dfy` (module `TaskHandlers`) holds the class
  `TaskCollection`. Its methods update the table in place, and each is
  proved to agree with its function in `TaskRoutes`.
- `task_properties.dfy` (module `TaskProperties`) holds lemmas that span
  several requests.

The status codes are those of RFC 9110: 200 (section 15.3.1), 201 (section
15.3.2), 400 (section 15.5.1), 404 (section 15.5.5) and 500 (section 15.6.1).

Two behaviours belong to the Mongoose model and driver, which are not part
of this model. They are parameters (`StoreConfig`), not claims:

- `completedDefault` is the value the schema gives `completed` on a new
  document. The model does not assume it is `false`.
- `merge` says what the update call does with the keys the handler forwards
  as `undefined`. `StripUndefined` drops them and keeps the stored values.
  `WriteNull` writes them as null. The handler always sends all three keys,
  and which policy applies depends on the Mongoose version.

A thrown store call is the boolean `storeFails`. It turns into the route's
500 answer and leaves the table unchanged.

Three points where a reading of the service's intent and its code part ways;
the model follows the code:

- One might expect a stored title never to be empty. The update route has
  no non-empty rule for `title`, so an update can store `""`, unless the
  schema's validators reject it. The lemma
  `TaskProperties.UpdateAcceptsEmptyTitle` shows this.
- One might expect a PUT with no fields to leave the record unchanged. This
  holds only under `StripUndefined` (`TaskProperties.EmptyUpdate`).
- The API documentation comment of `GET /tasks` names a `completed` query
  parameter. The code reads `status`, and the model reads `status`.

## Model

| member | source | states |
|---|---|---|
| `Validation.CreateErrors` | src/routes/task.routes.js:76-93 | The create chain reports no errors exactly when the title is present and 1 to 100 characters long and any description is at most 500 characters. "Title is required" appears exactly when the title is missing or empty. The title length message appears exactly when the title is over 100. The description message appears exactly when a description is over 500. No other message is ever sent. Title errors come before the description error, with at most one per field. |
| `Validation.UpdateErrors` | src/routes/task.routes.js:334-355 | The update chain reports no errors exactly when a present title is at most 100, a present description at most 500, and `completed` is absent or boolean. Each message appears exactly when its own field breaks its rule. Only these three messages are ever sent, in chain order (title, description, completed), at most one per field. "Title is required" is not among them. |
| `TaskStore.Find` | src/routes/task.routes.js:176 | `find(filter)` returns exactly the stored records that match the filter, unchanged. |
| `TaskRoutes.StatusFilter` | src/routes/task.routes.js:167-174 | `status=completed` selects `completed: true`, and `status=pending` selects `completed: false`. Each holds in both directions. Any other or missing value sets no key. |
| `TaskRoutes.Create` | src/routes/task.routes.js:86-107 | Create answers 400 with the chain's errors exactly when the body fails validation. It answers 500 exactly when a valid body meets a store failure. In both cases the table is unchanged. Otherwise it answers 201 with the stored record. That record is the only new key, is built from the body's title and description only, and leaves every other record alone. |
| `TaskRoutes.List` | src/routes/task.routes.js:165-181 | List never changes the table. Without a store failure it answers 200. For `completed`, a record is listed exactly when its flag is true. For `pending`, exactly when its flag is false. For any other value, the whole table is listed. Every listed record is the stored record, unchanged. |
| `TaskRoutes.Get` | src/routes/task.routes.js:247-262 | Get answers 200 with the record exactly when the id is stored, and 404 "Task not found" exactly when it is not. It never changes the table. |
| `TaskRoutes.Update` | src/routes/task.routes.js:347-375 | Update answers 400 exactly when validation fails, 404 exactly when the body is valid and the id is not stored, and 200 exactly when the body is valid and the id is stored. Only the 200 case changes the table: it replaces that one record, every supplied field takes the supplied value, and the answer is the post-update record. For an omitted field, the merge policy decides. Under `StripUndefined` it keeps its stored value. Under `WriteNull` it becomes null. |
| `TaskRoutes.Delete` | src/routes/task.routes.js:408-422 | Delete answers 200 "Task deleted successfully" exactly when the id is stored, and removes exactly that key. It answers 404 "Task not found" exactly when the id is absent, and leaves the table unchanged. |
| `TaskRoutes.Handle` | src/routes/task.routes.js:73-422 | Dispatching any request keeps identifiers below the allocator, and an issued identifier that is no longer stored stays absent. It also preserves the length limits on every stored title and description. |
| `TaskRoutes.Replay` | src/routes/task.routes.js:73-422 | Over any sequence of requests, every stored title stays within 100 characters and every description within 500. Identifiers stay below the allocator, and there is one response per request. |
| `TaskHandlers.TaskCollection.CreateTask` | src/routes/task.routes.js:86-107 | Validates first. It then draws a fresh identifier and inserts the record in place, ending in the state and response `TaskRoutes.Create` gives for that identifier. |
| `TaskHandlers.TaskCollection.ListTasks` | src/routes/task.routes.js:165-181 | Builds the filter key by key from `status` and answers what `TaskRoutes.List` answers. |
| `TaskHandlers.TaskCollection.GetTask` | src/routes/task.routes.js:247-262 | Answers what `TaskRoutes.Get` answers. |
| `TaskHandlers.TaskCollection.UpdateTask` | src/routes/task.routes.js:347-375 | Validates first. It then replaces the record in place, ending in the state and response `TaskRoutes.Update` gives. |
| `TaskHandlers.TaskCollection.DeleteTask` | src/routes/task.routes.js:408-422 | Removes the record in place, ending in the state and response `TaskRoutes.Delete` gives. |
| `TaskProperties.RejectedCreateNeverReachesStore` | src/routes/task.routes.js:87-94 | A body that fails the create validators gets the same 400 answer whatever the table, the id on offer and whether the store would fail, and the table is unchanged. |
| `TaskProperties.RejectedUpdateNeverReachesStore` | src/routes/task.routes.js:348-356 | A body that fails the update validators gets the same 400 answer whether or not the id is stored and whether the store would fail, and the table is unchanged. |
| `TaskProperties.CreateIgnoresOtherKeys` | src/routes/task.routes.js:96-98 | Two bodies with the same title and description create the same record with the same answer, whatever `completed` or `_id` they carry. |
| `TaskProperties.TitleLengthBoundary` | src/routes/task.routes.js:79-80 | A 100-character title passes create validation. A 101-character title gets exactly the title length error. |
| `TaskProperties.CreateThenGet` | src/routes/task.routes.js:96-101 | After a successful create, a get of the new id returns the record built from the body's title and description. |
| `TaskProperties.CreateThenDeleteRestores` | src/routes/task.routes.js:412-416 | Deleting the record just created answers 200 and gives back the original table. |
| `TaskProperties.DeleteTwice` | src/routes/task.routes.js:412-416 | A first delete of a stored id answers 200. A second delete, and a get, of that id answer 404 "Task not found". |
| `TaskProperties.UpdateThenGet` | src/routes/task.routes.js:361-369 | A get after a successful update returns the same answer the update gave, the post-update record. |
| `TaskProperties.UpdateIdempotent` | src/routes/task.routes.js:361-369 | Repeating an update gives the same table and the same answer as doing it once. |
| `TaskProperties.EmptyUpdate` | src/routes/task.routes.js:360-364 | A PUT without title, description or completed answers 200. Under `StripUndefined` it leaves the record unchanged and returns it. Under `WriteNull` it clears all three keys. |
| `TaskProperties.UpdateAcceptsEmptyTitle` | src/routes/task.routes.js:334-337 | An empty title passes the update validators and is written to the record. The same title fails create with "Title is required". |
| `TaskProperties.RetiredIdStaysAbsent` | src/routes/task.routes.js:408-416 | Across any sequence of requests, an identifier that was issued and is no longer stored never reappears. |
| `TaskProperties.DeletedTaskStaysNotFound` | src/routes/task.routes.js:250-253 | After a successful delete of an id, a get of that id answers 404, whatever requests come in between. |
| `TaskProperties.BuyGroceriesWalkThrough` | src/routes/task.routes.js:96-101 | On the example title "Buy groceries": creating answers 201. Marking it completed answers 200 with `completed: true`, and the title is kept under `StripUndefined`. Deleting it answers 200, and fetching it afterwards answers 404. |

## Left out

- Process bootstrap and wiring in src/server.js and src/app.js are left out: the database connection, environment variables, `listen`, JSON body parsing, the router mount, and the documentation UI. src/swagger.js and the API documentation comments are documentation only.
- The Mongoose model `../models/task.model` is not part of this model. The default of `completed` is a parameter. The model assumes the schema stores `title` and `description` as given, with no default for a missing description and no setter such as trimming. This is why `TaskRoutes.Create` states the stored title and description equal the body's. Other defaults are not claimed, and neither are `createdAt` or the schema validators that `runValidators: true` runs. A schema rejection can only show up as `storeFails`.
- Store failures are one boolean per request. The causes (malformed ObjectIds, connection loss) are not modelled, and a failing call is taken to leave the table unchanged.
- Identifiers are natural numbers handed out by a counter, one per `new Task(...)`. The model assumes an identifier is never issued twice, as ObjectIds are meant to be. `Create` itself only asks for a key not in the table. `TaskRoutes.Handle`'s retired-id clause, `RetiredIdStaysAbsent` and `DeletedTaskStaysNotFound` rest on the never-reissued assumption. The ObjectId format is not modelled.
- What an update does to omitted keys is the `MergePolicy` parameter. The model does not claim either policy is the one in force, `TaskRoutes.Update` states the result for omitted keys under each policy separately.
- Request bodies are typed values. The model leaves out the string coercion of non-string values, Unicode-aware length counting in `isLength` (strings are sequences of characters), and `isBoolean` accepting strings such as `"true"` or `"1"`. It also leaves out the null case of `optional()`, which skips only `undefined`, and Mongoose's casting of the values it receives.
- `check(...)` inspects every request location (body, cookies, headers, route parameters, query), but the handlers take `title`, `description` and `completed` from the body only. The model validates the body only. The chains also check a title, description or completed sent in the query string or a header. Such a request can pass or fail validation differently from the model. For example, `POST /api/tasks?title=x` with an empty body passes the source's chain, but the model answers 400.
- TaskRoutes.Update: an explicit JSON `null` for title or description is read as an omitted key (`None`). In the source, `optional()` does not skip `null`, `isLength` accepts it, and the handler forwards it, so the store writes null (or its schema validators reject the update). Under `StripUndefined` the model instead keeps the stored value.
- The error entries' `field` comes from `error.path`, which only express-validator 7 provides. In version 6 the field is named `param`, and `field` would be missing from every error entry. The model assumes version 7.
- The order of the list is left out. The store's natural order is not promised, so `GET /tasks` answers a table rather than a sequence. A `status` given more than once, which parses as an array, is not modelled.
- The JSON serialisation of documents (`_id`, `__v`, `createdAt` keys) and the `console.log` of validation errors in the update handler are left out.
- Concurrency between requests is left out. Requests are handled one at a time, in the order given.
