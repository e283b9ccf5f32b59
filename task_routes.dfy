/**
 * The five handlers of src/routes/task.routes.js as functions of the task
 * table: each takes the table before the request and gives the response and
 * the table after it. `storeFails` says whether the one store call the
 * handler makes throws (a malformed id, a lost connection, a schema
 * rejection); such a failure leaves the table as it was.
 */
module TaskRoutes {
  import opened Wrappers
  import opened Validation
  import opened TaskStore

  /** Status codes (RFC 9110, sections 15.3.1, 15.3.2, 15.5.1, 15.5.5 and 15.6.1). */
  const Ok: nat := 200
  const Created: nat := 201
  const BadRequest: nat := 400
  const NotFound: nat := 404
  const InternalServerError: nat := 500

  const TaskNotFound := "Task not found"
  const TaskDeleted := "Task deleted successfully"
  const CreateFailed := "An error occurred while creating the task"
  const ListFailed := "An error occurred while fetching tasks"
  const GetFailed := "An error occurred while fetching the task"
  const UpdateFailed := "An error occurred while updating the task"
  const DeleteFailed := "An error occurred while deleting the task"

  /** The JSON body of a response. */
  datatype Payload =
    | Record(id: Id, task: Task)              // one task document
    | Records(tasks: Table)                   // an array of task documents
    | FieldErrors(errors: seq<FieldError>)    // { errors: [{ field, message }] }
    | ErrorMessage(error: string)             // { error }
    | Confirmation(message: string)           // { message }

  datatype Response = Response(status: nat, payload: Payload)

  /** A handler's effect: what it answers and the table it leaves. */
  datatype Handled = Handled(response: Response, tasks: Table)

  /** The `status` query value chooses the filter passed to `find`. */
  function StatusFilter(status: Option<string>): (f: Filter)
    ensures f.completed == Some(true) <==> status == Some("completed")
    ensures f.completed == Some(false) <==> status == Some("pending")
    ensures f.completed == None <==> status != Some("completed") && status != Some("pending")
  {
    if status == Some("completed") then Filter(Some(true))
    else if status == Some("pending") then Filter(Some(false))
    else Filter(None)
  }

  /**
   * POST /tasks. `id` is the key the store assigns to the new document; any
   * key not yet in the table will do.
   */
  function Create(config: StoreConfig, tasks: Table, id: Id, body: RequestBody, storeFails: bool): (h: Handled)
    requires id !in tasks
    ensures h.response.status in {Created, BadRequest, InternalServerError}
    ensures h.response.status == BadRequest <==> !CreateBodyAcceptable(body)
    ensures h.response.status == BadRequest ==> h.response.payload == FieldErrors(CreateErrors(body))
    ensures h.response.status == InternalServerError <==> CreateBodyAcceptable(body) && storeFails
    ensures h.response.status == InternalServerError ==> h.response.payload == ErrorMessage(CreateFailed)
    ensures h.response.status != Created ==> h.tasks == tasks
    ensures h.response.status == Created ==>
              && h.tasks.Keys == tasks.Keys + {id}
              && |h.tasks| == |tasks| + 1
              && (forall other :: other in tasks ==> h.tasks[other] == tasks[other])
              && h.tasks[id].title == body.title
              && h.tasks[id].description == body.description
              && h.tasks[id].completed == config.completedDefault
              && h.response.payload == Record(id, h.tasks[id])
  {
    var errors := CreateErrors(body);
    if errors != [] then
      Handled(Response(BadRequest, FieldErrors(errors)), tasks)
    else if storeFails then
      Handled(Response(InternalServerError, ErrorMessage(CreateFailed)), tasks)
    else
      var task := NewTask(config, body.title, body.description);
      Handled(Response(Created, Record(id, task)), tasks[id := task])
  }

  /** GET /tasks?status=... */
  function List(tasks: Table, status: Option<string>, storeFails: bool): (h: Handled)
    ensures h.tasks == tasks
    ensures h.response.status == Ok <==> !storeFails
    ensures storeFails ==> h.response.status == InternalServerError
    ensures storeFails ==> h.response.payload == ErrorMessage(ListFailed)
    ensures !storeFails ==> h.response.payload.Records? && h.response.payload.tasks.Keys <= tasks.Keys
    ensures !storeFails ==>
              forall id :: id in h.response.payload.tasks ==> h.response.payload.tasks[id] == tasks[id]
    ensures !storeFails && status == Some("completed") ==>
              forall id :: id in tasks ==>
                (id in h.response.payload.tasks <==> tasks[id].completed == Some(true))
    ensures !storeFails && status == Some("pending") ==>
              forall id :: id in tasks ==>
                (id in h.response.payload.tasks <==> tasks[id].completed == Some(false))
    ensures !storeFails && status != Some("completed") && status != Some("pending") ==>
              h.response.payload.tasks == tasks
  {
    if storeFails then
      Handled(Response(InternalServerError, ErrorMessage(ListFailed)), tasks)
    else
      Handled(Response(Ok, Records(Find(tasks, StatusFilter(status)))), tasks)
  }

  /** GET /tasks/:id */
  function Get(tasks: Table, id: Id, storeFails: bool): (h: Handled)
    ensures h.tasks == tasks
    ensures h.response.status in {Ok, NotFound, InternalServerError}
    ensures h.response.status == Ok <==> !storeFails && id in tasks
    ensures h.response.status == Ok ==> h.response.payload == Record(id, tasks[id])
    ensures h.response.status == NotFound <==> !storeFails && id !in tasks
    ensures h.response.status == NotFound ==> h.response.payload == ErrorMessage(TaskNotFound)
    ensures h.response.status == InternalServerError ==> h.response.payload == ErrorMessage(GetFailed)
  {
    if storeFails then
      Handled(Response(InternalServerError, ErrorMessage(GetFailed)), tasks)
    else if id !in tasks then
      Handled(Response(NotFound, ErrorMessage(TaskNotFound)), tasks)
    else
      Handled(Response(Ok, Record(id, tasks[id])), tasks)
  }

  /** PUT /tasks/:id */
  function Update(config: StoreConfig, tasks: Table, id: Id, body: RequestBody, storeFails: bool): (h: Handled)
    ensures h.response.status in {Ok, BadRequest, NotFound, InternalServerError}
    ensures h.response.status == BadRequest <==> !UpdateBodyAcceptable(body)
    ensures h.response.status == BadRequest ==> h.response.payload == FieldErrors(UpdateErrors(body))
    ensures h.response.status == NotFound <==> UpdateBodyAcceptable(body) && !storeFails && id !in tasks
    ensures h.response.status == NotFound ==> h.response.payload == ErrorMessage(TaskNotFound)
    ensures h.response.status == Ok <==> UpdateBodyAcceptable(body) && !storeFails && id in tasks
    ensures h.response.status == InternalServerError ==> h.response.payload == ErrorMessage(UpdateFailed)
    ensures h.response.status != Ok ==> h.tasks == tasks
    ensures h.response.status == Ok ==>
              && h.tasks.Keys == tasks.Keys
              && (forall other :: other in tasks && other != id ==> h.tasks[other] == tasks[other])
              && (body.title.Some? ==> h.tasks[id].title == body.title)
              && (body.description.Some? ==> h.tasks[id].description == body.description)
              && (body.completed.Given? ==> h.tasks[id].completed == Some(body.completed.value))
              && (config.merge == StripUndefined ==>
                    && (body.title.None? ==> h.tasks[id].title == tasks[id].title)
                    && (body.description.None? ==> h.tasks[id].description == tasks[id].description)
                    && (body.completed.Missing? ==> h.tasks[id].completed == tasks[id].completed))
              && (config.merge == WriteNull ==>
                    && (body.title.None? ==> h.tasks[id].title == None)
                    && (body.description.None? ==> h.tasks[id].description == None)
                    && (body.completed.Missing? ==> h.tasks[id].completed == None))
              && h.response.payload == Record(id, h.tasks[id])
  {
    var errors := UpdateErrors(body);
    if errors != [] then
      Handled(Response(BadRequest, FieldErrors(errors)), tasks)
    else if storeFails then
      Handled(Response(InternalServerError, ErrorMessage(UpdateFailed)), tasks)
    else if id !in tasks then
      Handled(Response(NotFound, ErrorMessage(TaskNotFound)), tasks)
    else
      var updated := Merge(config.merge, tasks[id], UpdateDocOf(body));
      Handled(Response(Ok, Record(id, updated)), tasks[id := updated])
  }

  /** DELETE /tasks/:id */
  function Delete(tasks: Table, id: Id, storeFails: bool): (h: Handled)
    ensures h.response.status in {Ok, NotFound, InternalServerError}
    ensures h.response.status == Ok <==> !storeFails && id in tasks
    ensures h.response.status == Ok ==>
              h.tasks.Keys == tasks.Keys - {id} && |h.tasks| == |tasks| - 1
              && (forall other :: other in h.tasks ==> h.tasks[other] == tasks[other])
              && h.response.payload == Confirmation(TaskDeleted)
    ensures h.response.status == NotFound <==> !storeFails && id !in tasks
    ensures h.response.status == NotFound ==> h.response.payload == ErrorMessage(TaskNotFound)
    ensures h.response.status != Ok ==> h.tasks == tasks
    ensures h.response.status == InternalServerError ==> h.response.payload == ErrorMessage(DeleteFailed)
  {
    if storeFails then
      Handled(Response(InternalServerError, ErrorMessage(DeleteFailed)), tasks)
    else if id !in tasks then
      Handled(Response(NotFound, ErrorMessage(TaskNotFound)), tasks)
    else
      Handled(Response(Ok, Confirmation(TaskDeleted)), tasks - {id})
  }

  /** A request as the router receives it (the `/api` prefix is left implicit). */
  datatype Request =
    | PostTask(body: RequestBody)                    // POST /tasks
    | GetTasks(status: Option<string>)               // GET /tasks
    | GetTask(id: Id)                                // GET /tasks/:id
    | PutTask(id: Id, body: RequestBody)             // PUT /tasks/:id
    | DeleteTask(id: Id)                             // DELETE /tasks/:id

  /** A request together with whether its store call throws. */
  datatype Call = Call(request: Request, storeFails: bool)

  /**
   * The table plus the store's identifier allocator: identifiers are handed
   * out once and never reused, so every stored one is below `nextId`.
   */
  datatype Store = Store(tasks: Table, nextId: Id) {
    predicate Valid()
    {
      forall id :: id in tasks ==> id < nextId
    }
  }

  /**
   * The router: one request against the store. A body that passes the create
   * validators reaches `new Task(...)`, which draws an identifier whether or
   * not the save then succeeds.
   */
  function Handle(config: StoreConfig, s: Store, call: Call): (r: (Response, Store))
    requires s.Valid()
    ensures r.1.Valid()
    ensures AllWithinLimits(s.tasks) ==> AllWithinLimits(r.1.tasks)
    ensures r.1.nextId >= s.nextId
    ensures forall i :: i < s.nextId && i !in s.tasks ==> i !in r.1.tasks
  {
    match call.request
    case PostTask(body) =>
      var h := Create(config, s.tasks, s.nextId, body, call.storeFails);
      var next := if CreateBodyAcceptable(body) then s.nextId + 1 else s.nextId;
      (h.response, Store(h.tasks, next))
    case GetTasks(status) =>
      (List(s.tasks, status, call.storeFails).response, s)
    case GetTask(id) =>
      (Get(s.tasks, id, call.storeFails).response, s)
    case PutTask(id, body) =>
      var h := Update(config, s.tasks, id, body, call.storeFails);
      (h.response, Store(h.tasks, s.nextId))
    case DeleteTask(id) =>
      var h := Delete(s.tasks, id, call.storeFails);
      (h.response, Store(h.tasks, s.nextId))
  }

  /**
   * A sequence of requests handled one after the other. Every store state it
   * passes through keeps the length limits the validators impose.
   */
  function Replay(config: StoreConfig, s: Store, calls: seq<Call>): (r: (seq<Response>, Store))
    requires s.Valid()
    ensures |r.0| == |calls|
    ensures r.1.Valid()
    ensures AllWithinLimits(s.tasks) ==> AllWithinLimits(r.1.tasks)
    ensures r.1.nextId >= s.nextId
    decreases |calls|
  {
    if calls == [] then
      ([], s)
    else
      var (first, s1) := Handle(config, s, calls[0]);
      var (rest, s2) := Replay(config, s1, calls[1..]);
      ([first] + rest, s2)
  }
}
