/**
 * The route handlers in their imperative form: an object owning the task
 * collection, whose request methods read or replace it in place. Each method
 * is proved to behave as the matching function of TaskRoutes.
 */
module TaskHandlers {
  import opened Wrappers
  import opened Validation
  import opened TaskStore
  import opened TaskRoutes

  class TaskCollection {
    const config: StoreConfig
    var tasks: Table
    var nextId: Id

    /** Identifiers are handed out once: every stored one is below `nextId`. */
    ghost predicate Valid()
      reads this
    {
      Store(tasks, nextId).Valid()
    }

    constructor (config: StoreConfig)
      ensures Valid()
      ensures this.config == config && tasks == map[] && nextId == 0
    {
      this.config := config;
      tasks := map[];
      nextId := 0;
    }

    /** POST /tasks: validate, then save `new Task({ title, description })`. */
    method CreateTask(body: RequestBody, storeFails: bool) returns (response: Response)
      requires Valid()
      modifies this
      ensures Valid()
      ensures Handled(response, tasks) == Create(config, old(tasks), old(nextId), body, storeFails)
      ensures (response, Store(tasks, nextId))
              == Handle(config, old(Store(tasks, nextId)), Call(PostTask(body), storeFails))
    {
      var errors := CreateErrors(body);
      if errors != [] {
        return Response(BadRequest, FieldErrors(errors));
      }
      var id := nextId;
      nextId := nextId + 1;
      if storeFails {
        return Response(InternalServerError, ErrorMessage(CreateFailed));
      }
      var task := NewTask(config, body.title, body.description);
      tasks := tasks[id := task];
      response := Response(Created, Record(id, task));
    }

    /** GET /tasks: build the filter key by key, then `find` with it. */
    method ListTasks(status: Option<string>, storeFails: bool) returns (response: Response)
      ensures Handled(response, tasks) == List(tasks, status, storeFails)
    {
      if storeFails {
        return Response(InternalServerError, ErrorMessage(ListFailed));
      }
      var filter := Filter(None);
      if status == Some("completed") {
        filter := filter.(completed := Some(true));
      } else if status == Some("pending") {
        filter := filter.(completed := Some(false));
      }
      response := Response(Ok, Records(Find(tasks, filter)));
    }

    /** GET /tasks/:id */
    method GetTask(id: Id, storeFails: bool) returns (response: Response)
      ensures Handled(response, tasks) == Get(tasks, id, storeFails)
    {
      if storeFails {
        return Response(InternalServerError, ErrorMessage(GetFailed));
      }
      if id !in tasks {
        return Response(NotFound, ErrorMessage(TaskNotFound));
      }
      response := Response(Ok, Record(id, tasks[id]));
    }

    /** PUT /tasks/:id: validate, then `findByIdAndUpdate` with all three keys. */
    method UpdateTask(id: Id, body: RequestBody, storeFails: bool) returns (response: Response)
      requires Valid()
      modifies this
      ensures Valid() && nextId == old(nextId)
      ensures Handled(response, tasks) == Update(config, old(tasks), id, body, storeFails)
    {
      var errors := UpdateErrors(body);
      if errors != [] {
        return Response(BadRequest, FieldErrors(errors));
      }
      if storeFails {
        return Response(InternalServerError, ErrorMessage(UpdateFailed));
      }
      if id !in tasks {
        return Response(NotFound, ErrorMessage(TaskNotFound));
      }
      var updated := Merge(config.merge, tasks[id], UpdateDocOf(body));
      tasks := tasks[id := updated];
      response := Response(Ok, Record(id, updated));
    }

    /** DELETE /tasks/:id */
    method DeleteTask(id: Id, storeFails: bool) returns (response: Response)
      requires Valid()
      modifies this
      ensures Valid() && nextId == old(nextId)
      ensures Handled(response, tasks) == Delete(old(tasks), id, storeFails)
    {
      if storeFails {
        return Response(InternalServerError, ErrorMessage(DeleteFailed));
      }
      if id !in tasks {
        return Response(NotFound, ErrorMessage(TaskNotFound));
      }
      tasks := tasks - {id};
      response := Response(Ok, Confirmation(TaskDeleted));
    }
  }
}
