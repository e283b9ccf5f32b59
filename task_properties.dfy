/**
 * Properties that relate several requests, or one request under different
 * store conditions, stated over the handler functions of TaskRoutes.
 */
module TaskProperties {
  import opened Wrappers
  import opened Validation
  import opened TaskStore
  import opened TaskRoutes

  /**
   * A body the create validators reject is answered 400 without consulting
   * the store: the response is the same whatever the table, the identifier on
   * offer or whether the store would have failed, and nothing changes.
   */
  lemma RejectedCreateNeverReachesStore(
    config: StoreConfig, t1: Table, t2: Table, id1: Id, id2: Id, body: RequestBody, f1: bool, f2: bool)
    requires id1 !in t1 && id2 !in t2
    requires !CreateBodyAcceptable(body)
    ensures Create(config, t1, id1, body, f1).response == Create(config, t2, id2, body, f2).response
    ensures Create(config, t1, id1, body, f1).tasks == t1
  {
  }

  /**
   * Likewise for PUT: a rejected body gets the same 400 whether or not its
   * id is stored and whatever the store would have done.
   */
  lemma RejectedUpdateNeverReachesStore(
    config: StoreConfig, t1: Table, t2: Table, id1: Id, id2: Id, body: RequestBody, f1: bool, f2: bool)
    requires !UpdateBodyAcceptable(body)
    ensures Update(config, t1, id1, body, f1).response == Update(config, t2, id2, body, f2).response
    ensures Update(config, t1, id1, body, f1).tasks == t1
  {
  }

  /** Create reads `title` and `description` only: other body keys are not forwarded. */
  lemma CreateIgnoresOtherKeys(config: StoreConfig, tasks: Table, id: Id, b1: RequestBody, b2: RequestBody, storeFails: bool)
    requires id !in tasks
    requires b1.title == b2.title && b1.description == b2.description
    ensures Create(config, tasks, id, b1, storeFails) == Create(config, tasks, id, b2, storeFails)
  {
  }

  /** A title of exactly 100 characters passes; one of 101 is refused with the length message. */
  lemma TitleLengthBoundary(title: string)
    requires |title| == MaxTitleLength || |title| == MaxTitleLength + 1
    ensures var errors := CreateErrors(RequestBody(Some(title), None, Missing, None));
            if |title| == MaxTitleLength then errors == []
            else errors == [FieldError("title", TitleTooLong)]
  {
  }

  /** What a successful create stored is what a get of the new identifier returns. */
  lemma CreateThenGet(config: StoreConfig, tasks: Table, id: Id, body: RequestBody)
    requires id !in tasks && CreateBodyAcceptable(body)
    ensures var h := Create(config, tasks, id, body, false);
            && h.response.status == Created
            && Get(h.tasks, id, false).response
               == Response(Ok, Record(id, Task(body.title, body.description, config.completedDefault)))
  {
  }

  /** Deleting what was just created gives back the table as it was. */
  lemma CreateThenDeleteRestores(config: StoreConfig, tasks: Table, id: Id, body: RequestBody)
    requires id !in tasks && CreateBodyAcceptable(body)
    ensures var h := Delete(Create(config, tasks, id, body, false).tasks, id, false);
            h.response == Response(Ok, Confirmation(TaskDeleted)) && h.tasks == tasks
  {
  }

  /** The first delete of a stored id answers 200, the second 404, and a get after it 404. */
  lemma DeleteTwice(tasks: Table, id: Id)
    requires id in tasks
    ensures var first := Delete(tasks, id, false);
            && first.response == Response(Ok, Confirmation(TaskDeleted))
            && Delete(first.tasks, id, false) == Handled(Response(NotFound, ErrorMessage(TaskNotFound)), first.tasks)
            && Get(first.tasks, id, false).response == Response(NotFound, ErrorMessage(TaskNotFound))
  {
  }

  /** A get after a successful update returns the post-update record the update answered with. */
  lemma UpdateThenGet(config: StoreConfig, tasks: Table, id: Id, body: RequestBody)
    requires id in tasks && UpdateBodyAcceptable(body)
    ensures var h := Update(config, tasks, id, body, false);
            Get(h.tasks, id, false).response == h.response
  {
  }

  /** Sending the same update twice leaves the same table and the same answer as sending it once. */
  lemma UpdateIdempotent(config: StoreConfig, tasks: Table, id: Id, body: RequestBody)
    ensures var once := Update(config, tasks, id, body, false);
            Update(config, once.tasks, id, body, false) == once
  {
  }

  /**
   * A PUT whose body supplies none of the three keys: if the update call drops
   * undefined keys, the record is untouched and returned as it was; if it
   * writes them as null, all three keys are cleared.
   */
  lemma EmptyUpdate(config: StoreConfig, tasks: Table, id: Id)
    requires id in tasks
    ensures var h := Update(config, tasks, id, RequestBody(None, None, Missing, None), false);
            && h.response.status == Ok
            && (config.merge == StripUndefined ==> h.tasks == tasks && h.response.payload == Record(id, tasks[id]))
            && (config.merge == WriteNull ==> h.tasks[id] == Task(None, None, None))
  {
  }

  /**
   * Unlike create, update has no non-empty rule for the title: an empty title
   * passes its validators and is written to the record.
   */
  lemma UpdateAcceptsEmptyTitle(config: StoreConfig, tasks: Table, id: Id)
    requires id in tasks
    ensures UpdateErrors(RequestBody(Some(""), None, Missing, None)) == []
    ensures var h := Update(config, tasks, id, RequestBody(Some(""), None, Missing, None), false);
            h.response.status == Ok && h.tasks[id].title == Some("")
    ensures CreateErrors(RequestBody(Some(""), None, Missing, None)) == [FieldError("title", TitleRequired)]
  {
  }

  /**
   * Identifiers are never reused: once a stored id is gone, no sequence of
   * later requests makes it resolve again.
   */
  lemma {:induction false} RetiredIdStaysAbsent(config: StoreConfig, s: Store, calls: seq<Call>, id: Id)
    requires s.Valid() && id !in s.tasks && id < s.nextId
    ensures id !in Replay(config, s, calls).1.tasks
    decreases |calls|
  {
    if calls != [] {
      var s1 := Handle(config, s, calls[0]).1;
      RetiredIdStaysAbsent(config, s1, calls[1..], id);
      assert Replay(config, s, calls).1 == Replay(config, s1, calls[1..]).1;
    }
  }

  /**
   * DELETE of a stored id, then any requests at all, then GET of that id:
   * the get answers 404.
   */
  lemma DeletedTaskStaysNotFound(config: StoreConfig, s: Store, id: Id, later: seq<Call>)
    requires s.Valid() && id in s.tasks
    ensures var (deleted, s1) := Handle(config, s, Call(DeleteTask(id), false));
            && deleted == Response(Ok, Confirmation(TaskDeleted))
            && Get(Replay(config, s1, later).1.tasks, id, false).response
               == Response(NotFound, ErrorMessage(TaskNotFound))
  {
    var s1 := Handle(config, s, Call(DeleteTask(id), false)).1;
    RetiredIdStaysAbsent(config, s1, later, id);
  }

  /**
   * One task's life on the example title "Buy groceries": create it, mark
   * it completed, delete it, fetch it. When the update call drops
   * undefined keys the title survives the update.
   */
  lemma BuyGroceriesWalkThrough(config: StoreConfig, tasks: Table, id: Id)
    requires id !in tasks
    ensures var title := Some("Buy groceries");
            var created := Create(config, tasks, id, RequestBody(title, None, Missing, None), false);
            var updated := Update(config, created.tasks, id, RequestBody(None, None, Given(true), None), false);
            var deleted := Delete(updated.tasks, id, false);
            var fetched := Get(deleted.tasks, id, false);
            && created.response == Response(Created, Record(id, Task(title, None, config.completedDefault)))
            && updated.response.status == Ok
            && updated.response.payload.task.completed == Some(true)
            && (config.merge == StripUndefined ==> updated.response.payload.task.title == title)
            && deleted.response == Response(Ok, Confirmation(TaskDeleted))
            && fetched.response == Response(NotFound, ErrorMessage(TaskNotFound))
  {
  }
}
