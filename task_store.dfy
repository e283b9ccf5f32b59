/**
 * The persistent task collection as the route handlers use it. The real store
 * is a Mongoose model that is not part of this model; its calls `find` and
 * `findByIdAndUpdate` are given map semantics here (`findById` and
 * `findByIdAndDelete` are a map lookup and a key removal, written where the
 * handlers use them), and the two behaviours the handlers leave to it (the schema
 * default of `completed`, and what an update does with keys whose value is
 * `undefined`) are parameters, not claims.
 */
module TaskStore {
  import opened Wrappers
  import opened Validation

  /** Record identifiers: opaque keys, assigned by the store at creation. */
  type Id = nat

  /** A stored document. `None` is a key that is absent or null. */
  datatype Task = Task(title: Option<string>, description: Option<string>, completed: Option<bool>)

  /** The collection: one record per identifier. */
  type Table = map<Id, Task>

  /**
   * What the update call does with keys the body did not supply (the handler
   * always forwards all three): drop them, or write them as null.
   */
  datatype MergePolicy = StripUndefined | WriteNull

  /** Behaviour of the unseen schema and driver, fixed per deployment. */
  datatype StoreConfig = StoreConfig(completedDefault: Option<bool>, merge: MergePolicy)

  /** The query object of GET /tasks: `{}` or `{ completed: b }`. */
  datatype Filter = Filter(completed: Option<bool>)

  /** The second argument of `findByIdAndUpdate`: `{ title, description, completed }`. */
  datatype UpdateDoc = UpdateDoc(title: Option<string>, description: Option<string>, completed: Option<bool>)

  /** A document matches a query when it has every key the query names, with that value. */
  predicate Matches(f: Filter, t: Task)
  {
    f.completed.Some? ==> t.completed == f.completed
  }

  /** `Task.find(filter)`: every matching record (the store's order is not modelled). */
  function Find(tasks: Table, f: Filter): (found: Table)
    ensures found.Keys <= tasks.Keys
    ensures forall id :: id in found ==> found[id] == tasks[id] && Matches(f, tasks[id])
    ensures forall id :: id in tasks && Matches(f, tasks[id]) ==> id in found
  {
    map id | id in tasks && Matches(f, tasks[id]) :: tasks[id]
  }

  /** `new Task({ title, description })`: the handler supplies nothing else. */
  function NewTask(config: StoreConfig, title: Option<string>, description: Option<string>): Task
  {
    Task(title, description, config.completedDefault)
  }

  /** One key of an update: a supplied value wins; an omitted one is kept or nulled. */
  function MergeField<T>(policy: MergePolicy, current: Option<T>, supplied: Option<T>): Option<T>
  {
    match supplied
    case Some(_) => supplied
    case None => if policy == StripUndefined then current else None
  }

  /** The document `findByIdAndUpdate(id, update, { new: true })` leaves behind. */
  function Merge(policy: MergePolicy, t: Task, u: UpdateDoc): Task
  {
    Task(MergeField(policy, t.title, u.title),
         MergeField(policy, t.description, u.description),
         MergeField(policy, t.completed, u.completed))
  }

  /**
   * The update document the handler builds from a body that passed its
   * validators (so `completed` is absent or a boolean).
   */
  function UpdateDocOf(b: RequestBody): UpdateDoc
    requires !b.completed.NotBoolean?
  {
    UpdateDoc(b.title, b.description, if b.completed.Given? then Some(b.completed.value) else None)
  }

  /** The length limits the validators impose, stated of a stored record. */
  predicate WithinLimits(t: Task)
  {
    && (t.title.Some? ==> |t.title.value| <= MaxTitleLength)
    && (t.description.Some? ==> |t.description.value| <= MaxDescriptionLength)
  }

  predicate AllWithinLimits(tasks: Table)
  {
    forall id :: id in tasks ==> WithinLimits(tasks[id])
  }
}
