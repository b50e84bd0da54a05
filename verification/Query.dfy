/** A policy evaluator seen from its entity lookups: an adaptive tree that either has decided or
    asks for one entity and goes on with the answer.  Every deterministic, terminating evaluation
    of any policy set against Cedar's pull interface is such a tree. */
module Query {
  import opened Wrappers
  import opened Entities

  datatype Query<T> = Done(value: T) | Ask(uid: Uid, next: imap<Option<Entity>, Query<T>>)

  /** The evaluator reacts to every answer. */
  ghost predicate Total<T>(q: Query<T>) {
    q.Ask? ==> forall answer :: answer in q.next && Total(q.next[answer])
  }

  type Facts = Uid -> Option<Entity>

  /** The decision over a perfect fact store: no cache, no failures. */
  ghost function Decide<T>(q: Query<T>, facts: Facts): T
    requires Total(q)
  {
    match q
    case Done(v) => v
    case Ask(uid, next) => Decide(next[facts(uid)], facts)
  }
}
