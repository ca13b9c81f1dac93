/**
 An id-keyed table standing in for a Spring Data `JpaRepository`: `findById`
 is map lookup, `save` of a new entity takes the next value of the table's
 id sequence, `save` of a loaded entity overwrites its row, and `delete`
 removes the row.
 */
module Tables {
  import opened Common

  datatype Table<T> = Table(rows: map<Id, T>, nextId: Id)

  /** Every stored id was handed out by the sequence before `limite`. */
  predicate IdsAbaixo<T>(rows: map<Id, T>, limite: Id) {
    forall id :: id in rows ==> id < limite
  }

  /** A table whose id sequence is ahead of every stored id. */
  type Repository<T> = t: Table<T> | IdsAbaixo(t.rows, t.nextId) witness Table(map[], 1)

  /** `save` of a new entity: the row goes under a fresh id and no existing
      row is touched. */
  function Insert<T>(repo: Repository<T>, v: T): (res: (Repository<T>, Id))
    ensures res.1 !in repo.rows
    ensures res.0.rows == repo.rows[res.1 := v]
    ensures res.0.nextId > res.1
    ensures forall k :: k in repo.rows ==> k < res.1
  {
    (Table(repo.rows[repo.nextId := v], repo.nextId + 1), repo.nextId)
  }

  /** `save` of an entity loaded from the table: only its row changes. */
  function Put<T>(repo: Repository<T>, id: Id, v: T): (res: Repository<T>)
    requires id in repo.rows
    ensures res.rows.Keys == repo.rows.Keys
    ensures res.rows[id] == v
    ensures forall k :: k in repo.rows && k != id ==> res.rows[k] == repo.rows[k]
    ensures res.nextId == repo.nextId
  {
    Table(repo.rows[id := v], repo.nextId)
  }

  /** `delete`: exactly that row disappears. */
  function Delete<T>(repo: Repository<T>, id: Id): (res: Repository<T>)
    ensures res.rows.Keys == repo.rows.Keys - {id}
    ensures forall k :: k in res.rows ==> res.rows[k] == repo.rows[k]
  {
    Table(repo.rows - {id}, repo.nextId)
  }
}
