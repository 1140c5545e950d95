/** The `service:dino_remove` handler (services/dino-removed.js): delete a dino row. */
module DinoRemoved {
  import opened Schema
  import opened RecordStore

  datatype RemoveEvent = RemoveEvent(id: DinoId)

  /** The store after the delete of the row with the event's id. */
  function Removed(db: Db, e: RemoveEvent): (r: Db)
    ensures e.id !in r.dinos
    ensures r.dinos.Keys == db.dinos.Keys - {e.id}
    ensures forall id :: id in r.dinos ==> r.dinos[id] == db.dinos[id]
    ensures r.grid == db.grid
    ensures e.id !in db.dinos ==> r == db
  {
    db.(dinos := db.dinos - {e.id})
  }

  /** Removal is idempotent. */
  lemma RemoveIdempotent(db: Db, e: RemoveEvent)
    ensures Removed(Removed(db, e), e) == Removed(db, e)
  {
  }

  method OnDinoRemove(store: Store, e: RemoveEvent)
    modifies store
    ensures store.Contents() == Removed(old(store.Contents()), e)
  {
    store.dinos := store.dinos - {e.id};
  }
}
