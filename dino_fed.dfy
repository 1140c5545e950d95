/** The `service:dino_feed` handler (services/dino-fed.js): record a feeding. */
module DinoFed {
  import opened Schema
  import opened RecordStore

  datatype FeedEvent = FeedEvent(id: DinoId, time: Time)

  /** The store after the feed update: the row with the event's id gets the feeding time
      as `lastFed` and stops being hungry; no other row changes. */
  function Fed(db: Db, e: FeedEvent): (r: Db)
    ensures r.grid == db.grid
    ensures r.dinos.Keys == db.dinos.Keys
    ensures e.id !in db.dinos ==> r == db
    ensures e.id in db.dinos ==>
      && r.dinos[e.id].lastFed == Some(e.time)
      && !r.dinos[e.id].isHungry
      && r.dinos[e.id].(lastFed := db.dinos[e.id].lastFed, isHungry := db.dinos[e.id].isHungry)
         == db.dinos[e.id]
    ensures forall id :: id in db.dinos && id != e.id ==> r.dinos[id] == db.dinos[id]
  {
    if e.id in db.dinos
    then db.(dinos := db.dinos[e.id := db.dinos[e.id].(lastFed := Some(e.time), isHungry := false)])
    else db
  }

  /** Feeding is idempotent. */
  lemma FeedIdempotent(db: Db, e: FeedEvent)
    ensures Fed(Fed(db, e), e) == Fed(db, e)
  {
  }

  method OnDinoFeed(store: Store, e: FeedEvent)
    modifies store
    ensures store.Contents() == Fed(old(store.Contents()), e)
  {
    if e.id in store.dinos {
      var dino := store.dinos[e.id];
      store.dinos := store.dinos[e.id := dino.(lastFed := Some(e.time), isHungry := false)];
    }
  }
}
