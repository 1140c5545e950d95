/** The `service:dino_add` handler (services/dino-added.js): insert a new dino row. */
module DinoAdded {
  import opened Schema
  import opened RecordStore

  /** A JSON value as it arrives in an event field; `Undefined` is a missing field. */
  datatype JsValue =
    | Undefined
    | Null
    | Bool(b: bool)
    | Number(n: real)
    | Str(s: string)
    | Composite   // any array or object

  /** JavaScript's truthiness, as `event.herbivore ? 1 : 0` tests it. */
  function Truthy(v: JsValue): (r: bool)
    ensures !r <==> v in {Undefined, Null, Bool(false), Number(0.0), Str("")}
  {
    match v
    case Undefined => false
    case Null => false
    case Bool(b) => b
    case Number(n) => n != 0.0
    case Str(s) => s != ""
    case Composite => true
  }

  /** The fields of a `dino_added` event that the handler reads. */
  datatype AddEvent = AddEvent(
    id: DinoId,
    name: string,
    species: string,
    gender: string,
    digestionPeriodInHours: int,
    herbivore: JsValue,
    time: Time,
    parkId: int)

  /** The callback's two branches: inserted, or the primary key was taken. */
  datatype AddOutcome = Inserted | DuplicateId

  /** The row the `INSERT` writes. */
  function NewDino(e: AddEvent): Dino
  {
    Dino(e.name, e.species, e.gender, e.digestionPeriodInHours, Truthy(e.herbivore),
         e.time, e.parkId, None, None, true)
  }

  /** The store after the `INSERT INTO dinos`. */
  function Added(db: Db, e: AddEvent): (r: Db)
    ensures r.grid == db.grid
    ensures e.id in db.dinos ==> r == db
    ensures e.id !in db.dinos ==>
      && r.dinos.Keys == db.dinos.Keys + {e.id}
      && (forall id :: id in db.dinos ==> r.dinos[id] == db.dinos[id])
      && r.dinos[e.id].location == None
      && r.dinos[e.id].lastFed == None
      && r.dinos[e.id].isHungry
      && r.dinos[e.id].herbivore == Truthy(e.herbivore)
      && r.dinos[e.id].name == e.name && r.dinos[e.id].species == e.species
      && r.dinos[e.id].gender == e.gender && r.dinos[e.id].time == e.time
      && r.dinos[e.id].digestionPeriodInHours == e.digestionPeriodInHours
      && r.dinos[e.id].parkId == e.parkId
  {
    if e.id in db.dinos then db else db.(dinos := db.dinos[e.id := NewDino(e)])
  }

  /** Delivering the same add event again changes nothing: the second insert hits the
      primary key. */
  lemma AddTwiceIsAddOnce(db: Db, e: AddEvent)
    ensures Added(Added(db, e), e) == Added(db, e)
  {
  }

  /** The handler. */
  method OnDinoAdd(store: Store, e: AddEvent) returns (outcome: AddOutcome)
    modifies store
    ensures store.Contents() == Added(old(store.Contents()), e)
    ensures outcome == (if e.id in old(store.dinos) then DuplicateId else Inserted)
  {
    if e.id in store.dinos {
      // SQLITE_CONSTRAINT on `id INTEGER PRIMARY KEY`: the statement writes nothing.
      return DuplicateId;
    }
    store.dinos := store.dinos[e.id := NewDino(e)];
    return Inserted;
  }
}
