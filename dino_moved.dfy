/** The `service:dino_move` handler (services/dino-moved.js): set the dino's location,
    then record the visit on the destination cell. */
module DinoMoved {
  import opened Schema
  import opened Clock
  import opened RecordStore

  /** The dino is named by `dinosaur_id` here, unlike every other event. */
  datatype MoveEvent = MoveEvent(dinosaurId: DinoId, location: Location, time: Time)

  /** The two callbacks: the dino update failed (nothing more is done), the grid update
      failed, or both statements ran. */
  datatype MoveOutcome = MoveFailed | GridUpdateFailed | Moved

  /** The dino update: the row with the event's id gets the new location. */
  function Relocated(dinos: map<DinoId, Dino>, e: MoveEvent): map<DinoId, Dino>
  {
    if e.dinosaurId in dinos
    then dinos[e.dinosaurId := dinos[e.dinosaurId].(location := Some(e.location))]
    else dinos
  }

  /** The grid update: the cell at the new location records the visit time, and gets a
      maintenance date 30 days later only when it has none yet. */
  function Visited(grid: map<Location, GridCell>, e: MoveEvent): map<Location, GridCell>
  {
    if e.location in grid
    then
      var cell := grid[e.location];
      var due := if cell.maintenanceDue.None? then Some(Add30Days(e.time)) else cell.maintenanceDue;
      grid[e.location := cell.(lastVisited := Some(e.time), maintenanceDue := due)]
    else grid
  }

  /** The store after the handler, given whether each of its two statements fails.
      An `UPDATE` that matches no row is not an error, so an unknown dino id still
      leads to the grid update. */
  function Move(db: Db, e: MoveEvent, dinoWriteFails: bool, gridWriteFails: bool): (r: Db)
    // the dino row
    ensures dinoWriteFails ==> r == db
    ensures r.dinos.Keys == db.dinos.Keys
    ensures forall id :: id in db.dinos && id != e.dinosaurId ==> r.dinos[id] == db.dinos[id]
    ensures !dinoWriteFails && e.dinosaurId in db.dinos ==>
      && r.dinos[e.dinosaurId].location == Some(e.location)
      && r.dinos[e.dinosaurId].(location := db.dinos[e.dinosaurId].location) == db.dinos[e.dinosaurId]
    // the grid
    ensures gridWriteFails ==> r.grid == db.grid
    ensures r.grid.Keys == db.grid.Keys
    ensures forall loc :: loc in db.grid && loc != e.location ==> r.grid[loc] == db.grid[loc]
    ensures !dinoWriteFails && !gridWriteFails && e.location in db.grid ==>
      var old_, new_ := db.grid[e.location], r.grid[e.location];
      && new_.lastVisited == Some(e.time)
      && new_.maintenanceDue == (if old_.maintenanceDue.None? then Some(Add30Days(e.time)) else old_.maintenanceDue)
      && new_.repairRequired == old_.repairRequired
      && new_.lastMaintenance == old_.lastMaintenance
      && new_.status == old_.status
  {
    if dinoWriteFails then db
    else if gridWriteFails then db.(dinos := Relocated(db.dinos, e))
    else Db(Relocated(db.dinos, e), Visited(db.grid, e))
  }

  /** The first visit schedules maintenance; a later move to the same cell keeps that
      date, whatever its own time. */
  lemma SecondMoveKeepsDue(db: Db, e1: MoveEvent, e2: MoveEvent)
    requires e1.location == e2.location && e1.location in db.grid
    ensures var once := Move(db, e1, false, false);
      && once.grid[e1.location].maintenanceDue.Some?
      && Move(once, e2, false, false).grid[e1.location].maintenanceDue
         == once.grid[e1.location].maintenanceDue
  {
  }

  /** A move to a cell that is not in the grid changes only the dino row. */
  lemma MoveOffGrid(db: Db, e: MoveEvent, dinoWriteFails: bool, gridWriteFails: bool)
    requires e.location !in db.grid
    ensures Move(db, e, dinoWriteFails, gridWriteFails).grid == db.grid
  {
  }

  method OnDinoMove(store: Store, e: MoveEvent, dinoWriteFails: bool, gridWriteFails: bool)
    returns (outcome: MoveOutcome)
    modifies store
    ensures store.Contents() == Move(old(store.Contents()), e, dinoWriteFails, gridWriteFails)
    ensures outcome == (if dinoWriteFails then MoveFailed
                        else if gridWriteFails then GridUpdateFailed else Moved)
  {
    if dinoWriteFails {
      return MoveFailed;
    }
    if e.dinosaurId in store.dinos {
      var dino := store.dinos[e.dinosaurId];
      store.dinos := store.dinos[e.dinosaurId := dino.(location := Some(e.location))];
    }
    if gridWriteFails {
      return GridUpdateFailed;
    }
    var maintenanceDue := Add30Days(e.time);
    if e.location in store.grid {
      var cell := store.grid[e.location];
      var due := if cell.maintenanceDue.None? then Some(maintenanceDue) else cell.maintenanceDue;
      store.grid := store.grid[e.location := cell.(lastVisited := Some(e.time), maintenanceDue := due)];
    }
    return Moved;
  }
}
