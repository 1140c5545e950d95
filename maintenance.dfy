/** The `service:maintenance` handler (services/maintenance.js): service a cell and
    schedule its next maintenance when a dino is still there. */
module Maintenance {
  import opened Schema
  import opened Clock
  import opened RecordStore
  import DinoMoved

  datatype MaintenanceEvent = MaintenanceEvent(location: Location, time: Time)

  /** The callbacks: the dino lookup failed (nothing is written), the grid update
      failed, or the cell was serviced. */
  datatype MaintenanceOutcome = LookupFailed | UpdateFailed | Serviced

  /** The store after the handler, given whether the lookup of the dinos in the cell and
      the grid update fail. */
  function Maintain(db: Db, e: MaintenanceEvent, lookupFails: bool, gridWriteFails: bool): (r: Db)
    ensures r.dinos == db.dinos
    ensures lookupFails || gridWriteFails || e.location !in db.grid ==> r == db
    ensures r.grid.Keys == db.grid.Keys
    ensures forall loc :: loc in db.grid && loc != e.location ==> r.grid[loc] == db.grid[loc]
    ensures !lookupFails && !gridWriteFails && e.location in db.grid ==>
      var old_, new_ := db.grid[e.location], r.grid[e.location];
      && new_.repairRequired == Some(false)
      && new_.lastMaintenance == Some(e.time)
      && (Occupied(db.dinos, e.location) ==> new_.maintenanceDue == Some(Add30Days(e.time)))
      && (!Occupied(db.dinos, e.location) ==> new_.maintenanceDue == None)
      && new_.lastVisited == old_.lastVisited
      && new_.status == old_.status
  {
    if lookupFails || gridWriteFails || e.location !in db.grid then db
    else
      var due := if Occupied(db.dinos, e.location) then Some(Add30Days(e.time)) else None;
      var cell := db.grid[e.location];
      db.(grid := db.grid[e.location := cell.(repairRequired := Some(false), lastMaintenance := Some(e.time), maintenanceDue := due)])
  }

  /** A move of a known dino followed by maintenance of the same cell schedules the next
      maintenance 30 days after the maintenance; when the moved dino does not exist and
      nobody else is there, no maintenance is scheduled. */
  lemma MoveThenMaintain(db: Db, m: DinoMoved.MoveEvent, e: MaintenanceEvent)
    requires m.location == e.location && e.location in db.grid
    ensures var after := Maintain(DinoMoved.Move(db, m, false, false), e, false, false);
      && (m.dinosaurId in db.dinos ==> after.grid[e.location].maintenanceDue == Some(Add30Days(e.time)))
      && (!Occupied(db.dinos, e.location) && m.dinosaurId !in db.dinos ==>
            after.grid[e.location].maintenanceDue == None)
  {
  }

  method OnMaintenance(store: Store, e: MaintenanceEvent, lookupFails: bool, gridWriteFails: bool)
    returns (outcome: MaintenanceOutcome)
    modifies store
    ensures store.Contents() == Maintain(old(store.Contents()), e, lookupFails, gridWriteFails)
    ensures outcome == (if lookupFails then LookupFailed
                        else if gridWriteFails then UpdateFailed else Serviced)
  {
    if lookupFails {
      return LookupFailed;
    }
    var dinoThere := Occupied(store.dinos, e.location);
    var maintenanceDue := if dinoThere then Some(Add30Days(e.time)) else None;
    if gridWriteFails {
      return UpdateFailed;
    }
    if e.location in store.grid {
      var cell := store.grid[e.location];
      store.grid := store.grid[e.location := cell.(repairRequired := Some(false),
                                                  lastMaintenance := Some(e.time),
                                                  maintenanceDue := maintenanceDue)];
    }
    return Serviced;
  }
}
