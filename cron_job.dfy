/** The reconciliation tick `updateStatus` (cron-job.js:11-80): hunger, overdue
    maintenance and the safety classification of every grid cell. */
module CronJob {
  import opened Schema
  import opened Clock
  import opened RecordStore

  // ---------------------------------------------------------------------------
  // Hunger (cron-job.js:16-31)

  /** The condition under which the tick writes `is_hungry = 1` for a dino. */
  predicate HungerDue(d: Dino, now: Time)
  {
    d.lastFed.Some? && AddHours(d.lastFed.value, d.digestionPeriodInHours) < now && !d.isHungry
  }

  /** A dino row after the hunger rule. */
  function HungerStep(d: Dino, now: Time): (r: Dino)
    ensures d.lastFed.None? ==> r == d
    ensures r.(isHungry := d.isHungry) == d
    ensures r.isHungry <==> d.isHungry || HungerDue(d, now)
  {
    if HungerDue(d, now) then d.(isHungry := true) else d
  }

  /** The dinos table after the hunger pass: only `is_hungry` is ever written, and only
      from false to true. */
  function HungerPass(dinos: map<DinoId, Dino>, now: Time): (r: map<DinoId, Dino>)
    ensures r.Keys == dinos.Keys
    ensures forall id :: id in dinos ==> r[id].(isHungry := dinos[id].isHungry) == dinos[id]
    ensures forall id :: id in dinos ==> (r[id].isHungry <==> dinos[id].isHungry || HungerDue(dinos[id], now))
  {
    map id | id in dinos :: HungerStep(dinos[id], now)
  }

  // ---------------------------------------------------------------------------
  // Maintenance overdue (cron-job.js:38-44)

  /** The condition under which the tick writes `repair_required = 1` for a cell; a NULL
      `repair_required` reads as false. */
  predicate RepairDue(c: GridCell, now: Time)
  {
    c.maintenanceDue.Some? && c.maintenanceDue.value < now && c.repairRequired != Some(true)
  }

  // ---------------------------------------------------------------------------
  // Safety classification (cron-job.js:46-77)

  /** A hungry carnivore. */
  predicate Dangerous(d: Dino)
  {
    !d.herbivore && d.isHungry
  }

  /** The status a set of occupants gives their cell: `NA` when empty, `Unsafe` when a
      hungry carnivore is among them, `Safe` otherwise. */
  function Classify(occupants: set<Dino>): (g: GridStatus)
    ensures g == NA <==> occupants == {}
    ensures g == Unsafe <==> exists d :: d in occupants && Dangerous(d)
    ensures g == Safe <==> occupants != {} && forall d :: d in occupants ==> !Dangerous(d)
  {
    if occupants == {} then NA
    else if exists d :: d in occupants && Dangerous(d) then Unsafe
    else Safe
  }

  /** The status the tick computes for the cell at `loc` from the dinos table. */
  function CellStatus(dinos: map<DinoId, Dino>, loc: Location): GridStatus
  {
    Classify(OccupantSet(dinos, loc))
  }

  /** `NA` exactly when nobody is in the cell; `Unsafe` exactly when some hungry
      carnivore is; `Safe` otherwise. */
  lemma CellStatusCases(dinos: map<DinoId, Dino>, loc: Location)
    ensures CellStatus(dinos, loc) == NA <==> !Occupied(dinos, loc)
    ensures CellStatus(dinos, loc) == Unsafe <==>
      exists id :: id in dinos && dinos[id].location == Some(loc) && Dangerous(dinos[id])
    ensures CellStatus(dinos, loc) == Safe <==>
      && Occupied(dinos, loc)
      && forall id :: id in dinos && dinos[id].location == Some(loc) ==> !Dangerous(dinos[id])
  {
  }

  /** The lookup of the dinos whose location is `loc`: those rows, in an order the store
      chooses. */
  method DinosAt(dinos: map<DinoId, Dino>, loc: Location) returns (here: seq<Dino>)
    ensures (set d | d in here) == OccupantSet(dinos, loc)
  {
    here := [];
    var pending := dinos.Keys;
    while pending != {}
      invariant pending <= dinos.Keys
      invariant forall d :: d in here <==>
        exists id :: id in dinos && id !in pending && dinos[id].location == Some(loc) && dinos[id] == d
      decreases pending
    {
      var id := RecordStore.Pick(pending);
      if dinos[id].location == Some(loc) {
        here := here + [dinos[id]];
      }
      pending := pending - {id};
    }
    assert forall d :: d in here <==> d in OccupantSet(dinos, loc);
  }

  /** The scan over the cell's dinos: `NA` for none, otherwise `Safe` until a hungry
      carnivore forces `Unsafe` and ends the scan.  The result depends only on which
      dinos are there, not on their order or repetition. */
  method ScanCell(here: seq<Dino>) returns (status: GridStatus)
    ensures status == Classify(set d | d in here)
  {
    status := NA;
    ghost var culprit := 0;
    if |here| > 0 {
      status := Safe;
      for i := 0 to |here|
        invariant status == Safe
        invariant forall j :: 0 <= j < i ==> !Dangerous(here[j])
      {
        var dino := here[i];
        if !dino.herbivore && dino.isHungry {
          status := Unsafe;
          culprit := i;
          break;
        } else if !dino.herbivore && !dino.isHungry {
          status := Safe;
        } else if dino.herbivore {
          status := Safe;
        }
      }
    }
    ghost var occupants := set d | d in here;
    if status == NA {
      assert occupants == {};
    } else if status == Unsafe {
      assert 0 <= culprit < |here| && Dangerous(here[culprit]);
      assert here[culprit] in occupants;
    } else {
      assert here[0] in occupants;
      assert forall d :: d in occupants ==> !Dangerous(d);
    }
  }

  // ---------------------------------------------------------------------------
  // The whole tick

  /** The query errors one tick meets: the dinos query (cron-job.js:17), the grid query
      (cron-job.js:35) and the dino query of each cell in `cellQueryFails`
      (cron-job.js:48).  Each error ends only its own callback. */
  datatype TickFaults = TickFaults(dinosQueryFails: bool, gridQueryFails: bool, cellQueryFails: set<Location>)

  const NoFaults: TickFaults := TickFaults(false, false, {})

  /** A grid row after the tick, given the status the safety step leaves it with. */
  function CellStep(c: GridCell, status: GridStatus, now: Time): (r: GridCell)
    ensures r.status == status
    ensures r.repairRequired == (if RepairDue(c, now) then Some(true) else c.repairRequired)
    ensures r.(repairRequired := c.repairRequired, status := c.status) == c
  {
    var repaired := if RepairDue(c, now) then c.(repairRequired := Some(true)) else c;
    if status != c.status then repaired.(status := status) else repaired
  }

  /** The status the safety step leaves at `loc`: the one computed from `dinos`, or the
      stored one when the cell's dino query fails. */
  function SafetyStatus(c: GridCell, dinos: map<DinoId, Dino>, loc: Location, failed: set<Location>): GridStatus
  {
    if loc in failed then c.status else CellStatus(dinos, loc)
  }

  /** The grid table after the tick's grid callback.  The statuses are computed from
      `dinos`, the dinos table as it was when the tick began; a cell in `failed` keeps its
      status, though its repair write stands. */
  function GridPass(grid: map<Location, GridCell>, dinos: map<DinoId, Dino>, now: Time, failed: set<Location>)
    : (r: map<Location, GridCell>)
    ensures r.Keys == grid.Keys
    ensures forall loc :: loc in grid ==>
      && (loc !in failed ==> r[loc].status == CellStatus(dinos, loc))
      && (loc in failed ==> r[loc].status == grid[loc].status)
      && r[loc].repairRequired == (if RepairDue(grid[loc], now) then Some(true) else grid[loc].repairRequired)
      && r[loc].(repairRequired := grid[loc].repairRequired, status := grid[loc].status) == grid[loc]
  {
    map loc | loc in grid :: CellStep(grid[loc], SafetyStatus(grid[loc], dinos, loc, failed), now)
  }

  /** The writes one tick issues: the dinos made hungry, the cells marked for repair and
      the cells whose status changes, with their new status. */
  datatype TickWrites = TickWrites(
    hungered: set<DinoId>,
    repairs: set<Location>,
    statuses: map<Location, GridStatus>)
  {
    predicate Empty() { hungered == {} && repairs == {} && statuses == map[] }
  }

  /** The writes a tick at `now` issues on the store `db`, given its query errors. */
  function WritesOf(db: Db, now: Time, f: TickFaults): (w: TickWrites)
    ensures w.hungered <= db.dinos.Keys && w.repairs <= db.grid.Keys && w.statuses.Keys <= db.grid.Keys
    ensures forall id :: id in db.dinos ==>
      (id in w.hungered <==> !f.dinosQueryFails && HungerDue(db.dinos[id], now))
    ensures forall loc :: loc in db.grid ==>
      (loc in w.repairs <==> !f.gridQueryFails && RepairDue(db.grid[loc], now))
    ensures forall loc :: loc in db.grid ==>
      (loc in w.statuses <==>
         !f.gridQueryFails && loc !in f.cellQueryFails && CellStatus(db.dinos, loc) != db.grid[loc].status)
    ensures forall loc :: loc in w.statuses ==> w.statuses[loc] == CellStatus(db.dinos, loc)
  {
    TickWrites(
      if f.dinosQueryFails then {} else set id | id in db.dinos && HungerDue(db.dinos[id], now),
      if f.gridQueryFails then {} else set loc | loc in db.grid && RepairDue(db.grid[loc], now),
      if f.gridQueryFails then map[]
      else map loc | loc in db.grid && loc !in f.cellQueryFails && CellStatus(db.dinos, loc) != db.grid[loc].status
                  :: CellStatus(db.dinos, loc))
  }

  /** The store after a tick at `now` with query errors `f`. */
  function Ticked(db: Db, now: Time, f: TickFaults): (r: Db)
    ensures r.dinos.Keys == db.dinos.Keys && r.grid.Keys == db.grid.Keys
    ensures f.dinosQueryFails ==> r.dinos == db.dinos
    ensures f.gridQueryFails ==> r.grid == db.grid
    ensures !f.gridQueryFails ==> forall loc :: loc in db.grid && loc in f.cellQueryFails ==>
      r.grid[loc] == db.grid[loc].(repairRequired := if RepairDue(db.grid[loc], now) then Some(true)
                                                     else db.grid[loc].repairRequired)
  {
    Db(if f.dinosQueryFails then db.dinos else HungerPass(db.dinos, now),
       if f.gridQueryFails then db.grid else GridPass(db.grid, db.dinos, now, f.cellQueryFails))
  }

  /** The store after the single-row updates `w` are applied to `db`: each hungered dino
      gets `is_hungry = 1`, each repair cell `repair_required = 1`, each status write its
      status. */
  function Apply(db: Db, w: TickWrites): Db
  {
    Db(map id | id in db.dinos :: if id in w.hungered then db.dinos[id].(isHungry := true) else db.dinos[id],
       map loc | loc in db.grid ::
         var c := if loc in w.repairs then db.grid[loc].(repairRequired := Some(true)) else db.grid[loc];
         if loc in w.statuses then c.(status := w.statuses[loc]) else c)
  }

  /** One run of `updateStatus` at time `now` meeting the query errors `faults`; returns
      the writes it issued. */
  method Tick(store: Store, now: Time, faults: TickFaults) returns (writes: TickWrites)
    modifies store
    ensures store.Contents() == Ticked(old(store.Contents()), now, faults)
    ensures writes == WritesOf(old(store.Contents()), now, faults)
  {
    // The source issues the dino query, the grid query and the per-cell dino queries
    // without waiting for the hunger updates; the model lets the whole grid pass read
    // the dinos table as it was when the tick began.
    var snapshot := store.dinos;
    var hungered := HungerUpdate(store, now, faults);
    var repairs, statuses := GridUpdate(store, snapshot, now, faults);
    writes := TickWrites(hungered, repairs, statuses);
  }

  /** Step 1 of the tick: for every dino, the hunger rule; nothing when the dinos query
      fails. */
  method HungerUpdate(store: Store, now: Time, faults: TickFaults) returns (hungered: set<DinoId>)
    modifies store
    ensures store.grid == old(store.grid)
    ensures store.dinos == if faults.dinosQueryFails then old(store.dinos) else HungerPass(old(store.dinos), now)
    ensures hungered == WritesOf(old(store.Contents()), now, faults).hungered
  {
    hungered := {};
    if faults.dinosQueryFails {
      return;
    }
    var dinos := store.dinos;
    var pending := dinos.Keys;
    while pending != {}
      invariant pending <= dinos.Keys
      invariant store.grid == old(store.grid) && store.dinos.Keys == dinos.Keys
      invariant forall id :: id in dinos ==>
        store.dinos[id] == if id in pending then dinos[id] else HungerStep(dinos[id], now)
      invariant forall id :: id in hungered <==> id in dinos && id !in pending && HungerDue(dinos[id], now)
      decreases pending
    {
      var id := RecordStore.Pick(pending);
      var dino := dinos[id];
      if dino.lastFed.Some? {
        var digestionEnd := AddHours(dino.lastFed.value, dino.digestionPeriodInHours);
        if digestionEnd < now && !dino.isHungry {
          store.dinos := store.dinos[id := dino.(isHungry := true)];
          hungered := hungered + {id};
        }
      }
      pending := pending - {id};
    }
    assert store.dinos.Keys == HungerPass(dinos, now).Keys;
    assert forall id :: id in dinos ==> store.dinos[id] == HungerPass(dinos, now)[id];
    ghost var w := WritesOf(old(store.Contents()), now, faults);
    assert old(store.Contents()).dinos == dinos;
    assert forall id :: id in hungered <==> id in w.hungered;
    assert hungered == w.hungered;
  }

  /** Step 2 of the tick: for every cell, the maintenance rule and then the safety
      classification from `dinos`, written only when it differs from the stored one;
      nothing when the grid query fails, and no status for a cell whose dino query
      fails. */
  method GridUpdate(store: Store, dinos: map<DinoId, Dino>, now: Time, faults: TickFaults)
    returns (repairs: set<Location>, statuses: map<Location, GridStatus>)
    modifies store
    ensures store.dinos == old(store.dinos)
    ensures store.grid ==
      if faults.gridQueryFails then old(store.grid) else GridPass(old(store.grid), dinos, now, faults.cellQueryFails)
    ensures repairs == WritesOf(Db(dinos, old(store.grid)), now, faults).repairs
    ensures statuses == WritesOf(Db(dinos, old(store.grid)), now, faults).statuses
  {
    repairs, statuses := {}, map[];
    if faults.gridQueryFails {
      return;
    }
    var cells := store.grid;
    var failed := faults.cellQueryFails;
    var pending := cells.Keys;
    while pending != {}
      invariant pending <= cells.Keys
      invariant store.dinos == old(store.dinos) && store.grid.Keys == cells.Keys
      invariant forall loc :: loc in cells ==>
        store.grid[loc] ==
          if loc in pending then cells[loc] else CellStep(cells[loc], SafetyStatus(cells[loc], dinos, loc, failed), now)
      invariant forall loc :: loc in repairs <==> loc in cells && loc !in pending && RepairDue(cells[loc], now)
      invariant forall loc :: loc in statuses <==>
        loc in cells && loc !in pending && loc !in failed && CellStatus(dinos, loc) != cells[loc].status
      invariant forall loc :: loc in statuses ==> statuses[loc] == CellStatus(dinos, loc)
      decreases pending
    {
      var loc := RecordStore.Pick(pending);
      var repaired, written := ReconcileCell(store, dinos, loc, now, loc in failed);
      if repaired {
        repairs := repairs + {loc};
      }
      if written.Some? {
        statuses := statuses[loc := written.value];
      }
      pending := pending - {loc};
    }
    GridLoopDone(cells, dinos, now, faults, store.grid, repairs, statuses);
  }

  /** What the grid loop's invariants say once every cell is done. */
  lemma GridLoopDone(cells: map<Location, GridCell>, dinos: map<DinoId, Dino>, now: Time, faults: TickFaults,
                     grid: map<Location, GridCell>, repairs: set<Location>, statuses: map<Location, GridStatus>)
    requires !faults.gridQueryFails
    requires grid.Keys == cells.Keys
    requires forall loc :: loc in cells ==>
      grid[loc] == CellStep(cells[loc], SafetyStatus(cells[loc], dinos, loc, faults.cellQueryFails), now)
    requires forall loc :: loc in repairs <==> loc in cells && RepairDue(cells[loc], now)
    requires forall loc :: loc in statuses <==>
      loc in cells && loc !in faults.cellQueryFails && CellStatus(dinos, loc) != cells[loc].status
    requires forall loc :: loc in statuses ==> statuses[loc] == CellStatus(dinos, loc)
    ensures grid == GridPass(cells, dinos, now, faults.cellQueryFails)
    ensures repairs == WritesOf(Db(dinos, cells), now, faults).repairs
    ensures statuses == WritesOf(Db(dinos, cells), now, faults).statuses
  {
    assert grid.Keys == GridPass(cells, dinos, now, faults.cellQueryFails).Keys;
    ghost var w := WritesOf(Db(dinos, cells), now, faults);
    assert statuses.Keys == w.statuses.Keys;
  }

  /** The body of the grid loop for the cell at `loc`: the repair write when
      maintenance is overdue, then, unless the cell's dino query fails, the status write
      when the status changes.  `written` is the status written, if any. */
  method ReconcileCell(store: Store, dinos: map<DinoId, Dino>, loc: Location, now: Time, queryFails: bool)
    returns (repaired: bool, written: Option<GridStatus>)
    requires loc in store.grid
    modifies store
    ensures store.dinos == old(store.dinos)
    ensures store.grid == old(store.grid)[loc := CellStep(old(store.grid)[loc],
      if queryFails then old(store.grid)[loc].status else CellStatus(dinos, loc), now)]
    ensures repaired == RepairDue(old(store.grid)[loc], now)
    ensures written.Some? <==> !queryFails && CellStatus(dinos, loc) != old(store.grid)[loc].status
    ensures written.Some? ==> written.value == CellStatus(dinos, loc)
  {
    var cell := store.grid[loc];
    repaired := false;
    if cell.maintenanceDue.Some? && cell.maintenanceDue.value < now {
      if cell.repairRequired != Some(true) {
        store.grid := store.grid[loc := cell.(repairRequired := Some(true))];
        repaired := true;
      }
    }
    if queryFails {
      return repaired, None;
    }
    var here := DinosAt(dinos, loc);
    var status := ScanCell(here);
    written := None;
    if status != cell.status {
      store.grid := store.grid[loc := store.grid[loc].(status := status)];
      written := Some(status);
    }
  }

  // ---------------------------------------------------------------------------
  // Properties of the tick

  /** The store a tick leaves is exactly what its reported writes make of the store it
      began with, whatever query errors it meets. */
  lemma TickIsItsWrites(db: Db, now: Time, f: TickFaults)
    ensures Ticked(db, now, f) == Apply(db, WritesOf(db, now, f))
  {
    var t, a := Ticked(db, now, f), Apply(db, WritesOf(db, now, f));
    assert t.dinos == a.dinos;
    assert t.grid == a.grid;
  }

  /** The tick never clears hunger and never clears a repair flag, whatever query errors
      it meets. */
  lemma TickIsMonotone(db: Db, now: Time, f: TickFaults)
    ensures forall id :: id in db.dinos && db.dinos[id].isHungry ==> Ticked(db, now, f).dinos[id].isHungry
    ensures forall loc :: loc in db.grid && db.grid[loc].repairRequired == Some(true) ==>
      Ticked(db, now, f).grid[loc].repairRequired == Some(true)
  {
  }

  /** After a tick every cell whose dino query succeeded has status `NA` exactly when no
      dino is there: the hunger pass moves nobody. */
  lemma TickRestoresNAInvariant(db: Db, now: Time, f: TickFaults)
    requires !f.gridQueryFails
    ensures var t := Ticked(db, now, f);
      forall loc :: loc in t.grid && loc !in f.cellQueryFails ==> (t.grid[loc].status == NA <==> !Occupied(t.dinos, loc))
  {
  }

  /** The safety pass settles: run again on the same dinos it writes no status. */
  lemma SafetyPassSettles(grid: map<Location, GridCell>, dinos: map<DinoId, Dino>, now: Time)
    ensures WritesOf(Db(dinos, GridPass(grid, dinos, now, {})), now, NoFaults).statuses == map[]
  {
  }

  /** A second error-free tick at the same time makes no dino hungry and marks no cell for
      repair; it writes a status exactly where the first tick's hunger writes changed the
      cell's classification. */
  lemma SecondTick(db: Db, now: Time)
    ensures var w := WritesOf(Ticked(db, now, NoFaults), now, NoFaults);
      && w.hungered == {} && w.repairs == {}
      && (forall loc :: loc in db.grid ==>
            (loc in w.statuses <==> CellStatus(HungerPass(db.dinos, now), loc) != CellStatus(db.dinos, loc)))
      && (WritesOf(db, now, NoFaults).hungered == {} ==> w.statuses == map[])
  {
    var t := Ticked(db, now, NoFaults);
    assert t.dinos == HungerPass(db.dinos, now) && t.grid == GridPass(db.grid, db.dinos, now, {});
    assert forall id :: id in t.dinos ==> !HungerDue(t.dinos[id], now);
    assert forall loc :: loc in t.grid ==> !RepairDue(t.grid[loc], now);
    assert forall loc :: loc in t.grid ==> t.grid[loc].status == CellStatus(db.dinos, loc);
    if WritesOf(db, now, NoFaults).hungered == {} {
      assert HungerPass(db.dinos, now) == db.dinos;
    }
  }

  /** Two error-free ticks at the same time reach a fixed point: a third issues no write
      at all. */
  lemma {:induction false} TickConverges(db: Db, now: Time)
    ensures WritesOf(Ticked(Ticked(db, now, NoFaults), now, NoFaults), now, NoFaults).Empty()
  {
    var t := Ticked(db, now, NoFaults);
    SecondTick(db, now);
    SecondTick(t, now);
  }
}
