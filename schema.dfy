/** The two tables of the park's record store (db.js:37-58), as record shapes,
    and the one query over them that several components share. */
module Schema {

  datatype Option<+T> = None | Some(value: T)

  /** Timestamps are integers counting milliseconds. */
  type Time = int

  /** `dinos.id INTEGER PRIMARY KEY` */
  type DinoId = int

  /** `grid.location TEXT PRIMARY KEY`, and the `dinos.location` column that points at it. */
  type Location = string

  /** A row of the `dinos` table, without its primary key (the key of the map holding it).
      Nullable columns are `Option`s. */
  datatype Dino = Dino(
    name: string,
    species: string,
    gender: string,
    digestionPeriodInHours: int,
    herbivore: bool,
    time: Time,
    parkId: int,
    location: Option<Location>,
    lastFed: Option<Time>,
    isHungry: bool)

  /** The values the `grid_status` column takes. */
  datatype GridStatus = NA | Safe | Unsafe

  /** A row of the `grid` table, without its primary key.  `repairRequired` is
      nullable: seeding leaves it NULL, maintenance writes 0, a tick writes 1. */
  datatype GridCell = GridCell(
    lastVisited: Option<Time>,
    maintenanceDue: Option<Time>,
    repairRequired: Option<bool>,
    lastMaintenance: Option<Time>,
    status: GridStatus)

  /** The whole store: both tables, keyed by their primary keys. */
  datatype Db = Db(dinos: map<DinoId, Dino>, grid: map<Location, GridCell>)

  /** Some dino's location is `loc`. */
  predicate Occupied(dinos: map<DinoId, Dino>, loc: Location)
  {
    exists id :: id in dinos && dinos[id].location == Some(loc)
  }

  /** The dinos whose location is `loc`, as a set. */
  function OccupantSet(dinos: map<DinoId, Dino>, loc: Location): (s: set<Dino>)
    ensures s == {} <==> !Occupied(dinos, loc)
  {
    var s := set id | id in dinos && dinos[id].location == Some(loc) :: dinos[id];
    assert forall id :: id in dinos && dinos[id].location == Some(loc) ==> dinos[id] in s;
    s
  }
}

/** The integer-time versions of the date helpers: `addHours` (cron-job.js:4-8) and
    `add30Days` (services/dino-moved.js:4-8, services/maintenance.js:4-8). */
module Clock {
  import opened Schema

  const MillisPerHour: int := 3600000
  const MillisPerDay: int := 86400000

  /** `addHours(t, h)`: the instant `h` hours after `t`. */
  function AddHours(t: Time, hours: int): (r: Time)
    ensures hours > 0 ==> r > t
    ensures hours == 0 ==> r == t
    ensures hours < 0 ==> r < t
  {
    t + hours * MillisPerHour
  }

  /** `add30Days(t)`: the instant 30 days after `t`. */
  function Add30Days(t: Time): (r: Time)
    ensures r > t
  {
    t + 30 * MillisPerDay
  }

  /** Thirty days are 720 hours: the two helpers agree. */
  lemma Add30DaysIs720Hours(t: Time)
    ensures Add30Days(t) == AddHours(t, 720)
    ensures Add30Days(t) - t == 2592000000
  {
  }

  /** Later feeding, or a longer digestion period, gives a later deadline. */
  lemma AddHoursMonotone(t: Time, t': Time, h: int, h': int)
    requires t <= t' && h <= h'
    ensures AddHours(t, h) <= AddHours(t', h')
  {
  }
}
