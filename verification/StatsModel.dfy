/** The statistics record of a group of jobs, its fields and their names in a request. */
module StatsModel {

  datatype Stats = Stats(id: string, totalJobs: int, totalUsers: int, totalWalltime: int, totalNodes: int,
                         totalNodeHours: int, totalCores: int, totalCoreHours: int, totalAccs: int, totalAccHours: int,
                         runningJobs: int, shortJobs: int)

  datatype Field = TotalJobs | TotalUsers | TotalWalltime | TotalNodes | TotalNodeHours | TotalCores | TotalCoreHours
                 | TotalAccs | TotalAccHours | RunningJobs | ShortJobs

  function Get(s: Stats, f: Field): int {
    match f
    case TotalJobs => s.totalJobs
    case TotalUsers => s.totalUsers
    case TotalWalltime => s.totalWalltime
    case TotalNodes => s.totalNodes
    case TotalNodeHours => s.totalNodeHours
    case TotalCores => s.totalCores
    case TotalCoreHours => s.totalCoreHours
    case TotalAccs => s.totalAccs
    case TotalAccHours => s.totalAccHours
    case RunningJobs => s.runningJobs
    case ShortJobs => s.shortJobs
  }

  function Name(f: Field): string {
    match f
    case TotalJobs => "totalJobs"
    case TotalUsers => "totalUsers"
    case TotalWalltime => "totalWalltime"
    case TotalNodes => "totalNodes"
    case TotalNodeHours => "totalNodeHours"
    case TotalCores => "totalCores"
    case TotalCoreHours => "totalCoreHours"
    case TotalAccs => "totalAccs"
    case TotalAccHours => "totalAccHours"
    case RunningJobs => "runningJobs"
    case ShortJobs => "shortJobs"
  }
}
