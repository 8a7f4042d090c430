/** The six ways one job leaves the archive worker. */
module ArchiveOutcome {
  import opened Prelude
  import opened JobTable

  datatype Exit =
    | MetadataError | ArchiveError | FootprintError | EnergyError | ExecuteError | Archived

  /** The monitoring status an exit writes; three of the five error exits write none. */
  function StatusOf(exit: Exit): Option<Monitoring> {
    match exit
    case MetadataError => Some(ArchivingFailed)
    case ArchiveError => Some(ArchivingFailed)
    case FootprintError => None
    case EnergyError => None
    case ExecuteError => None
    case Archived => Some(ArchivingSuccessful)
  }
}
