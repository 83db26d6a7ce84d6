/**
 * The persisted document both cogs share (`bot.warning_data`): the warnings
 * ledger and the mute registry, updated in place by every command.
 */
module Store {
  import opened Records
  import opened Mutes

  /** How a call to the chat platform ended: it succeeded, or raised `Forbidden` or `HTTPException`. */
  datatype CallError = Forbidden | HttpError
  datatype Call = Succeeded | Failed(error: CallError)

  class Ledger {
    /** `warning_data["warnings"]`: guild id -> user id -> record. */
    var warnings: map<string, Guild>
    /** `warning_data["active_mutes"]`: `"{guild}-{user}"` -> mute record. */
    var activeMutes: map<string, MuteRecord>

    /** Every user's entries are well-formed and its counters match them. */
    ghost predicate Valid()
      reads this
    {
      WarningsOk(warnings)
    }

    /** The document `load_data` starts from when there is no file. */
    constructor ()
      ensures warnings == map[] && activeMutes == map[]
      ensures Valid()
    {
      warnings := map[];
      activeMutes := map[];
    }
  }
}
