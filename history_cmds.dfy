/** The history commands (src-tauri/src/commands/history_cmds.rs): each opens
    the database and passes the request through. `open` is the error of
    opening it (`Database::new`), if any. */
module HistoryCmds {
  import opened Wrappers
  import opened Models
  import Database

  /** `get_history`: the table's listing unchanged, or the error of opening it. */
  function GetHistory(db: Database.Database, open: Option<string>, fault: Option<Database.QueryFault>)
    : (r: Result<seq<HistoryItem>, string>)
    reads db
    ensures open.Some? ==> r == Failure(open.value)
    ensures open.None? ==> r == db.GetHistory(fault)
    ensures open.None? && fault.None? ==>
      r.Success? && Database.NewestFirst(r.value) && multiset(r.value) == multiset(db.rows)
  {
    if open.Some? then Failure(open.value) else db.GetHistory(fault)
  }

  /** `delete_history_item`: deletes the local row by `id` only. `url` and
      `provider` are accepted and ignored: nothing is deleted at the provider.
      An absent id is not an error. `fault` is SQLite's failure, if any. */
  method DeleteHistoryItem(db: Database.Database, id: string, url: string, provider: string,
                           open: Option<string>, fault: Option<string>)
    returns (r: Result<(), string>)
    requires db.Valid()
    modifies db
    ensures db.Valid()
    ensures open.Some? ==> r == Failure(open.value) && db.rows == old(db.rows)
    ensures open.None? && fault.None? ==> r == Success(()) && db.rows == Database.WithoutId(old(db.rows), id)
    ensures open.None? && fault.Some? ==>
      r == Failure("Failed to delete history: " + fault.value) && db.rows == old(db.rows)
    ensures !Database.HasId(old(db.rows), id) ==> db.rows == old(db.rows)
  {
    if open.Some? {
      return Failure(open.value);
    }
    r := db.DeleteHistory(id, fault);
  }
}
