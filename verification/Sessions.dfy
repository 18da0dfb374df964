/** What the database, the handlers and the purge all call an upload session's status. */
module Sessions {
  datatype Status = Requested | Uploaded | Consumed | Expired
}
