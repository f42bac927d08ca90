/** The append-only activity journal. */
module Journal {
  import opened Models
  import opened Db

  /** Appends one entry and returns it; earlier entries are untouched. */
  method LogEvent(db: Session, userId: nat, eventType: JournalEventType, title: string, description: string,
                  payload: Payload := NoPayload, xpDelta: int := 0, manaDelta: int := 0)
    returns (entry: JournalEntry)
    modifies db`journal
    ensures entry == JournalEntry(userId, eventType, title, description, payload, xpDelta, manaDelta)
    ensures db.journal == old(db.journal) + [entry]
  {
    entry := JournalEntry(userId, eventType, title, description, payload, xpDelta, manaDelta);
    db.journal := db.journal + [entry];
  }
}
