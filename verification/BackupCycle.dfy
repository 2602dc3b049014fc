// Export and import on one and the same store.
module BackupCycle {
  import opened BackupExport
  import opened BackupHosts
  import opened BackupOps
  import opened BackupUse
  import opened BackupWriters
  import opened Backups
  import opened StoreRuns
  import opened Stores
  import opened Tables

  /** The tables come back as they were exactly when no restricted account has a direct user
      grant or a revoked recipient and every group's description is trimmed. */
  method ExportThenImport(store: Store, withPasswords: bool)
    requires Sound(store.Contents()) && WellFilled(store.Contents())
    modifies store
    ensures var s := old(store.Contents());
      SameRows(s, store.Contents()) <==> NoDirectGrantsOnRestricted(s) && NoRevokedRecipients(s) && DescriptionsTrimmed(s)
    ensures Sound(store.Contents())
  {
    hide Sound, WellFilled, Exports, Import, SameRows, NoDirectGrantsOnRestricted, NoRevokedRecipients, DescriptionsTrimmed, Restorable;
    ghost var s := store.Contents();
    SoundIsRestorable(s);
    SoundIsValid(s);
    var bak := ExportConfigBackup(store, withPasswords);
    ghost var index :| Exports(s, withPasswords, bak, index);
    SameHostIdentity(s, withPasswords, bak, index);
    ImportConfigBackup(store, bak);
  }

  lemma SoundIsValid(s: Tables)
    requires Sound(s)
    ensures Valid(s)
  {
  }
}
