/**
 * The registration draft: after a successful submission the form's values
 * are stored under `registration_backup_<competition>` with the time of
 * saving, and they are offered back for one hour. The page-level variable
 * `currentCompetition` and `Date.now()` are parameters.
 */
module Drafts {
  import opened Wrappers
  import opened FormValidator
  import opened Storage

  /** What is stored: the form's values and when they were saved, in milliseconds. */
  datatype Backup = Backup(data: FormValues, timestamp: int)

  /** Which pair of storage helpers the page ended up with. */
  datatype Helpers = SiteWide | PageLocal

  const BackupPrefix := "registration_backup_"

  /** How long a draft is offered back: one hour in milliseconds. */
  const OneHour: int := 60 * 60 * 1000

  function BackupKey(competition: string): (key: string)
    ensures |key| == |BackupPrefix| + |competition|
    ensures key[..|BackupPrefix|] == BackupPrefix && key[|BackupPrefix|..] == competition
  {
    BackupPrefix + competition
  }

  /** The store's contents once a draft is saved. */
  function Saved(items: map<string, Backup>, competition: string, data: FormValues, now: int): (r: map<string, Backup>)
    ensures BackupKey(competition) in r && r[BackupKey(competition)] == Backup(data, now)
    ensures forall k | k != BackupKey(competition) :: (k in r <==> k in items)
    ensures forall k | k != BackupKey(competition) && k in items :: r[k] == items[k]
  {
    items[BackupKey(competition) := Backup(data, now)]
  }

  /** The draft that loading offers back at time `now`, if any. */
  function Restored(items: map<string, Backup>, competition: string, now: int): (r: Option<FormValues>)
    ensures r.Some? ==> BackupKey(competition) in items && r.value == items[BackupKey(competition)].data
  {
    var key := BackupKey(competition);
    if key in items && now - items[key].timestamp < OneHour then Some(items[key].data) else None
  }

  /**
   * `saveFormDataToStorage`: the draft is written unless the browser refuses;
   * a refusal is swallowed, whichever helpers are in use.
   */
  method SaveFormDataToStorage(store: Store<Backup>, competition: string, data: FormValues, now: int, fails: bool, helpers: Helpers)
    modifies store
    ensures store.items == if fails then old(store.items) else Saved(old(store.items), competition, data, now)
  {
    var record := Backup(data, now);
    if helpers == SiteWide {
      var _ := store.Set(BackupKey(competition), record, fails);
    } else {
      var _ := store.SetStrict(BackupKey(competition), record, fails);
    }
  }

  /**
   * `loadFormDataFromStorage`: the saved values when a draft exists and is
   * less than an hour old; nothing when it is missing, stale or unreadable,
   * whichever helpers are in use. It writes nothing.
   */
  method LoadFormDataFromStorage(store: Store<Backup>, competition: string, now: int, fails: bool, helpers: Helpers)
    returns (r: Option<FormValues>)
    ensures r == if fails then None else Restored(store.items, competition, now)
  {
    var backup: Option<Backup>;
    if helpers == SiteWide {
      backup := store.Get(BackupKey(competition), None, fails);
    } else {
      var outcome := store.GetStrict(BackupKey(competition), fails);
      if outcome.Threw? {
        return None;
      }
      backup := outcome.value;
    }
    if backup.Some? && now - backup.value.timestamp < OneHour {
      return Some(backup.value.data);
    }
    return None;
  }

  // ---------------------------------------------------------------------------
  // Properties

  /** Two competitions never share a backup key. */
  lemma BackupKeyInjective(c: string, d: string)
    requires BackupKey(c) == BackupKey(d)
    ensures c == d
  {
    assert c == BackupKey(c)[|BackupPrefix|..];
  }

  /**
   * Loading what was just saved gives it back exactly when less than an hour
   * has passed; in particular at the same instant.
   */
  lemma LoadAfterSave(items: map<string, Backup>, competition: string, data: FormValues, saved: int, now: int)
    ensures Restored(Saved(items, competition, data, saved), competition, now) ==
      if now - saved < OneHour then Some(data) else None
    ensures Restored(Saved(items, competition, data, saved), competition, saved) == Some(data)
  {
  }

  /** Saving a draft for one competition does not change what another competition loads. */
  lemma SaveKeepsOtherCompetitions(items: map<string, Backup>, c: string, d: string, data: FormValues, saved: int, now: int)
    requires c != d
    ensures Restored(Saved(items, c, data, saved), d, now) == Restored(items, d, now)
  {
    if BackupKey(c) == BackupKey(d) {
      BackupKeyInjective(c, d);
      assert false;
    }
  }

  /** A draft offered back at some time was offered back at every earlier time too, and it is the same draft. */
  lemma FreshEarlier(items: map<string, Backup>, competition: string, earlier: int, later: int)
    requires earlier <= later
    requires Restored(items, competition, later).Some?
    ensures Restored(items, competition, earlier) == Restored(items, competition, later)
  {
  }

  /** A draft an hour old or older is never offered back. */
  lemma StaleDraftIgnored(items: map<string, Backup>, competition: string, now: int)
    requires BackupKey(competition) in items
    requires now - items[BackupKey(competition)].timestamp >= OneHour
    ensures Restored(items, competition, now) == None
  {
  }
}
